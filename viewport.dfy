/** The GUI editor's viewport arithmetic. Scroll offsets and positions are in
    pixels; the font metrics, the client size and the line-number settings
    are passed in as a Layout instead of being read from the font and the
    settings singleton. All arithmetic is on mathematical integers: the
    unsigned and 32-bit conversions of the C++ code agree with it whenever
    the values fit in an `int`. */
module Viewport {

  datatype Layout = Layout(
    charWidth: int,
    charHeight: int,
    clientWidth: int,
    clientHeight: int,
    lineNumberWidth: int,
    showLineNumbers: bool)

  datatype Point = Point(x: int, y: int)

  /** Width of the line-number margin the text starts after. */
  function TextOffset(layout: Layout): int
  {
    if layout.showLineNumbers then layout.lineNumberWidth else 0
  }

  /** Top-left corner, relative to the view, of the character cell at
      (line, col) when the view is scrolled by (scrollX, scrollY). */
  function CharPosition(line: nat, col: nat, scrollX: int, scrollY: int, layout: Layout): (p: Point)
    ensures p.x + scrollX == col * layout.charWidth && p.y + scrollY == line * layout.charHeight
  {
    Point(col * layout.charWidth - scrollX, line * layout.charHeight - scrollY)
  }

  /** Character cells form a grid of charWidth by charHeight cells, and
      scrolling the view by (dx, dy) moves every cell by (-dx, -dy). */
  lemma CharPositionGrid(line: nat, col: nat, scrollX: int, scrollY: int, dx: int, dy: int, layout: Layout)
    ensures CharPosition(line, col + 1, scrollX, scrollY, layout).x ==
            CharPosition(line, col, scrollX, scrollY, layout).x + layout.charWidth
    ensures CharPosition(line + 1, col, scrollX, scrollY, layout).y ==
            CharPosition(line, col, scrollX, scrollY, layout).y + layout.charHeight
    ensures CharPosition(line, col, scrollX + dx, scrollY + dy, layout) ==
            Point(CharPosition(line, col, scrollX, scrollY, layout).x - dx,
                  CharPosition(line, col, scrollX, scrollY, layout).y - dy)
  {
  }

  function Max(a: int, b: int): int
  {
    if a >= b then a else b
  }

  /** Length of the longest line, 0 when there are none. */
  function MaxLineLength(lines: seq<string>): (m: nat)
    ensures forall i :: 0 <= i < |lines| ==> |lines[i]| <= m
    ensures lines == [] ==> m == 0
    ensures lines != [] ==> exists i :: 0 <= i < |lines| && |lines[i]| == m
  {
    if lines == [] then 0
    else
      var rest := MaxLineLength(lines[..|lines| - 1]);
      if |lines[|lines| - 1]| > rest then |lines[|lines| - 1]| else rest
  }

  /** How far the view can scroll right: the longest line's width plus the
      margin and 20 pixels of slack, minus the client width, but never
      below 0. */
  function MaxScrollX(lines: seq<string>, layout: Layout): (m: int)
    ensures m >= 0
    ensures m >= MaxLineLength(lines) * layout.charWidth - layout.clientWidth + TextOffset(layout) + 20
    ensures m > 0 ==>
      MaxLineLength(lines) * layout.charWidth - m == layout.clientWidth - TextOffset(layout) - 20
  {
    Max(0, MaxLineLength(lines) * layout.charWidth - layout.clientWidth + TextOffset(layout) + 20)
  }

  /** How far the view can scroll down: the height of all lines plus one
      line (the status bar) and 20 pixels of slack, minus the client height,
      but never below 0. */
  function MaxScrollY(lines: seq<string>, layout: Layout): (m: int)
    ensures m >= 0
    ensures m >= |lines| * layout.charHeight - layout.clientHeight + layout.charHeight + 20
    ensures m > 0 ==>
      (|lines| + 1) * layout.charHeight - m == layout.clientHeight - 20
  {
    Max(0, |lines| * layout.charHeight - layout.clientHeight + layout.charHeight + 20)
  }

  /** `std::max(0, std::min(v, hi))`. */
  function Clamp(v: int, hi: int): (r: int)
    ensures r >= 0
    ensures hi >= 0 ==> r <= hi
    ensures 0 <= v <= hi ==> r == v
    ensures v < 0 ==> r == 0
    ensures hi >= 0 && v > hi ==> r == hi
  {
    if v <= hi then Max(0, v) else Max(0, hi)
  }

  /** One axis of ensureCursorVisible before clamping: `pos` is where the
      cursor is on screen, [low, high] the band it must be in. A cursor
      before the band scrolls the view back by exactly its distance to
      `low`; a cursor at or past `high` scrolls the view on by exactly its
      distance past `high`; otherwise the offset stays. */
  function Follow(scroll: int, pos: int, low: int, high: int): (r: int)
    ensures pos < low ==> scroll - r == low - pos
    ensures low <= pos && high <= pos ==> r - scroll == pos - high
    ensures low <= pos < high ==> r == scroll
  {
    if pos < low then scroll + (pos - low)
    else if pos >= high then scroll + (pos - high)
    else scroll
  }

  /** The band the cursor's left edge must be in: after the margin and one
      character before the right edge. */
  function FollowX(scrollX: int, posX: int, layout: Layout): int
  {
    Follow(scrollX, posX, TextOffset(layout), layout.clientWidth - layout.charWidth)
  }

  /** The band the cursor's top edge must be in: below the top and two lines
      above the bottom (the status bar and the line itself). */
  function FollowY(scrollY: int, posY: int, layout: Layout): int
  {
    Follow(scrollY, posY, 0, layout.clientHeight - layout.charHeight * 2)
  }

  /** Because the view moves by exactly the overflow, the cursor ends up on
      screen inside its band whenever the band is not empty. */
  lemma CursorInBandAfterFollow(line: nat, col: nat, scrollX: int, scrollY: int, layout: Layout)
    requires TextOffset(layout) <= layout.clientWidth - layout.charWidth
    requires 0 <= layout.clientHeight - layout.charHeight * 2
    ensures var p := CharPosition(line, col, scrollX, scrollY, layout);
            var q := CharPosition(line, col, FollowX(scrollX, p.x, layout), FollowY(scrollY, p.y, layout), layout);
            && TextOffset(layout) <= q.x <= layout.clientWidth - layout.charWidth
            && 0 <= q.y <= layout.clientHeight - layout.charHeight * 2
  {
    var p := CharPosition(line, col, scrollX, scrollY, layout);
    var sx, sy := FollowX(scrollX, p.x, layout), FollowY(scrollY, p.y, layout);
    var q := CharPosition(line, col, sx, sy, layout);
    assert q.x == p.x - (sx - scrollX);
    assert q.y == p.y - (sy - scrollY);
  }

  /** ensureCursorVisible clamps against the maxima computed by the
      previous updateScrollInfo and only then recomputes them. Deleting the
      last character of the longest line while the view is scrolled right
      leaves the offset past the new maximum: line "abcde", 30-pixel
      characters, a 100-pixel client area with no line numbers, scrollX 40,
      cursor at column 5, Backspace. */
  lemma StaleMaximumOvershoot()
    ensures var layout := Layout(30, 16, 100, 400, 0, false);
            var before, after := ["abcde"], ["abcd"];
            var stale := MaxScrollX(before, layout);
            var p := CharPosition(0, 4, 40, 0, layout);
            Clamp(FollowX(40, p.x, layout), stale) > MaxScrollX(after, layout)
  {
    var layout := Layout(30, 16, 100, 400, 0, false);
    assert MaxLineLength(["abcde"]) == 5 by {
      assert ["abcde"][..0] == [];
    }
    assert MaxLineLength(["abcd"]) == 4 by {
      assert ["abcd"][..0] == [];
    }
    assert MaxScrollX(["abcde"], layout) == 70;
    assert MaxScrollX(["abcd"], layout) == 40;
  }
}
