/** The windowed editor (TextEditor.cpp): the buffer, the cursor, the
    modified flag and the scroll state are fields that the message handlers
    update in place. Font metrics, client size and settings come in as a
    Layout and a tab size; file streams come in as the text read or a flag
    saying whether the file could be opened for writing. */
module GuiEditor {
  import opened LineBuffer
  import opened LineFile
  import opened Viewport

  /** Virtual-key codes handled by handleKeyDown. */
  const VK_BACK: nat := 0x08
  const VK_TAB: nat := 0x09
  const VK_RETURN: nat := 0x0D
  const VK_LEFT: nat := 0x25
  const VK_UP: nat := 0x26
  const VK_RIGHT: nat := 0x27
  const VK_DOWN: nat := 0x28

  /** What handleKeyDown does to the buffer and the cursor. */
  function KeyDown(d: Doc, key: nat, tabSize: int): (r: Doc)
    requires LineBuffer.Valid(d)
    ensures LineBuffer.Valid(r)
  {
    if key == VK_LEFT then Move(d, Left)
    else if key == VK_RIGHT then Move(d, Right)
    else if key == VK_UP then Move(d, Up)
    else if key == VK_DOWN then Move(d, Down)
    else if key == VK_RETURN then SplitLine(d)
    else if key == VK_TAB then InsertRepeated(d, ' ', if tabSize > 0 then tabSize else 0)
    else if key == VK_BACK then DeleteBackward(d)
    else d
  }

  /** Whether handleKeyDown sets isModified: Return always, Tab when it
      inserts at least one space, Backspace when there is something to
      delete. That is exactly when the key changes the text. */
  predicate KeyDownModifies(d: Doc, key: nat, tabSize: int): (b: bool)
    requires LineBuffer.Valid(d)
    ensures b <==> KeyDown(d, key, tabSize).buffer != d.buffer
  {
    TabInsertsSpaces(d, tabSize);
    || key == VK_RETURN
    || (key == VK_TAB && tabSize > 0)
    || (key == VK_BACK && CanDeleteBackward(d))
  }

  class TextEditor {
    var buffer: seq<string>
    var cursorX: nat
    var cursorY: nat
    var filename: string
    var isModified: bool
    var scrollX: int
    var scrollY: int
    var maxScrollX: int
    var maxScrollY: int

    function Snapshot(): Doc
      reads this
    {
      Doc(buffer, cursorY, cursorX)
    }

    /** The buffer and cursor invariant, and offsets and maxima that are
        never negative. */
    ghost predicate Valid()
      reads this
    {
      && LineBuffer.Valid(Snapshot())
      && 0 <= scrollX && 0 <= scrollY
      && 0 <= maxScrollX && 0 <= maxScrollY
    }

    /** A new editor holds one empty line and is unmodified. */
    constructor ()
      ensures Valid()
      ensures buffer == [""] && cursorX == 0 && cursorY == 0
      ensures filename == "" && !isModified
      ensures scrollX == 0 && scrollY == 0 && maxScrollX == 0 && maxScrollY == 0
    {
      buffer := [""];
      cursorX, cursorY := 0, 0;
      filename := "";
      isModified := false;
      scrollX, scrollY, maxScrollX, maxScrollY := 0, 0, 0, 0;
    }

    /** The scan for the longest line and the two maxima of
        updateScrollInfo; handing them to the scroll bars is left out. */
    method UpdateScrollInfo(layout: Layout)
      modifies this`maxScrollX, this`maxScrollY
      ensures maxScrollX == MaxScrollX(buffer, layout) && maxScrollY == MaxScrollY(buffer, layout)
    {
      var maxLineLength: nat := 0;
      var i := 0;
      while i < |buffer|
        invariant 0 <= i <= |buffer|
        invariant maxLineLength == MaxLineLength(buffer[..i])
      {
        assert buffer[..i + 1][..i] == buffer[..i];
        maxLineLength := if |buffer[i]| > maxLineLength then |buffer[i]| else maxLineLength;
        i := i + 1;
      }
      assert buffer[..i] == buffer;
      var xOffset := TextOffset(layout);
      maxScrollX := Max(0, maxLineLength * layout.charWidth - layout.clientWidth + xOffset + 20);
      maxScrollY := Max(0, |buffer| * layout.charHeight - layout.clientHeight + layout.charHeight + 20);
    }

    /** loadFile. The name is always taken; the buffer changes only when the
        file could be read (`content` holds its text). The lines read
        replace the buffer (one empty line if there were none), the cursor
        goes to the start of the file and the editor is unmodified. */
    method LoadFile(fname: string, content: Option<string>, layout: Layout)
      requires Valid()
      modifies this
      ensures Valid() && filename == fname
      ensures content.None? ==>
        Snapshot() == old(Snapshot()) && isModified == old(isModified) &&
        maxScrollX == old(maxScrollX) && maxScrollY == old(maxScrollY)
      ensures content.Some? ==>
        Snapshot() == LoadDoc(content.value) && !isModified &&
        maxScrollX == MaxScrollX(buffer, layout) && maxScrollY == MaxScrollY(buffer, layout)
      ensures scrollX == old(scrollX) && scrollY == old(scrollY)
    {
      filename := fname;
      if content.Some? {
        var lines := ReadLines(content.value);
        if lines == [] {
          lines := [""];
        }
        assert lines == Load(content.value);
        buffer := lines;
        cursorX, cursorY := 0, 0;
        isModified := false;
        UpdateScrollInfo(layout);
      }
    }

    /** saveFile. Without a file name, or when the file cannot be opened
        (`canOpen` is false), nothing is written and nothing changes.
        Otherwise every line is written followed by "\n", the text written
        loads back to the same buffer, and the editor is unmodified. */
    method SaveFile(canOpen: bool) returns (written: Option<string>)
      requires Valid()
      modifies this`isModified
      ensures Valid()
      ensures written == if filename != "" && canOpen then Some(Serialize(buffer)) else None
      ensures written.Some? ==> Load(written.value) == buffer
      ensures isModified == if written.Some? then false else old(isModified)
    {
      written := None;
      if filename == "" {
        return;
      }
      if canOpen {
        var text := WriteLines(buffer);
        LoadSerialize(buffer);
        written := Some(text);
        isModified := false;
      }
    }

    /** insertChar: '\n' splits the cursor line, any other character is
        inserted before the cursor; either way the editor is modified. */
    method InsertChar(ch: char)
      requires Valid()
      modifies this
      ensures Valid()
      ensures Snapshot() == if ch == '\n' then SplitLine(old(Snapshot())) else InsertAt(old(Snapshot()), ch)
      ensures isModified && filename == old(filename)
      ensures scrollX == old(scrollX) && scrollY == old(scrollY)
      ensures maxScrollX == old(maxScrollX) && maxScrollY == old(maxScrollY)
    {
      var line := buffer[cursorY];
      if ch == '\n' {
        var rest := line[cursorX..];
        buffer := buffer[..cursorY] + [line[..cursorX]] + [rest] + buffer[cursorY + 1..];
        cursorX := 0;
        cursorY := cursorY + 1;
      } else {
        buffer := buffer[cursorY := line[..cursorX] + [ch] + line[cursorX..]];
        cursorX := cursorX + 1;
      }
      isModified := true;
    }

    /** ensureCursorVisible as written: moves the offsets toward the cursor,
        clamps them against the maxima of the last updateScrollInfo and only
        then recomputes the maxima, so the offsets can end up past the new
        maxima (Viewport.StaleMaximumOvershoot). */
    method EnsureCursorVisibleAsWritten(layout: Layout)
      requires Valid()
      modifies this
      ensures Valid()
      ensures var p := CharPosition(cursorY, cursorX, old(scrollX), old(scrollY), layout);
              && scrollX == Clamp(FollowX(old(scrollX), p.x, layout), old(maxScrollX))
              && scrollY == Clamp(FollowY(old(scrollY), p.y, layout), old(maxScrollY))
      ensures 0 <= scrollX <= old(maxScrollX) && 0 <= scrollY <= old(maxScrollY)
      ensures maxScrollX == MaxScrollX(buffer, layout) && maxScrollY == MaxScrollY(buffer, layout)
      ensures Snapshot() == old(Snapshot()) && filename == old(filename) && isModified == old(isModified)
    {
      FollowCursor(layout);
      scrollX := Clamp(scrollX, maxScrollX);
      scrollY := Clamp(scrollY, maxScrollY);
      UpdateScrollInfo(layout);
    }

    /** ensureCursorVisible with the maxima recomputed before the clamp, so
        that both offsets end up within [0, max] for the current buffer. */
    method EnsureCursorVisible(layout: Layout)
      requires Valid()
      modifies this
      ensures Valid()
      ensures maxScrollX == MaxScrollX(buffer, layout) && maxScrollY == MaxScrollY(buffer, layout)
      ensures var p := CharPosition(cursorY, cursorX, old(scrollX), old(scrollY), layout);
              && scrollX == Clamp(FollowX(old(scrollX), p.x, layout), maxScrollX)
              && scrollY == Clamp(FollowY(old(scrollY), p.y, layout), maxScrollY)
      ensures 0 <= scrollX <= maxScrollX && 0 <= scrollY <= maxScrollY
      ensures Snapshot() == old(Snapshot()) && filename == old(filename) && isModified == old(isModified)
    {
      FollowCursor(layout);
      UpdateScrollInfo(layout);
      scrollX := Clamp(scrollX, maxScrollX);
      scrollY := Clamp(scrollY, maxScrollY);
    }

    /** The two if-chains of ensureCursorVisible, before any clamping. */
    method FollowCursor(layout: Layout)
      requires Valid()
      modifies this`scrollX, this`scrollY
      ensures var p := CharPosition(cursorY, cursorX, old(scrollX), old(scrollY), layout);
              scrollX == FollowX(old(scrollX), p.x, layout) && scrollY == FollowY(old(scrollY), p.y, layout)
    {
      var cursorPos := CharPosition(cursorY, cursorX, scrollX, scrollY, layout);
      var xOffset := TextOffset(layout);
      if cursorPos.x < xOffset {
        scrollX := scrollX + (cursorPos.x - xOffset);
      } else if cursorPos.x >= layout.clientWidth - layout.charWidth {
        scrollX := scrollX + (cursorPos.x - layout.clientWidth + layout.charWidth);
      }
      if cursorPos.y < 0 {
        scrollY := scrollY + cursorPos.y;
      } else if cursorPos.y >= layout.clientHeight - layout.charHeight * 2 {
        scrollY := scrollY + (cursorPos.y - layout.clientHeight + layout.charHeight * 2);
      }
    }

    /** handleChar: codes 32 to 126 are inserted at the cursor and the view
        follows the cursor; every other code changes nothing. */
    method HandleChar(code: nat, layout: Layout)
      requires Valid()
      modifies this
      ensures Valid() && filename == old(filename)
      ensures IsPrintable(code) ==>
        && Snapshot() == InsertAt(old(Snapshot()), code as char)
        && isModified
        && maxScrollX == MaxScrollX(buffer, layout) && maxScrollY == MaxScrollY(buffer, layout)
        && scrollX == Clamp(FollowX(old(scrollX), CharPosition(cursorY, cursorX, old(scrollX), old(scrollY), layout).x, layout), maxScrollX)
        && scrollY == Clamp(FollowY(old(scrollY), CharPosition(cursorY, cursorX, old(scrollX), old(scrollY), layout).y, layout), maxScrollY)
        && 0 <= scrollX <= maxScrollX && 0 <= scrollY <= maxScrollY
      ensures !IsPrintable(code) ==>
        && Snapshot() == old(Snapshot()) && isModified == old(isModified)
        && scrollX == old(scrollX) && scrollY == old(scrollY)
        && maxScrollX == old(maxScrollX) && maxScrollY == old(maxScrollY)
    {
      if 32 <= code <= 126 {
        InsertChar(code as char);
        EnsureCursorVisible(layout);
      }
    }

    /** handleKeyDown: the arrows move the cursor, Return splits the line,
        Tab inserts `tabSize` spaces, Backspace deletes backward, and other
        keys change nothing in the buffer; after every key the view follows
        the cursor. */
    method HandleKeyDown(key: nat, layout: Layout, tabSize: int)
      requires Valid()
      modifies this
      ensures Valid() && filename == old(filename)
      ensures Snapshot() == KeyDown(old(Snapshot()), key, tabSize)
      ensures isModified == (KeyDownModifies(old(Snapshot()), key, tabSize) || old(isModified))
      ensures maxScrollX == MaxScrollX(buffer, layout) && maxScrollY == MaxScrollY(buffer, layout)
      ensures var p := CharPosition(cursorY, cursorX, old(scrollX), old(scrollY), layout);
              && scrollX == Clamp(FollowX(old(scrollX), p.x, layout), maxScrollX)
              && scrollY == Clamp(FollowY(old(scrollY), p.y, layout), maxScrollY)
      ensures 0 <= scrollX <= maxScrollX && 0 <= scrollY <= maxScrollY
    {
      if key == VK_LEFT {
        MoveCursor(Left);
      } else if key == VK_RIGHT {
        MoveCursor(Right);
      } else if key == VK_UP {
        MoveCursor(Up);
      } else if key == VK_DOWN {
        MoveCursor(Down);
      } else if key == VK_RETURN {
        InsertChar('\n');
      } else if key == VK_TAB {
        InsertTab(tabSize);
      } else if key == VK_BACK {
        Backspace();
      }
      EnsureCursorVisible(layout);
    }

    /** The arrow cases of handleKeyDown. */
    method MoveCursor(a: Arrow)
      requires Valid()
      modifies this`cursorX, this`cursorY
      ensures Valid() && Snapshot() == Move(old(Snapshot()), a)
    {
      if a == Left {
        if cursorX > 0 {
          cursorX := cursorX - 1;
        }
      } else if a == Right {
        if cursorX < |buffer[cursorY]| {
          cursorX := cursorX + 1;
        }
      } else if a == Up {
        if cursorY > 0 {
          cursorY := cursorY - 1;
          cursorX := Min(cursorX, |buffer[cursorY]|);
        }
      } else {
        if cursorY < |buffer| - 1 {
          cursorY := cursorY + 1;
          cursorX := Min(cursorX, |buffer[cursorY]|);
        }
      }
    }

    /** The Tab case of handleKeyDown: `tabSize` calls of insertChar(' '). */
    method InsertTab(tabSize: int)
      requires Valid()
      modifies this
      ensures Valid() && filename == old(filename)
      ensures Snapshot() == InsertRepeated(old(Snapshot()), ' ', if tabSize > 0 then tabSize else 0)
      ensures isModified == (tabSize > 0 || old(isModified))
      ensures scrollX == old(scrollX) && scrollY == old(scrollY)
      ensures maxScrollX == old(maxScrollX) && maxScrollY == old(maxScrollY)
    {
      ghost var d := Snapshot();
      var i := 0;
      while i < tabSize
        invariant Valid() && 0 <= i <= (if tabSize > 0 then tabSize else 0)
        invariant Snapshot() == InsertRepeated(d, ' ', i)
        invariant isModified == (i > 0 || old(isModified))
        invariant filename == old(filename) && scrollX == old(scrollX) && scrollY == old(scrollY)
        invariant maxScrollX == old(maxScrollX) && maxScrollY == old(maxScrollY)
      {
        InsertChar(' ');
        i := i + 1;
      }
    }

    /** The Backspace case of handleKeyDown; the editor becomes modified only
        when something is deleted. */
    method Backspace()
      requires Valid()
      modifies this`buffer, this`cursorX, this`cursorY, this`isModified
      ensures Valid() && Snapshot() == DeleteBackward(old(Snapshot()))
      ensures isModified == (CanDeleteBackward(old(Snapshot())) || old(isModified))
    {
      if cursorX > 0 {
        var line := buffer[cursorY];
        buffer := buffer[cursorY := line[..cursorX - 1] + line[cursorX..]];
        cursorX := cursorX - 1;
        isModified := true;
      } else if cursorY > 0 {
        cursorX := |buffer[cursorY - 1]|;
        buffer := buffer[..cursorY - 1] + [buffer[cursorY - 1] + buffer[cursorY]] + buffer[cursorY + 1..];
        cursorY := cursorY - 1;
        isModified := true;
      }
    }
  }

  /** Tab inserts exactly `tabSize` spaces before the cursor (none when
      `tabSize` is not positive) and moves the cursor past them. */
  lemma TabInsertsSpaces(d: Doc, tabSize: int)
    requires LineBuffer.Valid(d)
    ensures var n := if tabSize > 0 then tabSize else 0;
            KeyDown(d, VK_TAB, tabSize) ==
              Doc(d.buffer[d.cursorY := Line(d)[..d.cursorX] + Repeat(' ', n) + Line(d)[d.cursorX..]],
                  d.cursorY, d.cursorX + n)
  {
    InsertRepeatedShape(d, ' ', if tabSize > 0 then tabSize else 0);
  }
}
