/** The line buffer and cursor that both editors keep: a never-empty sequence
    of lines and a (cursorY, cursorX) position inside it. The functions here
    say what each edit and each cursor move does to that state; the two
    editor classes update their fields in place and promise to agree with
    them. */
module LineBuffer {

  /** A snapshot of an editor's buffer and cursor. */
  datatype Doc = Doc(buffer: seq<string>, cursorY: nat, cursorX: nat)

  datatype Arrow = Left | Right | Up | Down

  /** No line holds a line break: breaks live between lines. */
  predicate NoLineBreaks(lines: seq<string>)
  {
    forall i :: 0 <= i < |lines| ==> '\n' !in lines[i]
  }

  /** The buffer is never empty, the cursor row names a line and the cursor
      column lies between the start and the end of that line. */
  predicate Valid(d: Doc)
  {
    && |d.buffer| >= 1
    && d.cursorY < |d.buffer|
    && d.cursorX <= |d.buffer[d.cursorY]|
    && NoLineBreaks(d.buffer)
  }

  /** The main-loop keys that insert a character: codes 32 to 126. */
  predicate IsPrintable(code: int)
  {
    32 <= code <= 126
  }

  function Line(d: Doc): string
    requires d.cursorY < |d.buffer|
  {
    d.buffer[d.cursorY]
  }

  /** Inserts `ch` in the cursor line just before the cursor and moves the
      cursor past it. */
  function InsertAt(d: Doc, ch: char): (r: Doc)
    requires Valid(d) && ch != '\n'
    ensures Valid(r)
    ensures |r.buffer| == |d.buffer| && r.cursorY == d.cursorY && r.cursorX == d.cursorX + 1
    ensures forall i :: 0 <= i < |d.buffer| && i != d.cursorY ==> r.buffer[i] == d.buffer[i]
    ensures |Line(r)| == |Line(d)| + 1 && Line(r)[d.cursorX] == ch
    ensures Line(r)[..d.cursorX] == Line(d)[..d.cursorX]
    ensures Line(r)[d.cursorX + 1..] == Line(d)[d.cursorX..]
  {
    var line := d.buffer[d.cursorY];
    var line' := line[..d.cursorX] + [ch] + line[d.cursorX..];
    assert line'[..d.cursorX] == line[..d.cursorX];
    assert line'[d.cursorX + 1..] == line[d.cursorX..];
    assert '\n' !in line' by {
      forall k | 0 <= k < |line'| ensures line'[k] != '\n' {
        if k > d.cursorX { assert line'[k] == line[k - 1]; }
      }
    }
    Doc(d.buffer[d.cursorY := line'], d.cursorY, d.cursorX + 1)
  }

  /** Enter: the cursor line is cut at the cursor; the part after the cursor
      becomes a new line just below, and the cursor moves to its start. */
  function SplitLine(d: Doc): (r: Doc)
    requires Valid(d)
    ensures Valid(r)
    ensures |r.buffer| == |d.buffer| + 1
    ensures r.cursorY == d.cursorY + 1 && r.cursorX == 0
    ensures r.buffer[d.cursorY] == Line(d)[..d.cursorX]
    ensures r.buffer[d.cursorY] + r.buffer[d.cursorY + 1] == Line(d)
    ensures r.buffer[..d.cursorY] == d.buffer[..d.cursorY]
    ensures r.buffer[d.cursorY + 2..] == d.buffer[d.cursorY + 1..]
  {
    var y, x := d.cursorY, d.cursorX;
    var line := d.buffer[y];
    var b := d.buffer[..y] + [line[..x], line[x..]] + d.buffer[y + 1..];
    assert b[y] == line[..x] && b[y + 1] == line[x..];
    assert b[..y] == d.buffer[..y];
    assert b[y + 2..] == d.buffer[y + 1..];
    assert line[..x] + line[x..] == line;
    assert NoLineBreaks(b) by {
      forall i | 0 <= i < |b| ensures '\n' !in b[i] {
        if i < y {
          assert b[i] == d.buffer[i];
        } else if i == y {
          assert forall k :: 0 <= k < x ==> line[..x][k] == line[k];
        } else if i == y + 1 {
          assert forall k :: 0 <= k < |line| - x ==> line[x..][k] == line[x + k];
        } else {
          assert b[i] == d.buffer[i - 1];
        }
      }
    }
    Doc(b, y + 1, 0)
  }

  /** Whether Backspace has anything to delete. */
  predicate CanDeleteBackward(d: Doc)
  {
    d.cursorX > 0 || d.cursorY > 0
  }

  /** Backspace: inside a line, removes the character before the cursor; at
      the start of any line but the first, joins the line onto the previous
      one and puts the cursor at the join; at (0, 0), does nothing. */
  function DeleteBackward(d: Doc): (r: Doc)
    requires Valid(d)
    ensures Valid(r)
    ensures r == d <==> !CanDeleteBackward(d)
    ensures d.cursorX > 0 ==>
      && |r.buffer| == |d.buffer| && r.cursorY == d.cursorY && r.cursorX == d.cursorX - 1
      && (forall i :: 0 <= i < |d.buffer| && i != d.cursorY ==> r.buffer[i] == d.buffer[i])
      && |Line(r)| == |Line(d)| - 1
      && Line(r)[..d.cursorX - 1] == Line(d)[..d.cursorX - 1]
      && Line(r)[d.cursorX - 1..] == Line(d)[d.cursorX..]
    ensures d.cursorX == 0 && d.cursorY > 0 ==>
      && |r.buffer| == |d.buffer| - 1
      && r.cursorY == d.cursorY - 1 && r.cursorX == |d.buffer[d.cursorY - 1]|
      && r.buffer[d.cursorY - 1] == d.buffer[d.cursorY - 1] + d.buffer[d.cursorY]
      && r.buffer[..d.cursorY - 1] == d.buffer[..d.cursorY - 1]
      && r.buffer[d.cursorY..] == d.buffer[d.cursorY + 1..]
  {
    var y, x := d.cursorY, d.cursorX;
    if x > 0 then
      var line := d.buffer[y];
      var line' := line[..x - 1] + line[x..];
      assert line'[..x - 1] == line[..x - 1];
      assert line'[x - 1..] == line[x..];
      assert '\n' !in line' by {
        forall k | 0 <= k < |line'| ensures line'[k] != '\n' {
          if k < x - 1 { assert line'[k] == line[k]; } else { assert line'[k] == line[k + 1]; }
        }
      }
      Doc(d.buffer[y := line'], y, x - 1)
    else if y > 0 then
      var joined := d.buffer[y - 1] + d.buffer[y];
      var b := d.buffer[..y - 1] + [joined] + d.buffer[y + 1..];
      assert b[y - 1] == joined;
      assert b[..y - 1] == d.buffer[..y - 1];
      assert b[y..] == d.buffer[y + 1..];
      assert NoLineBreaks(b) by {
        forall i | 0 <= i < |b| ensures '\n' !in b[i] {
          if i < y - 1 {
            assert b[i] == d.buffer[i];
          } else if i == y - 1 {
            assert '\n' !in d.buffer[y - 1] && '\n' !in d.buffer[y];
            assert forall k :: 0 <= k < |joined| ==>
              joined[k] == if k < |d.buffer[y - 1]| then d.buffer[y - 1][k] else d.buffer[y][k - |d.buffer[y - 1]|];
          } else {
            assert b[i] == d.buffer[i + 1];
          }
        }
      }
      Doc(b, y - 1, |d.buffer[y - 1]|)
    else
      d
  }

  /** The arrow keys. Left and Right move within the line and stop at its
      ends; Up and Down move only when there is a line above or below, and
      then pull the column back to the end of the new line if it is
      shorter. The buffer never changes. */
  function Move(d: Doc, a: Arrow): (r: Doc)
    requires Valid(d)
    ensures Valid(r) && r.buffer == d.buffer
    ensures a == Left ==>
      r.cursorY == d.cursorY && r.cursorX == if d.cursorX > 0 then d.cursorX - 1 else 0
    ensures a == Right ==>
      r.cursorY == d.cursorY && r.cursorX == if d.cursorX < |Line(d)| then d.cursorX + 1 else d.cursorX
    ensures a == Up ==> r.cursorY == if d.cursorY > 0 then d.cursorY - 1 else 0
    ensures a == Down ==> r.cursorY == if d.cursorY + 1 < |d.buffer| then d.cursorY + 1 else d.cursorY
    ensures (a == Up || a == Down) ==>
      if r.cursorY == d.cursorY then r.cursorX == d.cursorX
      else r.cursorX <= d.cursorX && r.cursorX <= |Line(r)| &&
           (r.cursorX == d.cursorX || r.cursorX == |Line(r)|)
  {
    var y, x := d.cursorY, d.cursorX;
    match a
    case Left => if x > 0 then d.(cursorX := x - 1) else d
    case Right => if x < |d.buffer[y]| then d.(cursorX := x + 1) else d
    case Up =>
      if y > 0 then Doc(d.buffer, y - 1, Min(x, |d.buffer[y - 1]|)) else d
    case Down =>
      if y < |d.buffer| - 1 then Doc(d.buffer, y + 1, Min(x, |d.buffer[y + 1]|)) else d
  }

  function Min(a: nat, b: nat): nat
  {
    if a <= b then a else b
  }

  /** `n` copies of `ch`. */
  function Repeat(ch: char, n: nat): (s: string)
    ensures |s| == n && forall k :: 0 <= k < n ==> s[k] == ch
  {
    if n == 0 then [] else [ch] + Repeat(ch, n - 1)
  }

  /** The state after inserting `ch` `n` times at the cursor, one insertion
      after another, as the Tab key does with spaces. */
  function InsertRepeated(d: Doc, ch: char, n: nat): (r: Doc)
    requires Valid(d) && ch != '\n'
    ensures Valid(r)
    decreases n
  {
    if n == 0 then d else InsertAt(InsertRepeated(d, ch, n - 1), ch)
  }

  /** Inserting `ch` `n` times puts exactly `n` copies of it in front of the
      cursor, advances the cursor by `n` and leaves every other line alone. */
  lemma {:induction false} InsertRepeatedShape(d: Doc, ch: char, n: nat)
    requires Valid(d) && ch != '\n'
    ensures InsertRepeated(d, ch, n) ==
      Doc(d.buffer[d.cursorY := Line(d)[..d.cursorX] + Repeat(ch, n) + Line(d)[d.cursorX..]],
          d.cursorY, d.cursorX + n)
    decreases n
  {
    var line, x, y := Line(d), d.cursorX, d.cursorY;
    if n == 0 {
      assert line[..x] + [] + line[x..] == line;
      assert d.buffer[y := line] == d.buffer;
    } else {
      InsertRepeatedShape(d, ch, n - 1);
      var mid := InsertRepeated(d, ch, n - 1);
      var midLine := line[..x] + Repeat(ch, n - 1) + line[x..];
      assert mid.buffer == d.buffer[y := midLine];
      InsertAfterRepeat(line, x, ch, n);
      assert InsertAt(mid, ch).buffer == mid.buffer[y := midLine[..x + n - 1] + [ch] + midLine[x + n - 1..]];
    }
  }

  lemma InsertAfterRepeat(line: string, x: nat, ch: char, n: nat)
    requires x <= |line| && n >= 1
    ensures var mid := line[..x] + Repeat(ch, n - 1) + line[x..];
            mid[..x + n - 1] + [ch] + mid[x + n - 1..] == line[..x] + Repeat(ch, n) + line[x..]
  {
    var mid := line[..x] + Repeat(ch, n - 1) + line[x..];
    assert mid[..x + n - 1] == line[..x] + Repeat(ch, n - 1);
    assert mid[x + n - 1..] == line[x..];
    assert Repeat(ch, n - 1) + [ch] == Repeat(ch, n);
  }

  /** Backspace right after Enter joins the two halves again and restores
      the cursor. */
  lemma BackspaceUndoesSplit(d: Doc)
    requires Valid(d)
    ensures DeleteBackward(SplitLine(d)) == d
  {
    var s := SplitLine(d);
    var r := DeleteBackward(s);
    var y := d.cursorY;
    assert r.buffer[..y] == d.buffer[..y];
    assert r.buffer[y] == d.buffer[y];
    assert r.buffer[y + 1..] == d.buffer[y + 1..];
    assert r.buffer == r.buffer[..y] + [r.buffer[y]] + r.buffer[y + 1..];
    assert d.buffer == d.buffer[..y] + [d.buffer[y]] + d.buffer[y + 1..];
  }

  /** Backspace right after inserting a character removes it again. */
  lemma BackspaceUndoesInsert(d: Doc, ch: char)
    requires Valid(d) && ch != '\n'
    ensures DeleteBackward(InsertAt(d, ch)) == d
  {
    var r := DeleteBackward(InsertAt(d, ch));
    var line := Line(d);
    assert Line(r) == Line(r)[..d.cursorX] + Line(r)[d.cursorX..];
    assert line == line[..d.cursorX] + line[d.cursorX..];
    assert r.buffer == d.buffer;
  }

  /** Right then Left returns to the same place when Right could move. */
  lemma LeftUndoesRight(d: Doc)
    requires Valid(d) && d.cursorX < |Line(d)|
    ensures Move(Move(d, Right), Left) == d
  {
  }

  /** Up then Down returns to the same place when there is a line above that
      is long enough to keep the column. */
  lemma DownUndoesUp(d: Doc)
    requires Valid(d) && d.cursorY > 0 && d.cursorX <= |d.buffer[d.cursorY - 1]|
    ensures Move(Move(d, Up), Down) == d
  {
  }
}
