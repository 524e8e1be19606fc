/** The console editor (hoodrd.cpp): the same buffer, cursor and modified
    flag as the windowed editor, plus a redraw flag, updated in place by
    insertChar and by the key dispatch of the main loop. One turn of that
    loop is modelled: the key codes read from the keyboard, the user's answer
    to the quit question, the file name typed at the save prompt and whether the
    file could be opened are parameters. */
module ConsoleEditor {
  import opened LineBuffer
  import opened LineFile

  /** First codes of a two-code special key, and the arrow codes after it. */
  const EXTENDED: int := 0
  const EXTENDED_ALT: int := 224
  const ARROW_UP: int := 72
  const ARROW_DOWN: int := 80
  const ARROW_LEFT: int := 75
  const ARROW_RIGHT: int := 77
  const CTRL_Q: int := 17
  const CTRL_S: int := 19
  /** Codes insertChar acts on besides the printable ones. */
  const BACKSPACE: int := 8
  const ENTER: int := 13

  /** The `char` a key code becomes when passed to insertChar: its low eight
      bits, read as a signed byte. */
  function SignedChar(code: int): (c: int)
    ensures -128 <= c < 128
    ensures (code - c) % 256 == 0
    ensures 0 <= code < 128 ==> c == code
  {
    var b := code % 256;
    if b >= 128 then b - 256 else b
  }

  datatype Command = MoveCursor(arrow: Arrow) | Save | Quit | Ignore | Insert(ch: int)

  /** What the main loop does with a key: `first` is the code read, `second`
      the code read after it when `first` announces a special key. */
  function Classify(first: int, second: int): (c: Command)
    ensures (first == EXTENDED || first == EXTENDED_ALT) <==> (c.MoveCursor? || c.Ignore?)
    ensures c.MoveCursor? ==>
      c.arrow == (if second == ARROW_UP then Up else if second == ARROW_DOWN then Down
                  else if second == ARROW_LEFT then Left else Right)
    ensures c.Ignore? <==>
      (first == EXTENDED || first == EXTENDED_ALT) &&
      second != ARROW_UP && second != ARROW_DOWN && second != ARROW_LEFT && second != ARROW_RIGHT
    ensures c.Save? <==> first == CTRL_S
    ensures c.Quit? <==> first == CTRL_Q
    ensures c.Insert? ==> c.ch == SignedChar(first)
  {
    if first == EXTENDED || first == EXTENDED_ALT then
      if second == ARROW_UP then MoveCursor(Up)
      else if second == ARROW_DOWN then MoveCursor(Down)
      else if second == ARROW_LEFT then MoveCursor(Left)
      else if second == ARROW_RIGHT then MoveCursor(Right)
      else Ignore
    else if first == CTRL_S then Save
    else if first == CTRL_Q then Quit
    else Insert(SignedChar(first))
  }

  /** What insertChar does to the buffer and the cursor. */
  function KeyEffect(d: Doc, ch: int): (r: Doc)
    requires LineBuffer.Valid(d)
    ensures LineBuffer.Valid(r)
    ensures ch != ENTER && ch != BACKSPACE && !IsPrintable(ch) ==> r == d
  {
    if ch == ENTER then SplitLine(d)
    else if ch == BACKSPACE then DeleteBackward(d)
    else if IsPrintable(ch) then InsertAt(d, ch as char)
    else d
  }

  /** Neither Ctrl+S nor Ctrl+Q, nor any special key, ever reaches
      insertChar; every other code does, as a signed byte. */
  lemma ControlKeysNeverInsert(first: int, second: int)
    ensures Classify(first, second).Insert? <==>
      first != EXTENDED && first != EXTENDED_ALT && first != CTRL_S && first != CTRL_Q
  {
  }

  /** For the codes the keyboard delivers (0 to 255), a key is inserted as a
      character exactly when its code is printable; codes from 128 up are
      negative as a `char` and are ignored. */
  lemma InsertedExactlyWhenPrintable(d: Doc, code: int)
    requires LineBuffer.Valid(d) && 0 <= code < 256
    requires code != ENTER && code != BACKSPACE
    ensures KeyEffect(d, SignedChar(code)) == d <==> !IsPrintable(code)
  {
    if IsPrintable(code) {
      var r := InsertAt(d, code as char);
      assert |r.buffer[r.cursorY]| == |d.buffer[d.cursorY]| + 1;
    } else if code >= 128 {
      assert SignedChar(code) < 0;
    }
  }

  class TextEditor {
    var buffer: seq<string>
    var cursorX: nat
    var cursorY: nat
    var filename: string
    var isModified: bool
    var needsRedraw: bool

    function Snapshot(): Doc
      reads this
    {
      Doc(buffer, cursorY, cursorX)
    }

    ghost predicate Valid()
      reads this
    {
      LineBuffer.Valid(Snapshot())
    }

    /** A new editor holds one empty line, is unmodified and is drawn on the
        first turn of the loop. */
    constructor ()
      ensures Valid()
      ensures buffer == [""] && cursorX == 0 && cursorY == 0
      ensures filename == "" && !isModified && needsRedraw
    {
      buffer := [""];
      cursorX, cursorY := 0, 0;
      filename := "";
      isModified := false;
      needsRedraw := true;
    }

    /** loadFile: the name is always taken; when the file could be read the
        lines read replace the buffer (one empty line if there were none),
        the cursor goes to the start of the file and the editor is
        unmodified. */
    method LoadFile(fname: string, content: Option<string>)
      requires Valid()
      modifies this
      ensures Valid() && filename == fname
      ensures content.None? ==>
        Snapshot() == old(Snapshot()) && isModified == old(isModified) && needsRedraw == old(needsRedraw)
      ensures content.Some? ==> Snapshot() == LoadDoc(content.value) && !isModified && needsRedraw
    {
      filename := fname;
      if content.Some? {
        var lines := ReadLines(content.value);
        if lines == [] {
          lines := [""];
        }
        assert lines == Load(content.value);
        buffer := lines;
        cursorX, cursorY := 0, 0;
        isModified := false;
        needsRedraw := true;
      }
    }

    /** saveFile: without a file name the name typed at the prompt
        (`prompted`) is taken. When the file can be opened every line is
        written followed by "\n", the text written loads back to the same
        buffer, and the editor is unmodified; otherwise nothing else
        changes. */
    method SaveFile(prompted: string, canOpen: bool) returns (written: Option<string>)
      requires Valid()
      modifies this`filename, this`isModified, this`needsRedraw
      ensures Valid()
      ensures filename == if old(filename) == "" then prompted else old(filename)
      ensures written == if canOpen then Some(Serialize(buffer)) else None
      ensures written.Some? ==> Load(written.value) == buffer
      ensures isModified == if canOpen then false else old(isModified)
      ensures needsRedraw == (canOpen || old(needsRedraw))
    {
      if filename == "" {
        filename := prompted;
      }
      written := None;
      if canOpen {
        var text := WriteLines(buffer);
        LoadSerialize(buffer);
        written := Some(text);
        isModified := false;
        needsRedraw := true;
      }
    }

    /** insertChar: Enter splits the line, Backspace deletes backward,
        printable codes are inserted at the cursor and every other code
        leaves the buffer and cursor alone; the editor is marked modified and
        to be redrawn in every case. */
    method InsertChar(ch: int)
      requires Valid()
      modifies this`buffer, this`cursorX, this`cursorY, this`isModified, this`needsRedraw
      ensures Valid()
      ensures Snapshot() == KeyEffect(old(Snapshot()), ch)
      ensures isModified && needsRedraw
    {
      if ch == ENTER {
        SplitAtCursor();
      } else if ch == BACKSPACE {
        DeleteBeforeCursor();
      } else if 32 <= ch <= 126 {
        InsertAtCursor(ch as char);
      }
      isModified := true;
      needsRedraw := true;
    }

    /** The Enter case of insertChar. */
    method SplitAtCursor()
      requires Valid()
      modifies this`buffer, this`cursorX, this`cursorY
      ensures Valid() && Snapshot() == SplitLine(old(Snapshot()))
    {
      var line := buffer[cursorY];
      var rest := line[cursorX..];
      buffer := buffer[..cursorY] + [line[..cursorX]] + [rest] + buffer[cursorY + 1..];
      cursorX := 0;
      cursorY := cursorY + 1;
    }

    /** The Backspace case of insertChar. */
    method DeleteBeforeCursor()
      requires Valid()
      modifies this`buffer, this`cursorX, this`cursorY
      ensures Valid() && Snapshot() == DeleteBackward(old(Snapshot()))
    {
      if cursorX > 0 {
        var line := buffer[cursorY];
        buffer := buffer[cursorY := line[..cursorX - 1] + line[cursorX..]];
        cursorX := cursorX - 1;
      } else if cursorY > 0 {
        cursorX := |buffer[cursorY - 1]|;
        buffer := buffer[..cursorY - 1] + [buffer[cursorY - 1] + buffer[cursorY]] + buffer[cursorY + 1..];
        cursorY := cursorY - 1;
      }
    }

    /** The printable case of insertChar. */
    method InsertAtCursor(ch: char)
      requires Valid() && ch != '\n'
      modifies this`buffer, this`cursorX
      ensures Valid() && Snapshot() == InsertAt(old(Snapshot()), ch)
    {
      var line := buffer[cursorY];
      buffer := buffer[cursorY := line[..cursorX] + [ch] + line[cursorX..]];
      cursorX := cursorX + 1;
    }

    /** The arrow-key switch of the main loop: the cursor moves as the arrow
        says, and the screen is marked for redrawing only when it moved. */
    method MoveCursor(a: Arrow)
      requires Valid()
      modifies this`cursorX, this`cursorY, this`needsRedraw
      ensures Valid() && Snapshot() == Move(old(Snapshot()), a)
      ensures needsRedraw == (Snapshot() != old(Snapshot()) || old(needsRedraw))
    {
      if a == Up {
        if cursorY > 0 {
          cursorY := cursorY - 1;
          cursorX := Min(cursorX, |buffer[cursorY]|);
          needsRedraw := true;
        }
      } else if a == Down {
        if cursorY < |buffer| - 1 {
          cursorY := cursorY + 1;
          cursorX := Min(cursorX, |buffer[cursorY]|);
          needsRedraw := true;
        }
      } else if a == Left {
        if cursorX > 0 {
          cursorX := cursorX - 1;
          needsRedraw := true;
        }
      } else {
        if cursorX < |buffer[cursorY]| {
          cursorX := cursorX + 1;
          needsRedraw := true;
        }
      }
    }

    /** One key handled by the main loop. Ctrl+S saves; Ctrl+Q ends the loop
        when the editor is unmodified or the user confirms; special keys move
        the cursor or are ignored; every other key goes to insertChar. */
    method HandleKey(first: int, second: int, confirmQuit: bool, prompted: string, canOpen: bool)
      returns (quit: bool, written: Option<string>)
      requires Valid()
      modifies this
      ensures Valid()
      ensures quit <==> Classify(first, second).Quit? && (!old(isModified) || confirmQuit)
      ensures written.Some? ==> Classify(first, second).Save? && Load(written.value) == buffer
      ensures match Classify(first, second)
              case MoveCursor(a) =>
                && Snapshot() == Move(old(Snapshot()), a) && isModified == old(isModified)
                && needsRedraw == (Snapshot() != old(Snapshot()) || old(needsRedraw))
              case Insert(ch) =>
                Snapshot() == KeyEffect(old(Snapshot()), ch) && isModified && needsRedraw
              case Save =>
                && Snapshot() == old(Snapshot())
                && isModified == (old(isModified) && !canOpen)
                && needsRedraw == (canOpen || old(needsRedraw))
                && written == (if canOpen then Some(Serialize(buffer)) else None)
              case _ =>
                && Snapshot() == old(Snapshot()) && isModified == old(isModified)
                && needsRedraw == old(needsRedraw)
      ensures Classify(first, second).Save? ==>
        filename == if old(filename) == "" then prompted else old(filename)
      ensures !Classify(first, second).Save? ==> written.None? && filename == old(filename)
    {
      quit, written := false, None;
      match Classify(first, second)
      case MoveCursor(a) =>
        MoveCursor(a);
      case Save =>
        written := SaveFile(prompted, canOpen);
      case Quit =>
        quit := !isModified || confirmQuit;
      case Ignore =>
      case Insert(ch) =>
        InsertChar(ch);
    }
  }
}
