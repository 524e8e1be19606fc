/** Loading and saving the buffer as text. Loading reads lines the way a
    `std::getline` loop does: every '\n' ends a line, a last line without a
    '\n' still counts, and nothing after the last '\n' adds no line. An input
    that yields no line at all becomes one empty line. Saving writes every
    line followed by '\n'. The streams themselves are not part of this
    model: the text read or to be written is passed in or returned. */
module LineFile {
  import opened LineBuffer

  /** What a file stream yields: nothing when it could not be opened. */
  datatype Option<T> = None | Some(value: T)

  /** Position of the first '\n' in `s`, or |s| if there is none. */
  function LineEnd(s: string): (k: nat)
    ensures k <= |s|
    ensures k < |s| ==> s[k] == '\n'
  {
    if s == [] || s[0] == '\n' then 0 else 1 + LineEnd(s[1..])
  }

  /** No '\n' comes before LineEnd. */
  lemma {:induction false} LineEndFirst(s: string)
    ensures forall j :: 0 <= j < LineEnd(s) ==> s[j] != '\n'
    decreases |s|
  {
    if s != [] && s[0] != '\n' {
      LineEndFirst(s[1..]);
      assert forall j :: 1 <= j < LineEnd(s) ==> s[j] == s[1..][j - 1];
    }
  }

  /** The lines a `std::getline` loop reads from `s`. */
  function GetLines(s: string): (lines: seq<string>)
    ensures |lines| <= |s|
    ensures s != [] ==> lines != []
    decreases |s|
  {
    if s == [] then []
    else if LineEnd(s) < |s| then [s[..LineEnd(s)]] + GetLines(s[LineEnd(s) + 1..])
    else [s]
  }

  /** What saving writes: each line followed by '\n'. */
  function Serialize(lines: seq<string>): (s: string)
    ensures |s| >= |lines|
  {
    if lines == [] then "" else lines[0] + "\n" + Serialize(lines[1..])
  }

  /** The buffer a successful load leaves: the lines read, or one empty line
      when there were none. */
  function Load(s: string): (lines: seq<string>)
    ensures |lines| >= 1 && NoLineBreaks(lines)
    ensures lines == [""] <==> s == [] || s == "\n"
  {
    GetLinesNoBreaks(s);
    var ls := GetLines(s);
    if ls == [] then [""] else ls
  }

  /** The lines read never hold a '\n', there is one at least as soon as
      there is any text, and the only text read as one empty line is "\n". */
  lemma {:induction false} GetLinesNoBreaks(s: string)
    ensures NoLineBreaks(GetLines(s))
    ensures GetLines(s) == [] <==> s == []
    ensures GetLines(s) == [""] <==> s == "\n"
  {
    GetLinesBreakFree(s);
    if s != [] && LineEnd(s) < |s| {
      var k := LineEnd(s);
      GetLinesFirst(s);
      if GetLines(s) == [""] {
        assert |GetLines(s)| == 1 + |GetLines(s[k + 1..])|;
        GetLinesNonEmpty(s[k + 1..]);
        assert GetLines(s)[0] == s[..k];
        assert |s| == k + 1;
        assert s == [s[0]];
      }
    }
  }

  lemma {:induction false} GetLinesBreakFree(s: string)
    ensures NoLineBreaks(GetLines(s))
    decreases |s|
  {
    if s != [] {
      var k := LineEnd(s);
      var head := s[..k];
      LineEndFirst(s);
      assert '\n' !in head by {
        assert forall j :: 0 <= j < k ==> head[j] == s[j];
      }
      if k < |s| {
        GetLinesFirst(s);
        GetLinesBreakFree(s[k + 1..]);
      }
    }
  }

  /** Only the empty text reads as no lines. */
  lemma {:induction false} GetLinesNonEmpty(s: string)
    ensures GetLines(s) == [] <==> s == []
  {
  }

  /** A text with a '\n' reads as its first line followed by the lines of
      what comes after that '\n'. */
  lemma {:induction false} GetLinesFirst(s: string)
    requires LineEnd(s) < |s|
    ensures GetLines(s) == [s[..LineEnd(s)]] + GetLines(s[LineEnd(s) + 1..])
  {
  }

  /** Saving, then loading, gives back the buffer, for every buffer whose
      lines hold no '\n' (which every editor buffer satisfies). */
  lemma {:induction false} GetLinesSerialize(lines: seq<string>)
    requires NoLineBreaks(lines)
    ensures GetLines(Serialize(lines)) == lines
  {
    if lines != [] {
      var s := Serialize(lines);
      var head := lines[0];
      assert s == head + "\n" + Serialize(lines[1..]);
      assert '\n' !in head;
      LineEndAt(s, |head|);
      assert s[..|head|] == head;
      assert s[|head| + 1..] == Serialize(lines[1..]);
      assert NoLineBreaks(lines[1..]) by {
        forall i | 0 <= i < |lines[1..]| ensures '\n' !in lines[1..][i] {
          assert lines[1..][i] == lines[i + 1];
        }
      }
      GetLinesSerialize(lines[1..]);
      assert lines == [head] + lines[1..];
    }
  }

  /** LineEnd is the first '\n': any position with no '\n' before it and a
      '\n' (or the end) at it is LineEnd. */
  lemma LineEndAt(s: string, k: nat)
    requires k <= |s| && (forall j :: 0 <= j < k ==> s[j] != '\n')
    requires k < |s| ==> s[k] == '\n'
    ensures LineEnd(s) == k
    decreases |s|
  {
    if k > 0 {
      assert s[0] != '\n';
      forall j | 0 <= j < k - 1 ensures s[1..][j] != '\n' {
        assert s[1..][j] == s[j + 1];
      }
      LineEndAt(s[1..], k - 1);
    }
  }

  /** The round trip of the editors' files: loading what was saved restores
      any non-empty buffer without '\n' in its lines. */
  lemma LoadSerialize(lines: seq<string>)
    requires |lines| >= 1 && NoLineBreaks(lines)
    ensures Load(Serialize(lines)) == lines
  {
    GetLinesSerialize(lines);
  }

  /** The other direction: saving what was loaded gives back the text,
      except that a '\n' is added after a last line that had none. */
  lemma {:induction false} SerializeLoad(s: string)
    ensures Serialize(Load(s)) == if s == [] then "\n"
                                  else if s[|s| - 1] == '\n' then s
                                  else s + "\n"
  {
    GetLinesNoBreaks(s);
    if s != [] {
      SerializeGetLines(s);
    }
  }

  lemma {:induction false} SerializeGetLines(s: string)
    ensures Serialize(GetLines(s)) == if s == [] || s[|s| - 1] == '\n' then s else s + "\n"
    decreases |s|
  {
    if s != [] {
      var k := LineEnd(s);
      if k < |s| {
        var rest := s[k + 1..];
        SerializeFirstLine(s);
        SerializeGetLines(rest);
        if rest != [] {
          assert rest[|rest| - 1] == s[|s| - 1];
        }
      } else {
        LineEndFirst(s);
        assert s[|s| - 1] != '\n';
        assert GetLines(s) == [s];
        assert Serialize([s]) == s + "\n" + Serialize([]);
      }
    }
  }

  /** Saving the lines of a text with a '\n' in it writes its first line,
      that '\n', and then the lines of the rest. */
  lemma SerializeFirstLine(s: string)
    requires LineEnd(s) < |s|
    ensures s == s[..LineEnd(s)] + "\n" + s[LineEnd(s) + 1..]
    ensures Serialize(GetLines(s)) == s[..LineEnd(s)] + "\n" + Serialize(GetLines(s[LineEnd(s) + 1..]))
  {
    var k := LineEnd(s);
    SplitAt(s, k);
    assert GetLines(s) == [s[..k]] + GetLines(s[k + 1..]);
    SerializeCons(s[..k], GetLines(s[k + 1..]));
  }

  lemma SplitAt(s: string, k: nat)
    requires k < |s| && s[k] == '\n'
    ensures s == s[..k] + "\n" + s[k + 1..]
  {
    assert s == s[..k] + [s[k]] + s[k + 1..];
  }

  lemma SerializeCons(head: string, rest: seq<string>)
    ensures Serialize([head] + rest) == head + "\n" + Serialize(rest)
  {
    assert ([head] + rest)[1..] == rest;
  }

  /** The `std::getline` loop of `loadFile`: each turn of the outer loop
      reads one line, up to the next '\n' or the end of the text. */
  method ReadLines(text: string) returns (lines: seq<string>)
    ensures lines == GetLines(text)
  {
    lines := [];
    var pos := 0;
    while pos < |text|
      invariant 0 <= pos <= |text|
      invariant lines + GetLines(text[pos..]) == GetLines(text)
    {
      var end := FindLineEnd(text, pos);
      GetLinesStep(text, pos, end);
      lines := lines + [text[pos..end]];
      pos := if end < |text| then end + 1 else end;
    }
    assert text[pos..] == [];
  }

  /** The scan of one `std::getline` call: from `pos` to the next '\n' or
      the end of the text. */
  method FindLineEnd(text: string, pos: nat) returns (end: nat)
    requires pos <= |text|
    ensures pos <= end <= |text|
    ensures forall j :: pos <= j < end ==> text[j] != '\n'
    ensures end < |text| ==> text[end] == '\n'
  {
    end := pos;
    while end < |text| && text[end] != '\n'
      invariant pos <= end <= |text|
      invariant forall j :: pos <= j < end ==> text[j] != '\n'
    {
      end := end + 1;
    }
  }

  /** One turn of the reading loop: the line from `pos` up to the next '\n'
      comes first, and reading resumes after that '\n'. */
  lemma GetLinesStep(text: string, pos: nat, end: nat)
    requires pos < |text| && pos <= end <= |text|
    requires forall j :: pos <= j < end ==> text[j] != '\n'
    requires end < |text| ==> text[end] == '\n'
    ensures GetLines(text[pos..]) ==
      [text[pos..end]] + GetLines(text[if end < |text| then end + 1 else end..])
  {
    var rest := text[pos..];
    LineEndAt(rest, end - pos);
    assert rest[..end - pos] == text[pos..end];
    if end < |text| {
      assert rest[end - pos + 1..] == text[end + 1..];
    } else {
      assert text[end..] == [];
      assert rest == text[pos..end];
      assert GetLines(rest) == [rest];
    }
  }

  /** The loop of `saveFile`: writes each line and then "\n". */
  method WriteLines(lines: seq<string>) returns (text: string)
    ensures text == Serialize(lines)
  {
    text := "";
    var i := 0;
    while i < |lines|
      invariant 0 <= i <= |lines|
      invariant text + Serialize(lines[i..]) == Serialize(lines)
    {
      SerializeStep(lines, i);
      text := text + lines[i] + "\n";
      i := i + 1;
    }
    assert lines[i..] == [];
  }

  /** One turn of the writing loop: line i and its "\n" come first in what
      is left to write. */
  lemma SerializeStep(lines: seq<string>, i: nat)
    requires i < |lines|
    ensures Serialize(lines[i..]) == lines[i] + "\n" + Serialize(lines[i + 1..])
  {
    assert lines[i..][1..] == lines[i + 1..];
  }

  /** A successful load as both editors write it: the buffer is replaced
      and the cursor is kept where it was. */
  function LoadKeepingCursor(d: Doc, text: string): (r: Doc)
    ensures r.buffer == Load(text) && r.cursorY == d.cursorY && r.cursorX == d.cursorX
  {
    Doc(Load(text), d.cursorY, d.cursorX)
  }

  /** A cursor on the second line of a two-line buffer is left outside the
      buffer when a one-line file is loaded. */
  lemma KeptCursorLeavesBuffer()
    ensures Valid(Doc(["a", "b"], 1, 1))
    ensures !Valid(LoadKeepingCursor(Doc(["a", "b"], 1, 1), "x\n"))
  {
    assert Load("x\n") == ["x"] by {
      LineEndAt("x\n", 1);
      assert "x\n"[..1] == "x";
      assert "x\n"[2..] == "";
      assert GetLines("x\n") == ["x"] + GetLines("");
    }
  }

  /** A load that keeps the buffer valid: the lines read, with the cursor at
      the start of the file. */
  function LoadDoc(text: string): (r: Doc)
    ensures Valid(r) && r.buffer == Load(text) && r.cursorY == 0 && r.cursorX == 0
  {
    Doc(Load(text), 0, 0)
  }
}
