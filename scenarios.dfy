/** Worked examples of the edits and of the scrolling rule, on concrete
    buffers. */
module Scenarios {
  import opened LineBuffer
  import opened Viewport

  /** Enter at the end of "abc" adds an empty line and moves to it. */
  lemma EnterAtEndOfLine()
    ensures SplitLine(Doc(["abc"], 0, 3)) == Doc(["abc", ""], 1, 0)
  {
    assert "abc"[..3] == "abc" && "abc"[3..] == "";
  }

  /** Backspace at the start of "cd" joins it onto "ab". */
  lemma BackspaceJoinsLines()
    ensures DeleteBackward(Doc(["ab", "cd"], 1, 0)) == Doc(["abcd"], 0, 2)
  {
    assert "ab" + "cd" == "abcd";
  }

  /** Typing 'x' between 'a' and 'b'. */
  lemma TypeInsideLine()
    ensures InsertAt(Doc(["ab"], 0, 1), 'x') == Doc(["axb"], 0, 2)
  {
    assert "ab"[..1] + ['x'] + "ab"[1..] == "axb";
  }

  /** With 20-pixel lines in a 100-pixel view, a cursor on line 13 of a
      buffer of at least 14 lines scrolls the view from the top by exactly
      200 pixels: the cursor then sits at 60, the last row of its band,
      and the maximum (at least 220) does not cut the offset short. */
  lemma ScrollDownToCursor(lines: seq<string>)
    requires |lines| >= 14
    ensures var layout := Layout(8, 20, 400, 100, 0, false);
            var p := CharPosition(13, 0, 0, 0, layout);
            var sy := Clamp(FollowY(0, p.y, layout), MaxScrollY(lines, layout));
            && sy == 200
            && CharPosition(13, 0, 0, sy, layout).y == layout.clientHeight - 2 * layout.charHeight
  {
  }
}
