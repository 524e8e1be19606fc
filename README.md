# Hood-ReDone line-buffer core in Dafny

Hood-ReDone is a small Windows text editor with two front ends: a GDI window
(`TextEditor.cpp`) and a console program (`hoodrd.cpp`). Each front end has its
own `TextEditor` class, and the two classes keep the same state: the buffer
(a vector of lines that never becomes empty), a cursor `(cursorX, cursorY)`
and an `isModified` flag. The window editor also keeps scroll offsets and
their maxima, in pixels. The console editor also keeps a `needsRedraw` flag.
This project models that state and every operation that changes it, and
proves the invariants and the before/after shape of each edit.

- `line_buffer.dfy` (module `LineBuffer`) holds the shared meaning of the
  edits. `Doc` is a snapshot of buffer and cursor. `Valid` is the invariant:
  at least one line, `cursorY < |buffer|`, `cursorX <= |buffer[cursorY]|`,
  and no `'\n'` inside a line. `InsertAt`, `SplitLine`, `DeleteBackward` and
  `Move` state exactly what each edit and arrow key does. Lemmas show that
  Backspace undoes Enter and typing, that Left undoes a Right that moved,
  and that Down undoes an Up onto a line long enough to keep the column.
- `line_file.dfy` (module `LineFile`) covers load and save. It splits text
  the way a `std::getline` loop does and joins lines with a `'\n'` after
  each one. It holds the two loops as methods and proves the round trip in
  both directions.
- `viewport.dfy` (module `Viewport`) holds the window editor's scroll
  arithmetic: character positions, the longest line, the two maxima, the
  clamp, and the rule that moves the view toward the cursor.
- `gui_editor.dfy` (module `GuiEditor`) is the window editor's class. Its
  fields are updated in place, and each method's postcondition gives the new
  value of every field it may change, in terms of the functions above.
- `console_editor.dfy` (module `ConsoleEditor`) is the console editor's
  class, plus the key dispatch of its main loop. It also models how a key
  code becomes a signed `char`.
- `scenarios.dfy` (module `Scenarios`) holds worked examples on concrete
  buffers.

Some things are inputs instead of globals or OS calls:

- Font metrics, client size, line-number width and the show-line-numbers
  setting are one `Layout` value.
- The tab size is an integer parameter.
- Reading a file gives `Option<string>`: `None` when the file could not be
  opened.
- Writing a file takes `canOpen` and returns the text written.
- In the console, the file name typed at the save prompt and the answer to
  the quit question are parameters.

Positions and scroll values are mathematical integers. The C++ computes them
in `size_t` and converts them to `int`/`LONG`. Both agree whenever the true
value fits in an `int`, and the model assumes it does. Each class's `char`
handling follows its source: the window editor gets `WPARAM` codes, and the
console editor gets `_getch` codes read as MSVC's signed `char`.

Three behaviours of the code worth knowing:

- Loading the text `"\n"` gives one empty line, just as loading empty text
  does.
- The window editor's Backspace at (0, 0) does not set `isModified`.
- The console editor's `insertChar` sets `isModified` for every code, even
  one that changes nothing.

## Model

| member | source | states |
|---|---|---|
| `LineBuffer.InsertAt` | TextEditor.cpp:168-171 | inserting a character that is not a line break: the line gains exactly that character at the cursor, the part before and after the cursor is kept, the cursor moves one right, all other lines and the line count stay, and the invariant holds |
| `LineBuffer.SplitLine` | TextEditor.cpp:162-167 | Enter at (y, x): new line y is the old line's first x characters, new line y+1 the rest, so the two concatenate to the old line; lines before y and after it shift unchanged; one more line; cursor becomes (y+1, 0); invariant kept |
| `LineBuffer.DeleteBackward` | TextEditor.cpp:143-154 | Backspace: with cursorX > 0 the character at cursorX-1 is removed and the cursor moves left; at column 0 below the first line the line is appended to the previous one and removed, cursor at the previous line's old length; the state is unchanged exactly when the cursor is at (0, 0); invariant (so non-emptiness) kept |
| `LineBuffer.Move` | TextEditor.cpp:117-134 | arrows never change the buffer and keep the cursor invariant; Left/Right step within [0, line length]; Up/Down move only when a neighbouring line exists and then set the column to min(column, new line length) |
| `LineBuffer.InsertRepeated` | TextEditor.cpp:139-141 | n insertions of the same character in a row keep the invariant; InsertRepeatedShape gives their exact result |
| `LineBuffer.InsertRepeatedShape` | TextEditor.cpp:138-141 | inserting a character n times in a row puts exactly n copies of it at the cursor, advances cursorX by n and changes no other line |
| `LineBuffer.BackspaceUndoesSplit` | TextEditor.cpp:143-167 | Backspace right after Enter restores buffer and cursor exactly |
| `LineBuffer.BackspaceUndoesInsert` | TextEditor.cpp:143-171 | Backspace right after typing a character restores buffer and cursor exactly |
| `LineBuffer.LeftUndoesRight` | TextEditor.cpp:117-122 | Right then Left returns to the same position when Right could move |
| `LineBuffer.DownUndoesUp` | TextEditor.cpp:123-134 | Up then Down returns to the same position when the line above is long enough to keep the column |
| `LineFile.Load` | TextEditor.cpp:78-83 | the buffer after a successful load is never empty and has no line break inside a line; it is a single empty line exactly when the text was empty or a lone '\n' |
| `LineFile.GetLinesNoBreaks` | TextEditor.cpp:80-82 | the getline loop yields lines without '\n', no lines exactly for empty text, and a single empty line exactly for "\n" |
| `LineFile.ReadLines` | TextEditor.cpp:79-82 | the reading loop returns the lines that getline splitting defines |
| `LineFile.GetLines` | TextEditor.cpp:80-82 | the lines a getline loop reads: never more lines than characters, and at least one line for any non-empty text |
| `LineFile.FindLineEnd` | TextEditor.cpp:80 | the scan of one getline call stops at the first '\n' after pos, or at the end of the text |
| `LineFile.Serialize` | TextEditor.cpp:98-100 | what saving writes, each line followed by "\n": at least one character per line; GetLinesSerialize and SerializeLoad relate it to GetLines |
| `LineFile.WriteLines` | TextEditor.cpp:98-100 | the writing loop produces every line followed by "\n", in order |
| `LineFile.GetLinesSerialize` | hoodrd.cpp:71-73 | reading back what was written gives the same lines, for lines without '\n' |
| `LineFile.LoadSerialize` | TextEditor.cpp:78-100 | load(save(L)) = L for every non-empty L whose lines hold no '\n' |
| `LineFile.SerializeLoad` | hoodrd.cpp:69-90 | save(load(s)) = s when s ends with '\n', s + "\n" when its last line had none, and "\n" for empty s |
| `LineFile.SerializeGetLines` | hoodrd.cpp:71-89 | writing the lines getline reads from s gives s back, plus a final '\n' if s lacked one |
| `LineFile.LoadKeepingCursor` | TextEditor.cpp:74-89 | the load as written: buffer replaced by the lines read, cursor left where it was |
| `LineFile.KeptCursorLeavesBuffer` | hoodrd.cpp:65-79 | from the valid state ["a","b"] with cursor (1,1), loading "x\n" as written leaves the cursor outside the buffer |
| `LineFile.LoadDoc` | TextEditor.cpp:78-85 | the corrected load: the lines read with the cursor at (0, 0) always satisfy the invariant |
| `Viewport.MaxLineLength` | TextEditor.cpp:283-286 | the scan's result bounds every line's length and equals the length of some line (0 for no lines) |
| `Viewport.MaxScrollX` | TextEditor.cpp:288-292 | maxScrollX is never negative, is at least longest*charWidth - clientWidth + xOffset + 20, and when positive it scrolls the longest line's end exactly to clientWidth - xOffset - 20 |
| `Viewport.MaxScrollY` | TextEditor.cpp:290-293 | maxScrollY is never negative, is at least lines*charHeight - clientHeight + charHeight + 20, and when positive it puts the bottom of the last line plus one line exactly at clientHeight - 20 |
| `Viewport.Clamp` | TextEditor.cpp:330-331 | max(0, min(v, hi)) is never negative, at most hi when hi >= 0, v itself when v is in range, 0 below and hi above |
| `Viewport.CharPosition` | TextEditor.cpp:271-277 | a cell's on-screen position plus the scroll offset is its place in the document grid, col*charWidth by line*charHeight |
| `Viewport.CharPositionGrid` | TextEditor.cpp:273-276 | neighbouring cells are exactly charWidth or charHeight apart, and scrolling by (dx, dy) moves every cell by (-dx, -dy) |
| `Viewport.Follow` | TextEditor.cpp:316-328 | before clamping: a cursor before the band lowers the offset by exactly its distance to the band; a cursor at or past the far edge (charWidth from the right, 2*charHeight from the bottom) raises it by exactly its overflow; otherwise the offset stays |
| `Viewport.CursorInBandAfterFollow` | TextEditor.cpp:271-277 | after following, the cursor's getCharPosition lies inside [xOffset, clientWidth-charWidth] by [0, clientHeight-2*charHeight] whenever those bands are not empty |
| `Viewport.StaleMaximumOvershoot` | TextEditor.cpp:330-333 | clamping against the maxima of the previous updateScrollInfo can leave scrollX above the maximum recomputed right after (line "abcde" to "abcd", 30-pixel characters) |
| `GuiEditor.KeyDown` | TextEditor.cpp:114-156 | every key handled by handleKeyDown keeps the buffer non-empty and the cursor in range |
| `GuiEditor.KeyDownModifies` | TextEditor.cpp:143-172 | the keys for which handleKeyDown sets isModified (Return, Tab with tabSize > 0, Backspace with something to delete) are exactly the keys that change the text |
| `GuiEditor.TabInsertsSpaces` | TextEditor.cpp:138-141 | Tab inserts exactly tabSize spaces at the cursor (none when tabSize <= 0) and advances cursorX by that many |
| `GuiEditor.TextEditor.constructor` | TextEditor.cpp:7-10 | a new editor holds [""], cursor (0,0), unmodified, offsets and maxima 0 |
| `GuiEditor.TextEditor.UpdateScrollInfo` | TextEditor.cpp:279-293 | the loop finds the longest line and the method sets maxScrollX/maxScrollY to their non-negative definitions, changing nothing else |
| `GuiEditor.TextEditor.LoadFile` | TextEditor.cpp:74-89 | name always taken; unreadable file changes nothing else; otherwise buffer = the lines read ([""] if none), cursor (0,0), unmodified, maxima recomputed |
| `GuiEditor.TextEditor.SaveFile` | TextEditor.cpp:91-104 | no name or unopenable file: nothing written, flag kept; otherwise writes each line plus "\n", the text reloads to the buffer, and isModified is cleared |
| `GuiEditor.TextEditor.InsertChar` | TextEditor.cpp:161-173 | '\n' splits the line, any other character is inserted at the cursor; isModified becomes true; scroll state untouched |
| `GuiEditor.TextEditor.FollowCursor` | TextEditor.cpp:313-328 | the two if-chains move scrollX/scrollY by the Follow rule for the cursor's current position |
| `GuiEditor.TextEditor.EnsureCursorVisibleAsWritten` | TextEditor.cpp:311-334 | as written: offsets follow the cursor and are clamped into [0, old maxima], then the maxima are recomputed for the current buffer |
| `GuiEditor.TextEditor.EnsureCursorVisible` | TextEditor.cpp:311-334 | corrected order: maxima recomputed first, so 0 <= scrollX <= maxScrollX and 0 <= scrollY <= maxScrollY afterwards |
| `GuiEditor.TextEditor.HandleChar` | TextEditor.cpp:106-112 | codes 32..126 are inserted at the cursor and set isModified; the maxima are recomputed for the new buffer and each offset becomes the clamp of the Follow rule for the new cursor position, so it lies in [0, max]; any other code leaves the whole state unchanged |
| `GuiEditor.TextEditor.HandleKeyDown` | TextEditor.cpp:114-159 | buffer and cursor become KeyDown of the old ones; isModified is set by Return, by Tab with tabSize > 0 and by a Backspace that deletes, and otherwise kept; offsets end in [0, max] |
| `GuiEditor.TextEditor.MoveCursor` | TextEditor.cpp:117-134 | the arrow cases move the cursor as Move says and touch nothing else |
| `GuiEditor.TextEditor.InsertTab` | TextEditor.cpp:138-141 | the loop of tabSize insertChar(' ') calls gives InsertRepeated of the old state; isModified set only if tabSize > 0; name, offsets and maxima unchanged |
| `GuiEditor.TextEditor.Backspace` | TextEditor.cpp:143-155 | buffer and cursor become DeleteBackward of the old ones; isModified set only when something was deleted |
| `ConsoleEditor.SignedChar` | hoodrd.cpp:168 | the int key code passed to insertChar(char) becomes a value in [-128, 128) congruent to it modulo 256, equal to it below 128 |
| `ConsoleEditor.Classify` | hoodrd.cpp:129-169 | prefix 0/224 reads a second code: 72/80/75/77 are Up/Down/Left/Right, anything else is ignored; 19 saves; 17 quits; every other code goes to insertChar as a signed char |
| `ConsoleEditor.KeyEffect` | hoodrd.cpp:97-117 | insertChar keeps the invariant and leaves buffer and cursor unchanged for any code other than 13, 8 and 32..126 |
| `ConsoleEditor.ControlKeysNeverInsert` | hoodrd.cpp:161-169 | a key reaches insertChar exactly when it is neither a special-key prefix nor Ctrl+S nor Ctrl+Q |
| `ConsoleEditor.InsertedExactlyWhenPrintable` | hoodrd.cpp:114-117 | for keyboard codes 0..255 other than 8 and 13, insertChar changes buffer or cursor exactly when the code is printable |
| `ConsoleEditor.TextEditor.constructor` | hoodrd.cpp:57-63 | a new editor holds [""], cursor (0,0), unmodified, redraw pending |
| `ConsoleEditor.TextEditor.LoadFile` | hoodrd.cpp:65-79 | name always taken; unreadable file changes nothing else; otherwise buffer = the lines read ([""] if none), cursor (0,0), unmodified, redraw pending |
| `ConsoleEditor.TextEditor.SaveFile` | hoodrd.cpp:81-95 | an empty name is replaced by the prompted one; when the file opens, each line plus "\n" is written, the text reloads to the buffer, isModified is cleared and a redraw requested |
| `ConsoleEditor.TextEditor.InsertChar` | hoodrd.cpp:97-120 | Enter (13) splits, Backspace (8) deletes backward, 32..126 insert, anything else keeps buffer and cursor; isModified and needsRedraw become true in every case |
| `ConsoleEditor.TextEditor.SplitAtCursor` | hoodrd.cpp:99-103 | the Enter branch turns buffer and cursor into SplitLine of the old ones |
| `ConsoleEditor.TextEditor.DeleteBeforeCursor` | hoodrd.cpp:105-113 | the Backspace branch turns buffer and cursor into DeleteBackward of the old ones |
| `ConsoleEditor.TextEditor.InsertAtCursor` | hoodrd.cpp:115-116 | the printable branch turns buffer and cursor into InsertAt of the old ones |
| `ConsoleEditor.TextEditor.MoveCursor` | hoodrd.cpp:133-160 | the arrow switch moves the cursor as Move says and requests a redraw exactly when the cursor moved |
| `ConsoleEditor.TextEditor.HandleKey` | hoodrd.cpp:129-170 | one key of the main loop: quit exactly on Ctrl+Q when unmodified or confirmed; Ctrl+S takes the prompted name when there is none and writes each line plus "\n" exactly when the file opens (the text reloads to the buffer); no other key writes or renames; arrows move the cursor and request a redraw when it moved, other keys go to insertChar and always request one, and Ctrl+S/Ctrl+Q/unknown specials leave buffer and cursor alone, Ctrl+Q and unknown specials also the redraw flag |
| `Scenarios.EnterAtEndOfLine` | TextEditor.cpp:162-167 | ["abc"] at (0,3), Enter gives ["abc",""] at (1,0) |
| `Scenarios.BackspaceJoinsLines` | TextEditor.cpp:148-153 | ["ab","cd"] at (1,0), Backspace gives ["abcd"] at (0,2) |
| `Scenarios.TypeInsideLine` | TextEditor.cpp:168-171 | typing 'x' in ["ab"] at (0,1) gives ["axb"] at (0,2) |
| `Scenarios.ScrollDownToCursor` | TextEditor.cpp:324-331 | with 20-pixel lines in a 100-pixel view and at least 14 lines, a cursor on line 13 moves scrollY from 0 to exactly 200 after the clamp, putting the cursor on the last row of its band |

## Left out

- Rendering and OS resources are not modelled: `render`, `drawText`, `drawLineNumbers`, `drawStatusBar`, `createFont`, `createBuffers`/`destroyBuffers`, `SetScrollInfo` and `InvalidateRect`. They are graphics calls with no logic to check. `UpdateScrollInfo` computes the maxima only.
- `lineNumberWidth` is an input in `Layout`. The source computes it in `createFont` with floating-point `log10`.
- `resize` and `applySettings` are not modelled. They only store the client size or rebuild the font and then call `updateScrollInfo`. Here the client size is a parameter.
- Offsets left past the maxima are not re-clamped. A later `updateScrollInfo` from `resize` or `loadFile` can leave them there, and the next key clamps them.
- `queryClose` and the Ctrl+Q message box are not modelled. They are UI; the answer is the `confirmQuit` parameter.
- File streams are not modelled. The text read and whether the file opened are parameters. Windows text-mode `\r\n` translation and read errors after opening are left out. So is the GUI's unimplemented file dialog for an empty name, which the model treats as a no-op save, as the code does.
- The console `std::cin >> filename` prompt is a parameter, taken as the whole name typed.
- The console screen and the loop are not modelled: `clearScreen`, `refreshScreen`, `displayStatusBar`, `moveCursor`, ANSI output, the 16 ms sleep and `_kbhit` polling. `HandleKey` models one turn of `run` after a key is read, not the `while (true)` loop.
- `Settings`, `SettingsDialog`, `EditorWindow` and `main` are not part of this model. Their values reach the core as parameters.
- Integer widths are not modelled. Unsigned and `LONG` wrap-around in `getCharPosition`, `updateScrollInfo` and `ensureCursorVisible` are assumed not to happen.
- `GuiEditor.TextEditor.HandleChar` and `GuiEditor.TextEditor.HandleKeyDown` call the corrected `EnsureCursorVisible` (see Findings), not the as-written one. Their scroll postconditions are therefore stronger than what the source guarantees.
- `GuiEditor.TextEditor.LoadFile` and `ConsoleEditor.TextEditor.LoadFile` reset the cursor to (0, 0), which the source does not (see Findings).

## Findings

| source | as written | input that shows it | evidently intended | confidence | as-written member | corrected member |
|---|---|---|---|---|---|---|
| TextEditor.cpp:330-333 | `ensureCursorVisible` clamps scrollX/scrollY against maxScrollX/maxScrollY from the previous `updateScrollInfo`. It recomputes them only afterwards, so an edit that shrinks the content can leave an offset above its new maximum. | charWidth 30, clientWidth 100, no line numbers, line "abcde", scrollX 40, cursor at column 5, Backspace: scrollX becomes 50, but the new maxScrollX is 40 | recompute the maxima, then clamp, so that 0 <= scroll <= max holds after every key | medium, not executed | `GuiEditor.TextEditor.EnsureCursorVisibleAsWritten`, `Viewport.StaleMaximumOvershoot` | `GuiEditor.TextEditor.EnsureCursorVisible` |
| TextEditor.cpp:78-85 | `loadFile` replaces the buffer but keeps `cursorX`/`cursorY`, so the cursor can point past the new buffer. The next `buffer[cursorY]` is then out of range. `hoodrd.cpp:69-76` does the same. No caller in this repository loads into an edited editor. | buffer ["a","b"], cursor (1,1), load the text "x\n": buffer ["x"], cursor still (1,1) | put the cursor at the start of the loaded file | medium, not executed | `LineFile.LoadKeepingCursor`, `LineFile.KeptCursorLeavesBuffer` | `LineFile.LoadDoc`, `GuiEditor.TextEditor.LoadFile`, `ConsoleEditor.TextEditor.LoadFile` |
