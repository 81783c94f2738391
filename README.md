# A verified model of `simpletexteditor`

`simpletexteditor` is a small ncurses text editor written around one C++
class, `TextEditor` (`textEditor.cpp`). It has four parts. Opening a file
reads it line by line into a `std::vector<std::string>`. A `while (true)`
loop reads one key code at a time and dispatches on it: arrow moves, Enter,
Backspace/Delete, printable characters, Ctrl-S (save), Ctrl-F (find) and ESC
(quit). Search scans the lines from row 0 for a literal query. Saving writes
every line followed by a newline.

The model has five files:

- `text.dfy` holds module `Text`. It has the pure text functions:
  - `Split` is what the `getline` loop of `openFile` extracts from the file.
  - `Join` is what `saveFile` writes.
  - `Find`, `Insert` and `Erase` stand for the `std::string` members the
    editor calls.
  - Lemmas give the round trips between `Split` and `Join`.
- `buffer.dfy` holds module `Buffer`. It has the editor's state as a value
  (`EditorState`: the lines, column `x` and row `y`). `Dispatch` is one pass
  of the `switch` in `run`, `Search` is the `findWord` scan, and `Replay` is
  the loop fed with a sequence of input events.
- `buffer_facts.dfy` holds module `BufferFacts`: what each key does, and the
  invariants the dispatcher keeps.
- `editor.dfy` holds module `Editor` with class `TextEditor`. Its fields
  `lines`, `cursorX`, `cursorY` and `filename` are updated in place.
  `OpenFile`, `SaveFile`, `FindWord`, `Step` and `Run` have the loops and
  branches of the C++ methods, and each is proved to agree with the
  functions above.
- `wrappers.dfy` holds the `Option` type.

How the model follows the code:

- **An empty buffer stays empty.** A missing or empty file adds no line, and
  nothing ever adds a placeholder line: an empty file is not turned into one
  empty line.
- **Keys that index outside the buffer end the run.** On an empty buffer,
  Right, a printable key, Backspace at a column above 0, and Enter all index
  or insert past the end of the vector. That is undefined behaviour in C++.
- **Keys past the end of a line end the run.** A printable key throws
  `std::out_of_range` from `std::string::insert` once the column is past the
  end of its line; Backspace throws it from `std::string::erase` once the
  column is more than one past the end. Nothing catches it.
- Such keys are not ignored. The model gives them the outcome
  `Crash(fault)`: the state stays as it was and `Run` stops.
- **Typing into a new file crashes.** Opening a missing file and then typing
  does not give a one-line buffer holding the typed text. The first key
  already indexes `lines[0]` on an empty vector (`NewFileCannotBeTyped`).
- **Down on an empty buffer still moves.** `lines.size() - 1` is computed in
  `size_t` and wraps around to its maximum, so Down increments the row
  (`LastIndex`, `ArrowsOnEmptyBuffer`).
- **Up and Down keep the column.** A column one past the end of the line
  makes Backspace erase nothing, yet the cursor still moves left
  (`BackspacePastLineEnd`).
- **Enter and Backspace do not split or merge lines.** Enter does not split
  the line at the cursor, and Backspace at column 0 does not merge lines.

I/O becomes parameters:

- The file's contents are passed to `OpenFile` (`None` for a missing file).
- `SaveFile` returns the text it writes.
- The key codes of `getch` and the text read at the Find prompt come in as
  `Event`s.

## Model

| member | source | states |
|---|---|---|
| Text.LineEnd | textEditor.cpp:27 | `getline` stops at the first '\n' in the unread text, or at the end of the text when there is none |
| Text.Split | textEditor.cpp:27-28 | the loaded lines never contain '\n', and a file yields no lines exactly when it is empty |
| Text.JoinAppend | textEditor.cpp:41-42 | saving two runs of lines writes the concatenation of what each would write |
| Text.Join | textEditor.cpp:41-42 | the saved text is empty exactly for an empty buffer and otherwise ends with '\n'; it is at least one character per line |
| Text.SplitJoin | textEditor.cpp:27-42 | saving a buffer without embedded '\n' and loading it back gives the same lines |
| Text.JoinSplit | textEditor.cpp:27-42 | loading a text and saving it reproduces the text, with a '\n' added when it did not end with one |
| Text.FindFrom | textEditor.cpp:119 | `find` returns an occurrence at or after the start with no earlier one, or `npos` when there is none |
| Text.Insert | textEditor.cpp:86 | `insert(pos, 1, c)` puts `c` at index `pos`: characters before it stay, later ones move up by one, and the line grows by one |
| Text.Erase | textEditor.cpp:72 | `erase(pos, 1)` removes the character at `pos` and shifts later ones down; at `pos` equal to the length nothing is removed |
| Text.Find | textEditor.cpp:119 | `line.find(word)` is the first index where `word` occurs, and `npos` exactly when it occurs nowhere |
| Buffer.SearchFrom | textEditor.cpp:118-125 | the scan from row `i` stops at the first row whose `find` succeeds; every row it passes contains no match |
| Buffer.Search | textEditor.cpp:118-125 | a hit is the smallest row containing the query, at the first occurrence in that row; no hit exactly when no row contains it |
| Buffer.LastIndex | textEditor.cpp:56 | `lines.size() - 1` is the subtraction modulo 2^64 of `size_t`, so an empty buffer gives SizeMax |
| Buffer.Found | textEditor.cpp:118-125 | the cursor after Ctrl-F: the lines are kept; when some row contains the query the cursor is on its first occurrence in the first such row, otherwise the cursor is unchanged |
| Buffer.Dispatch | textEditor.cpp:51-90 | every key keeps the cursor non-negative and, on a non-empty buffer, the row on an existing line |
| Buffer.Replay | textEditor.cpp:47-92 | the loop keeps that invariant and processes at most one event per key; it goes on until the events run out unless an ESC or a crash stops it, and then that is the last outcome |
| Buffer.ReplayFollowsDispatch | textEditor.cpp:48-91 | each outcome of a run is the dispatch of its event from the state the earlier events left, and the run ends in the state its last processed event left |
| BufferFacts.PrintableInserts | textEditor.cpp:84-88 | a printable key at a column within the line inserts the character there: the line grows by one, the column advances, the row and all other lines are unchanged |
| BufferFacts.PrintableOutOfRange | textEditor.cpp:85-86 | a printable key on an empty buffer or past the end of the line crashes without changing anything |
| BufferFacts.BackspaceAtLineStart | textEditor.cpp:69-75 | Backspace and Delete at column 0 change neither the buffer nor the cursor |
| BufferFacts.BackspaceDeletes | textEditor.cpp:69-75 | Backspace and Delete inside a line remove exactly the character before the cursor and move left; no line is merged and no other line changes |
| BufferFacts.BackspacePastLineEnd | textEditor.cpp:71-73 | one past the end of the line the erase removes nothing but the column still decreases; further out the erase throws |
| BufferFacts.EnterOpensLine | textEditor.cpp:64-68 | Enter adds one empty line below the cursor row; rows up to the cursor keep their text, later rows move down by one unchanged, and the cursor goes to the new line's start |
| BufferFacts.EditsOnEmptyBuffer | textEditor.cpp:64-73 | on an empty buffer Enter inserts past the end of the vector, and Backspace or Delete at a column above 0 indexes a missing line; both end the run with the state unchanged |
| BufferFacts.ArrowsMoveOnly | textEditor.cpp:52-63 | arrow keys never change the lines; Up/Down move only the row by at most one and stay on a line; Left/Right move only the column, never below 0 and never right of the line's end |
| BufferFacts.ArrowsOnEmptyBuffer | textEditor.cpp:55-63 | on an empty buffer Down still increments the row and Right reads a missing line |
| BufferFacts.CursorStaysInLine | textEditor.cpp:51-90 | a key other than Up or Down that does not crash keeps a cursor that was inside its line inside its line |
| BufferFacts.LineCountNeverShrinks | textEditor.cpp:51-90 | no key removes a line, and an empty buffer stays empty |
| BufferFacts.SaveWritesBuffer | textEditor.cpp:76-78 | Ctrl-S changes nothing and writes a text that loads back as the same lines |
| BufferFacts.FindMovesToFirstMatch | textEditor.cpp:79-81 | Ctrl-F leaves the lines alone and moves the cursor to the search hit, or leaves it where it was |
| BufferFacts.FindIsIdempotent | textEditor.cpp:117-125 | searching again for the same query leaves the cursor where the first search put it |
| BufferFacts.ExitAndIgnoredKeys | textEditor.cpp:82-89 | ESC ends the loop without changing the state, and every other unlisted key code changes nothing |
| BufferFacts.NoNewlinesPreserved | textEditor.cpp:51-90 | no key puts a '\n' into a line |
| BufferFacts.TypeText | textEditor.cpp:84-88 | typing printable characters at a column within the line inserts them all there in order; the line grows and the column advances by their number |
| BufferFacts.NewFileCannotBeTyped | textEditor.cpp:23-37 | opening an empty or missing file gives no lines, and the first printable key then crashes |
| BufferFacts.UpKeepsColumn | textEditor.cpp:52-54 | worked example of the rule in `ArrowsMoveOnly`: Up from row 1 of ["hello", "world"] at column 0, and of ["hi", "world"] at column 5, moves to row 0 and keeps the column, the second time past the end of "hi" |
| BufferFacts.FindFirstOccurrence | textEditor.cpp:118-125 | searching "bc" in "abcabc" lands on row 0, column 1 |
| Editor.TextEditor.constructor | textEditor.cpp:95-97 | a new editor has an empty buffer and the cursor at (0, 0) |
| Editor.TextEditor.OpenFile | textEditor.cpp:23-37 | appends the lines `getline` extracts from the file, none for a missing or empty file; the cursor is unchanged |
| Editor.TextEditor.SaveFile | textEditor.cpp:39-45 | writes each line followed by '\n' |
| Editor.TextEditor.FindWord | textEditor.cpp:117-125 | moves the cursor to the search hit and touches nothing but the cursor |
| Editor.TextEditor.Step | textEditor.cpp:51-90 | one key changes the fields exactly as `Dispatch` says and keeps the invariant |
| Editor.TextEditor.Run | textEditor.cpp:47-92 | the loop leaves the fields and returns the outcomes exactly as `Replay` says |

## Left out

- The ncurses setup and teardown in the constructor and destructor, and the screen size they read. These are terminal calls.
- `display()`. It is output only.
- The Find prompt (`echo`, `mvprintw`, `getstr`, `noecho`). `getstr` into the fixed 256-byte `search_word` can overflow it. The query is a plain argument, so neither the prompt nor the overflow is modelled.
- Opening, closing and creating files. A missing file is created empty on disk; the model only records that it adds no lines.
- Write errors of `saveFile`. `SaveFile` returns the text and does not write it.
- `main`'s argument check and usage message. This is command-line plumbing.
- `getch()`. Key codes come in as `Event`s.
- Undefined behaviour. The model stops with `Crash` and keeps the previous state. The real program may do anything once it indexes or inserts outside the vector.
- Editor.TextEditor.Step: `cursor_x` and `cursor_y` are modelled as unbounded integers. A signed 32-bit overflow could only happen after more than two billion moves, lines, or characters on one line; `cursor_x` is also set from the `size_t` result of `find`, which a line longer than 2^31 characters would make overflow `int`.
- Buffer.Dispatch: the comparison against `lines.size() - 1` treats the wrapped value as SizeMax for any row. It does not model the row's own conversion to `size_t`, because the row is never negative.
- Buffer.Dispatch and Editor.TextEditor.Step: both require the invariant `WellFormed`. The constructor and `OpenFile` establish it, and every step keeps it.
- Editor.TextEditor.OpenFile: it requires that an empty buffer has its row at 0. `main` opens the file right after construction, so this always holds. Calling it on a buffer emptied in other ways is not modelled.
