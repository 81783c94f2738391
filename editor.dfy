/**
 * The `TextEditor` object itself: the line buffer and the cursor as fields
 * that its methods update in place. Each method is proved to do what the
 * matching function of module Buffer or Text says.
 */
module Editor {
  import opened Wrappers
  import opened Text
  import opened Buffer

  class TextEditor {
    var lines: seq<string>
    var cursorX: int
    var cursorY: int
    var filename: string

    /** The buffer and the cursor as a value. */
    function State(): EditorState
      reads this
    {
      EditorState(lines, cursorX, cursorY)
    }

    predicate Valid()
      reads this
    {
      WellFormed(State())
    }

    /** A new editor: no lines, the cursor at the origin, no file name yet. */
    constructor ()
      ensures lines == [] && cursorX == 0 && cursorY == 0 && filename == ""
      ensures Valid()
    {
      lines, cursorX, cursorY, filename := [], 0, 0, "";
    }

    /**
     * `openFile`: `file` is the file's contents, or `None` when it does not
     * exist; every line `getline` extracts is appended to the buffer. A
     * missing or empty file adds nothing.
     */
    method OpenFile(name: string, file: Option<string>)
      requires Valid() && (lines == [] ==> cursorY == 0)
      modifies this`lines, this`filename
      ensures lines == old(lines) + (if file.Some? then Split(file.value) else [])
      ensures cursorX == old(cursorX) && cursorY == old(cursorY) && filename == name
      ensures Valid()
    {
      if file.Some? {
        // Each pass is one successful `getline`: the text up to the next
        // '\n' (or to the end) becomes a line and the '\n' is consumed.
        var rest := file.value;
        while rest != []
          invariant old(lines) + Split(file.value) == lines + Split(rest)
          decreases |rest|
        {
          var line := rest[..LineEnd(rest)];
          var next := AfterLine(rest);
          SplitFirstLine(rest);
          assert lines + Split(rest) == (lines + [line]) + Split(next);
          lines := lines + [line];
          rest := next;
        }
        assert lines + Split(rest) == lines;
      }
      filename := name;
    }

    /** `saveFile`: the text written to `filename`. */
    method SaveFile() returns (text: string)
      ensures text == Join(lines)
    {
      text := "";
      for i := 0 to |lines|
        invariant text == Join(lines[..i])
      {
        JoinAppend(lines[..i], [lines[i]]);
        assert lines[..i + 1] == lines[..i] + [lines[i]];
        text := text + lines[i] + "\n";
      }
      assert lines[..|lines|] == lines;
    }

    /**
     * `findWord` with the query already read from the prompt: the scan from
     * row 0 that stops at the first row containing `word`.
     */
    method FindWord(word: string)
      modifies this`cursorX, this`cursorY
      ensures match Search(lines, word)
        case Some(h) => cursorY == h.row && cursorX == h.col
        case None => cursorX == old(cursorX) && cursorY == old(cursorY)
    {
      var i := 0;
      while i < |lines|
        invariant 0 <= i <= |lines|
        invariant Search(lines, word) == SearchFrom(lines, word, i)
        invariant cursorX == old(cursorX) && cursorY == old(cursorY)
      {
        var pos := Find(lines[i], word);
        if pos.Some? {
          cursorY := i;
          cursorX := pos.value;
          break;
        }
        i := i + 1;
      }
    }

    /**
     * One pass of the `switch` in `run` for the key code `ch`; `query` is
     * what the Ctrl-F prompt would read.
     */
    method Step(ch: int, query: string) returns (outcome: Outcome)
      requires Valid()
      modifies this
      ensures Transition(outcome, State()) == Dispatch(old(State()), ch, query)
      ensures filename == old(filename)
      ensures Valid()
    {
      outcome := Continue;
      if ch == KeyUp {
        if cursorY > 0 { cursorY := cursorY - 1; }
      } else if ch == KeyDown {
        if cursorY < LastIndex(|lines|) { cursorY := cursorY + 1; }
      } else if ch == KeyLeft {
        if cursorX > 0 { cursorX := cursorX - 1; }
      } else if ch == KeyRight {
        if cursorY >= |lines| {
          outcome := Crash(RowOutOfRange);
        } else if cursorX < |lines[cursorY]| {
          cursorX := cursorX + 1;
        }
      } else if ch == Enter {
        if cursorY + 1 > |lines| {
          outcome := Crash(InsertPastEnd);
        } else {
          lines := lines[..cursorY + 1] + [""] + lines[cursorY + 1..];
          cursorY := cursorY + 1;
          cursorX := 0;
        }
      } else if ch == KeyBackspace || ch == Delete {
        if cursorX > 0 {
          if cursorY >= |lines| {
            outcome := Crash(RowOutOfRange);
          } else if cursorX - 1 > |lines[cursorY]| {
            outcome := Crash(PositionOutOfRange);
          } else {
            lines := lines[cursorY := Erase(lines[cursorY], cursorX - 1)];
            cursorX := cursorX - 1;
          }
        }
      } else if ch == CtrlS {
        var text := SaveFile();
        outcome := Wrote(text);
      } else if ch == CtrlF {
        FindWord(query);
      } else if ch == Escape {
        outcome := Exit;
      } else if IsPrintable(ch) {
        if cursorY >= |lines| {
          outcome := Crash(RowOutOfRange);
        } else if cursorX > |lines[cursorY]| {
          outcome := Crash(PositionOutOfRange);
        } else {
          lines := lines[cursorY := Insert(lines[cursorY], cursorX, ch as char)];
          cursorX := cursorX + 1;
        }
      }
    }

    /**
     * `run`: the keystroke loop fed with `events` in place of `getch` and the
     * prompt; it returns after ESC or a crash, or when the events run out.
     */
    method Run(events: seq<Event>) returns (outcomes: seq<Outcome>)
      requires Valid()
      modifies this
      ensures Trace(outcomes, State()) == Replay(old(State()), events)
      ensures filename == old(filename)
      ensures Valid()
    {
      outcomes := [];
      var i := 0;
      while i < |events|
        invariant 0 <= i <= |events|
        invariant Valid() && filename == old(filename)
        invariant Replay(old(State()), events) == Prefixed(outcomes, Replay(State(), events[i..]))
      {
        ghost var before := State();
        var outcome := Step(events[i].key, events[i].typed);
        assert events[i..][1..] == events[i + 1..];
        ReplayFirstStep(before, events[i..], outcome, State());
        if outcome.Stops() {
          outcomes := outcomes + [outcome];
          return;
        }
        PrefixedTwice(outcomes, [outcome], Replay(State(), events[i + 1..]));
        outcomes := outcomes + [outcome];
        i := i + 1;
      }
    }
  }
}
