/** What each key of the dispatcher promises, and what a run of keys adds up to. */
module BufferFacts {
  import opened Wrappers
  import opened Text
  import opened Buffer

  predicate IsArrow(ch: int) {
    ch == KeyUp || ch == KeyDown || ch == KeyLeft || ch == KeyRight
  }

  /** The cursor is on a line and at most one past its last character. */
  predicate CursorInLine(s: EditorState) {
    0 <= s.y < |s.lines| && 0 <= s.x <= |s.lines[s.y]|
  }

  /** A printable key inserts its character at the cursor and moves right. */
  lemma PrintableInserts(s: EditorState, ch: int, query: string)
    requires WellFormed(s) && IsPrintable(ch)
    requires CursorInLine(s)
    ensures var t := Dispatch(s, ch, query);
      var line := s.lines[s.y];
      t.outcome == Continue &&
      |t.next.lines| == |s.lines| &&
      t.next.lines[s.y] == line[..s.x] + [ch as char] + line[s.x..] &&
      |t.next.lines[s.y]| == |line| + 1 &&
      (forall i :: 0 <= i < |s.lines| && i != s.y ==> t.next.lines[i] == s.lines[i]) &&
      t.next.x == s.x + 1 && t.next.y == s.y
  {
  }

  /** A printable key past the end of the line or on an empty buffer crashes. */
  lemma PrintableOutOfRange(s: EditorState, ch: int, query: string)
    requires WellFormed(s) && IsPrintable(ch)
    requires !CursorInLine(s)
    ensures var t := Dispatch(s, ch, query);
      t.next == s &&
      t.outcome == Crash(if |s.lines| == 0 then RowOutOfRange else PositionOutOfRange)
  {
  }

  /** Backspace and Delete at column 0 change nothing: lines are never merged. */
  lemma BackspaceAtLineStart(s: EditorState, ch: int, query: string)
    requires WellFormed(s) && (ch == KeyBackspace || ch == Delete)
    requires s.x == 0
    ensures Dispatch(s, ch, query) == Transition(Continue, s)
  {
  }

  /**
   * Backspace and Delete inside the line remove exactly the character before
   * the cursor and move left; no other line and not the line count change.
   */
  lemma BackspaceDeletes(s: EditorState, ch: int, query: string)
    requires WellFormed(s) && (ch == KeyBackspace || ch == Delete)
    requires CursorInLine(s) && s.x > 0
    ensures var t := Dispatch(s, ch, query);
      var line := s.lines[s.y];
      t.outcome == Continue &&
      |t.next.lines| == |s.lines| &&
      t.next.lines[s.y] == line[..s.x - 1] + line[s.x..] &&
      |t.next.lines[s.y]| == |line| - 1 &&
      (forall i :: 0 <= i < |s.lines| && i != s.y ==> t.next.lines[i] == s.lines[i]) &&
      t.next.x == s.x - 1 && t.next.y == s.y
  {
  }

  /**
   * A column exactly one past the end (left by a vertical move) erases
   * nothing but still moves the cursor left; further out the erase throws.
   */
  lemma BackspacePastLineEnd(s: EditorState, ch: int, query: string)
    requires WellFormed(s) && (ch == KeyBackspace || ch == Delete)
    requires s.y < |s.lines| && s.x > |s.lines[s.y]|
    ensures var t := Dispatch(s, ch, query);
      if s.x == |s.lines[s.y]| + 1 then t == Transition(Continue, s.(x := s.x - 1))
      else t == Transition(Crash(PositionOutOfRange), s)
  {
  }

  /**
   * Enter inserts an empty line below the cursor row and moves to its start;
   * the cursor row keeps all its text and later rows move down by one.
   */
  lemma EnterOpensLine(s: EditorState, query: string)
    requires WellFormed(s) && |s.lines| > 0
    ensures var t := Dispatch(s, Enter, query);
      t.outcome == Continue &&
      |t.next.lines| == |s.lines| + 1 &&
      t.next.lines[s.y + 1] == "" &&
      (forall i :: 0 <= i <= s.y ==> t.next.lines[i] == s.lines[i]) &&
      (forall i :: s.y < i < |s.lines| ==> t.next.lines[i + 1] == s.lines[i]) &&
      t.next.x == 0 && t.next.y == s.y + 1
  {
  }

  /** On an empty buffer Enter inserts past the end of the vector. */
  lemma EditsOnEmptyBuffer(s: EditorState, query: string)
    requires WellFormed(s) && |s.lines| == 0
    ensures Dispatch(s, Enter, query) == Transition(Crash(InsertPastEnd), s)
    ensures s.x > 0 ==> Dispatch(s, KeyBackspace, query) == Transition(Crash(RowOutOfRange), s)
    ensures s.x > 0 ==> Dispatch(s, Delete, query) == Transition(Crash(RowOutOfRange), s)
  {
  }

  /**
   * Arrow keys never touch the lines. Up and Down change only the row, by at
   * most one, and on a non-empty buffer stay on a line; Left and Right change
   * only the column, never below 0, and Right never beyond the line's end.
   */
  lemma ArrowsMoveOnly(s: EditorState, ch: int, query: string)
    requires WellFormed(s) && IsArrow(ch)
    ensures var t := Dispatch(s, ch, query);
      t.next.lines == s.lines &&
      (ch == KeyUp ==>
        (t.outcome == Continue && t.next.x == s.x &&
         t.next.y == (if s.y > 0 then s.y - 1 else s.y))) &&
      (ch == KeyDown && |s.lines| > 0 ==>
        (t.outcome == Continue && t.next.x == s.x &&
         t.next.y == (if s.y + 1 < |s.lines| then s.y + 1 else s.y))) &&
      (ch == KeyLeft ==>
        (t.outcome == Continue && t.next.y == s.y &&
         t.next.x == (if s.x > 0 then s.x - 1 else s.x))) &&
      (ch == KeyRight && |s.lines| > 0 ==>
        (t.outcome == Continue && t.next.y == s.y &&
         t.next.x == (if s.x < |s.lines[s.y]| then s.x + 1 else s.x)))
  {
  }

  /**
   * On an empty buffer Down still moves the row (the row limit wrapped
   * around), and Right reads a line that does not exist.
   */
  lemma ArrowsOnEmptyBuffer(s: EditorState, query: string)
    requires WellFormed(s) && |s.lines| == 0 && s.y < SizeMax
    ensures Dispatch(s, KeyDown, query) == Transition(Continue, s.(y := s.y + 1))
    ensures Dispatch(s, KeyRight, query) == Transition(Crash(RowOutOfRange), s)
  {
  }

  /**
   * After any key other than Up and Down that does not crash, a cursor that
   * was within its line still is.
   */
  lemma CursorStaysInLine(s: EditorState, ch: int, query: string)
    requires WellFormed(s) && CursorInLine(s)
    requires ch != KeyUp && ch != KeyDown
    ensures var t := Dispatch(s, ch, query);
      !t.outcome.Crash? ==> CursorInLine(t.next)
  {
    if ch == CtrlF {
      match Search(s.lines, query)
      case Some(h) =>
        assert OccursAt(s.lines[h.row], query, h.col);
      case None =>
    }
  }

  /** Nothing empties a buffer or fills an empty one. */
  lemma LineCountNeverShrinks(s: EditorState, ch: int, query: string)
    requires WellFormed(s)
    ensures var t := Dispatch(s, ch, query);
      |t.next.lines| >= |s.lines| && (|s.lines| == 0 ==> t.next.lines == [])
  {
  }

  /** Ctrl-S writes the buffer, one '\n'-terminated line each, and changes nothing. */
  lemma SaveWritesBuffer(s: EditorState, query: string)
    requires WellFormed(s) && NoNewlines(s.lines)
    ensures var t := Dispatch(s, CtrlS, query);
      t.next == s && t.outcome.Wrote? && Split(t.outcome.text) == s.lines
  {
    SplitJoin(s.lines);
  }

  /**
   * Ctrl-F never touches the lines, puts the cursor on the first occurrence
   * of the query in the first row containing it, or leaves the cursor alone.
   */
  lemma FindMovesToFirstMatch(s: EditorState, query: string)
    requires WellFormed(s)
    ensures var t := Dispatch(s, CtrlF, query);
      t.outcome == Continue && t.next.lines == s.lines &&
      match Search(s.lines, query)
      case Some(h) => t.next.y == h.row && t.next.x == h.col
      case None => t.next.x == s.x && t.next.y == s.y
  {
  }

  /** Searching a second time for the same query leaves the cursor where the first put it. */
  lemma FindIsIdempotent(s: EditorState, query: string)
    requires WellFormed(s)
    ensures var once := Dispatch(s, CtrlF, query).next;
      Dispatch(once, CtrlF, query).next == once
  {
  }

  /** ESC leaves the loop, and every key code the switch does not know is ignored. */
  lemma ExitAndIgnoredKeys(s: EditorState, ch: int, query: string)
    requires WellFormed(s)
    requires !IsArrow(ch) && !IsPrintable(ch)
    requires ch != Enter && ch != KeyBackspace && ch != Delete && ch != CtrlS && ch != CtrlF
    ensures Dispatch(s, ch, query) == Transition(if ch == Escape then Exit else Continue, s)
  {
  }

  /** No key puts a '\n' into a line, so what is saved always loads back unchanged. */
  lemma NoNewlinesPreserved(s: EditorState, ch: int, query: string)
    requires WellFormed(s) && NoNewlines(s.lines)
    ensures NoNewlines(Dispatch(s, ch, query).next.lines)
  {
    var t := Dispatch(s, ch, query);
    if !t.outcome.Crash? && s.y < |s.lines| && t.next.lines != s.lines {
      var line := s.lines[s.y];
      if ch == Enter {
        var n := t.next.lines;
        forall i | 0 <= i < |n| ensures '\n' !in n[i] {
          if i > s.y + 1 {
            assert n[i] == s.lines[i - 1];
          }
        }
      } else if IsPrintable(ch) {
        assert t.next.lines[s.y] == line[..s.x] + [ch as char] + line[s.x..];
        assert '\n' !in line[..s.x] && '\n' !in line[s.x..] by {
          forall c | c in line[..s.x] + line[s.x..] ensures c in line {
            assert line[..s.x] + line[s.x..] == line;
          }
        }
      } else {
        forall c | c in line[..s.x - 1] + line[s.x..] ensures c in line {
          var i :| 0 <= i < |line[..s.x - 1] + line[s.x..]| && (line[..s.x - 1] + line[s.x..])[i] == c;
          if i < s.x - 1 {
            assert line[i] == c;
          } else {
            assert line[i + 1] == c;
          }
        }
      }
    }
  }

  /** The key events that type `text` with no prompt input. */
  function Keystrokes(text: string): (events: seq<Event>)
    ensures |events| == |text|
    ensures forall i :: 0 <= i < |text| ==> events[i].key == text[i] as int
  {
    if text == [] then [] else [Event(text[0] as int, "")] + Keystrokes(text[1..])
  }

  predicate AllPrintable(text: string) {
    forall i :: 0 <= i < |text| ==> IsPrintable(text[i] as int)
  }

  /** The line after typing `c` and then `text` at column `x`. */
  lemma TypedLine(line: string, x: nat, c: char, text: string)
    requires x <= |line|
    ensures var line1 := line[..x] + [c] + line[x..];
      line1[..x + 1] + text + line1[x + 1..] == line[..x] + ([c] + text) + line[x..]
  {
    var line1 := line[..x] + [c] + line[x..];
    assert line1[..x + 1] == line[..x] + [c];
    assert line1[x + 1..] == line[x..];
  }

  /**
   * Typing printable characters at a cursor within its line inserts them all
   * there, in order: the line grows by their number and the column advances
   * by it.
   */
  lemma {:induction false} TypeText(s: EditorState, text: string)
    requires WellFormed(s) && CursorInLine(s) && AllPrintable(text)
    decreases |text|
    ensures var t := Replay(s, Keystrokes(text));
      var line := s.lines[s.y];
      t.outcomes == seq(|text|, _ => Continue) &&
      t.final == EditorState(s.lines[s.y := line[..s.x] + text + line[s.x..]], s.x + |text|, s.y) &&
      |t.final.lines[s.y]| == |line| + |text|
  {
    var line := s.lines[s.y];
    var events := Keystrokes(text);
    if text == [] {
      assert line[..s.x] + text + line[s.x..] == line;
      assert s.lines[s.y := line] == s.lines;
    } else {
      var c := text[0];
      var rest := text[1..];
      assert text == [c] + rest;
      assert IsPrintable(c as int);
      assert events[0] == Event(c as int, "");
      assert events[1..] == Keystrokes(rest);
      PrintableInserts(s, c as int, "");
      var step := Dispatch(s, c as int, "");
      var line1 := line[..s.x] + [c] + line[s.x..];
      assert step.next.lines == s.lines[s.y := line1];
      assert step.next == EditorState(s.lines[s.y := line1], s.x + 1, s.y);
      ReplayFirstStep(s, events, step.outcome, step.next);
      assert AllPrintable(rest) by {
        forall i | 0 <= i < |rest| ensures IsPrintable(rest[i] as int) {
          assert rest[i] == text[i + 1];
        }
      }
      TypeText(step.next, rest);
      TypedLine(line, s.x, c, rest);
      assert [Continue] + seq(|rest|, _ => Continue) == seq(|text|, _ => Continue);
    }
  }

  /**
   * Opening a file that is missing or empty gives an empty buffer, on which
   * the first printable key already reads a line that does not exist.
   */
  lemma NewFileCannotBeTyped(ch: int, query: string)
    requires IsPrintable(ch)
    ensures var s := EditorState(Split(""), 0, 0);
      s.lines == [] && Dispatch(s, ch, query).outcome == Crash(RowOutOfRange)
  {
  }

  /** Moving up keeps the column, whatever the length of the line above. */
  lemma UpKeepsColumn()
    ensures Dispatch(EditorState(["hello", "world"], 0, 1), KeyUp, "")
         == Transition(Continue, EditorState(["hello", "world"], 0, 0))
    ensures Dispatch(EditorState(["hi", "world"], 5, 1), KeyUp, "")
         == Transition(Continue, EditorState(["hi", "world"], 5, 0))
  {
  }

  /** Searching "bc" in "abcabc" finds the first of its two occurrences. */
  lemma FindFirstOccurrence()
    ensures Search(["abcabc"], "bc") == Some(Hit(0, 1))
  {
    assert "abcabc"[1..3] == "bc";
    assert "abcabc"[0..2] == "ab";
  }
}
