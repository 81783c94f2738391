/**
 * The editor's state (the line buffer and the cursor) as a value, and the
 * keystroke dispatcher of `TextEditor::run` as a function from one state to
 * the next. The class in module Editor is proved to follow it step by step.
 */
module Buffer {
  import opened Wrappers
  import opened Text

  // Key codes the dispatcher switches on. The arrow and backspace codes are
  // the ncurses values of KEY_DOWN, KEY_UP, KEY_LEFT, KEY_RIGHT, KEY_BACKSPACE.
  const KeyDown: int := 0x102
  const KeyUp: int := 0x103
  const KeyLeft: int := 0x104
  const KeyRight: int := 0x105
  const KeyBackspace: int := 0x107
  const Enter: int := 10
  const Delete: int := 127
  const CtrlS: int := 19
  const CtrlF: int := 6
  const Escape: int := 27

  /** Largest value of `size_t` (64 bits). */
  const SizeMax: int := 0xFFFF_FFFF_FFFF_FFFF

  /** The buffer and the cursor: `x` is the column, `y` the row. */
  datatype EditorState = EditorState(lines: seq<string>, x: int, y: int)

  /**
   * Why a keystroke takes the editor down. The first and last read or insert
   * outside the `std::vector` (undefined behaviour), the middle one is the
   * `std::out_of_range` that `std::string::insert`/`erase` throw and nothing
   * catches.
   */
  datatype Fault = RowOutOfRange | PositionOutOfRange | InsertPastEnd

  /** What one keystroke does besides changing the state. */
  datatype Outcome =
    | Continue               // back to the loop
    | Wrote(text: string)    // Ctrl-S wrote `text` to the file
    | Exit                   // ESC left the loop
    | Crash(fault: Fault)    // the program failed; the state is the one before
  {
    predicate Stops() { Exit? || Crash? }
  }

  datatype Transition = Transition(outcome: Outcome, next: EditorState)

  /** One input event: a key code, and the text typed at the prompt if it is Ctrl-F. */
  datatype Event = Event(key: int, typed: string)

  /** The outcomes of the events processed, and the state after the last of them. */
  datatype Trace = Trace(outcomes: seq<Outcome>, final: EditorState)

  /** A search hit: the row and the column of the first character. */
  datatype Hit = Hit(row: nat, col: nat)

  /**
   * What every reachable state satisfies: the cursor is never negative, and
   * when the buffer has lines the row is one of them. The column may lie past
   * the end of its line (vertical moves keep it), and an empty buffer keeps
   * whatever row Down gave it.
   */
  predicate WellFormed(s: EditorState) {
    0 <= s.x && 0 <= s.y && (|s.lines| > 0 ==> s.y < |s.lines|)
  }

  /** `lines.size() - 1` computed in `size_t`: it wraps to SizeMax on an empty buffer. */
  function LastIndex(n: nat): (r: int)
    ensures n <= SizeMax ==> r == (n - 1) % (SizeMax + 1)
  {
    if n == 0 then SizeMax else n - 1
  }

  predicate IsPrintable(ch: int) {
    32 <= ch <= 126
  }

  /** The line contains the query somewhere. */
  predicate Contains(line: string, word: string) {
    exists p: nat :: p <= |line| && OccursAt(line, word, p)
  }

  /** The `findWord` scan, from row `i` on. */
  function SearchFrom(lines: seq<string>, word: string, i: nat): (r: Option<Hit>)
    requires i <= |lines|
    decreases |lines| - i
    ensures r.Some? ==> i <= r.value.row < |lines| && Find(lines[r.value.row], word) == Some(r.value.col)
    ensures r.Some? ==> forall j :: i <= j < r.value.row ==> !Contains(lines[j], word)
    ensures r.None? ==> forall j :: i <= j < |lines| ==> !Contains(lines[j], word)
  {
    if i == |lines| then None
    else match Find(lines[i], word)
      case Some(p) => Some(Hit(i, p))
      case None => SearchFrom(lines, word, i + 1)
  }

  /**
   * The first row containing `word`, with the first occurrence in that row;
   * `None` when no row contains it.
   */
  function Search(lines: seq<string>, word: string): (r: Option<Hit>)
    ensures r.Some? ==> r.value.row < |lines| && Contains(lines[r.value.row], word)
    ensures r.Some? ==> OccursAt(lines[r.value.row], word, r.value.col)
    ensures r.Some? ==> forall q :: 0 <= q < r.value.col ==> !OccursAt(lines[r.value.row], word, q)
    ensures r.Some? ==> forall j :: 0 <= j < r.value.row ==> !Contains(lines[j], word)
    ensures r.None? <==> forall j :: 0 <= j < |lines| ==> !Contains(lines[j], word)
  {
    SearchFrom(lines, word, 0)
  }

  /** The cursor after Ctrl-F: on the hit, or where it was. */
  function Found(s: EditorState, word: string): (r: EditorState)
    ensures r.lines == s.lines
    ensures (exists j :: 0 <= j < |s.lines| && Contains(s.lines[j], word)) ==>
      0 <= r.x && 0 <= r.y < |s.lines| && OccursAt(s.lines[r.y], word, r.x) &&
      (forall q :: 0 <= q < r.x ==> !OccursAt(s.lines[r.y], word, q)) &&
      (forall j :: 0 <= j < r.y ==> !Contains(s.lines[j], word))
    ensures (forall j :: 0 <= j < |s.lines| ==> !Contains(s.lines[j], word)) ==> r == s
  {
    match Search(s.lines, word)
    case Some(h) => s.(x := h.col, y := h.row)
    case None => s
  }

  function Stay(s: EditorState): Transition {
    Transition(Continue, s)
  }

  /**
   * One pass of the `switch` in `TextEditor::run` for key code `ch`; `query`
   * is what the user types at the Ctrl-F prompt.
   */
  function Dispatch(s: EditorState, ch: int, query: string): (t: Transition)
    requires WellFormed(s)
    ensures WellFormed(t.next)
  {
    if ch == KeyUp then
      Stay(if s.y > 0 then s.(y := s.y - 1) else s)
    else if ch == KeyDown then
      Stay(if s.y < LastIndex(|s.lines|) then s.(y := s.y + 1) else s)
    else if ch == KeyLeft then
      Stay(if s.x > 0 then s.(x := s.x - 1) else s)
    else if ch == KeyRight then
      if s.y >= |s.lines| then Transition(Crash(RowOutOfRange), s)
      else Stay(if s.x < |s.lines[s.y]| then s.(x := s.x + 1) else s)
    else if ch == Enter then
      if s.y + 1 > |s.lines| then Transition(Crash(InsertPastEnd), s)
      else Stay(EditorState(s.lines[..s.y + 1] + [""] + s.lines[s.y + 1..], 0, s.y + 1))
    else if ch == KeyBackspace || ch == Delete then
      if s.x == 0 then Stay(s)
      else if s.y >= |s.lines| then Transition(Crash(RowOutOfRange), s)
      else if s.x - 1 > |s.lines[s.y]| then Transition(Crash(PositionOutOfRange), s)
      else Stay(EditorState(s.lines[s.y := Erase(s.lines[s.y], s.x - 1)], s.x - 1, s.y))
    else if ch == CtrlS then
      Transition(Wrote(Join(s.lines)), s)
    else if ch == CtrlF then
      Stay(Found(s, query))
    else if ch == Escape then
      Transition(Exit, s)
    else if IsPrintable(ch) then
      if s.y >= |s.lines| then Transition(Crash(RowOutOfRange), s)
      else if s.x > |s.lines[s.y]| then Transition(Crash(PositionOutOfRange), s)
      else Stay(EditorState(s.lines[s.y := Insert(s.lines[s.y], s.x, ch as char)], s.x + 1, s.y))
    else
      Stay(s)
  }

  /** `t` with `prefix` put in front of its outcomes. */
  function Prefixed(prefix: seq<Outcome>, t: Trace): Trace {
    Trace(prefix + t.outcomes, t.final)
  }

  /**
   * The `while (true)` loop of `TextEditor::run` fed with `events`: it stops
   * after ESC or a crash, or when the events run out.
   */
  function Replay(s: EditorState, events: seq<Event>): (t: Trace)
    requires WellFormed(s)
    decreases |events|
    ensures WellFormed(t.final)
    ensures |t.outcomes| <= |events|
    ensures forall i :: 0 <= i < |t.outcomes| - 1 ==> !t.outcomes[i].Stops()
    ensures |t.outcomes| == |events| || (t.outcomes != [] && t.outcomes[|t.outcomes| - 1].Stops())
  {
    if events == [] then Trace([], s)
    else
      var step := Dispatch(s, events[0].key, events[0].typed);
      if step.outcome.Stops() then Trace([step.outcome], step.next)
      else
        Prefixed([step.outcome], Replay(step.next, events[1..]))
  }

  /** A run is its first step followed, unless that step stops it, by the run of the rest. */
  lemma ReplayFirstStep(s: EditorState, events: seq<Event>, o: Outcome, next: EditorState)
    requires WellFormed(s) && events != []
    requires Dispatch(s, events[0].key, events[0].typed) == Transition(o, next)
    ensures WellFormed(next)
    ensures Replay(s, events) ==
      if o.Stops() then Trace([o], next) else Prefixed([o], Replay(next, events[1..]))
  {
  }

  /** The state the loop is in before event `i` when no earlier event stopped it. */
  function StateAt(s: EditorState, events: seq<Event>, i: nat): (r: EditorState)
    requires WellFormed(s) && i <= |events|
    decreases i
    ensures WellFormed(r)
  {
    if i == 0 then s
    else Dispatch(StateAt(s, events, i - 1), events[i - 1].key, events[i - 1].typed).next
  }

  /** After the first event, the states of the rest of the run are the later states of the whole run. */
  lemma {:induction false} StateAtShift(s: EditorState, events: seq<Event>, i: nat)
    requires WellFormed(s) && i + 1 <= |events|
    decreases i
    ensures StateAt(s, events, i + 1) ==
      StateAt(Dispatch(s, events[0].key, events[0].typed).next, events[1..], i)
  {
    if i > 0 {
      StateAtShift(s, events, i - 1);
      assert events[1..][i - 1] == events[i];
    }
  }

  /**
   * Every outcome of a run is what `Dispatch` gives for its event from the
   * state the earlier events left, and the run ends in the state the last
   * processed event left.
   */
  lemma {:induction false} ReplayFollowsDispatch(s: EditorState, events: seq<Event>)
    requires WellFormed(s)
    decreases |events|
    ensures var t := Replay(s, events);
      forall i :: 0 <= i < |t.outcomes| ==>
        t.outcomes[i] == Dispatch(StateAt(s, events, i), events[i].key, events[i].typed).outcome
    ensures var t := Replay(s, events);
      t.final == StateAt(s, events, |t.outcomes|)
  {
    if events != [] {
      var step := Dispatch(s, events[0].key, events[0].typed);
      ReplayFirstStep(s, events, step.outcome, step.next);
      assert StateAt(s, events, 1) == step.next;
      if !step.outcome.Stops() {
        var rest := Replay(step.next, events[1..]);
        ReplayFollowsDispatch(step.next, events[1..]);
        forall i | 0 < i < |rest.outcomes| + 1
          ensures ([step.outcome] + rest.outcomes)[i] ==
            Dispatch(StateAt(s, events, i), events[i].key, events[i].typed).outcome
        {
          ShiftedOutcome(s, events, rest.outcomes, i);
        }
        StateAtShift(s, events, |rest.outcomes|);
      }
    }
  }

  /** One outcome of the rest of a run, seen as an outcome of the whole run. */
  lemma ShiftedOutcome(s: EditorState, events: seq<Event>, tail: seq<Outcome>, i: nat)
    requires WellFormed(s) && 0 < i <= |tail| && |tail| < |events|
    requires var next := Dispatch(s, events[0].key, events[0].typed).next;
      tail[i - 1] == Dispatch(StateAt(next, events[1..], i - 1), events[1..][i - 1].key, events[1..][i - 1].typed).outcome
    ensures var o := Dispatch(s, events[0].key, events[0].typed).outcome;
      ([o] + tail)[i] == Dispatch(StateAt(s, events, i), events[i].key, events[i].typed).outcome
  {
    StateAtShift(s, events, i - 1);
    assert events[1..][i - 1] == events[i];
  }

  lemma PrefixedTwice(a: seq<Outcome>, b: seq<Outcome>, t: Trace)
    ensures Prefixed(a, Prefixed(b, t)) == Prefixed(a + b, t)
  {
    assert a + (b + t.outcomes) == (a + b) + t.outcomes;
  }
}
