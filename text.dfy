/**
 * Pure text operations of the editor: how a file's contents become the line
 * buffer (the `getline` loop of `openFile`), how the buffer is written back
 * (`saveFile`), and the three `std::string` members the key dispatcher and
 * the search rely on (`find`, single-character `insert` and `erase`).
 */
module Text {
  import opened Wrappers

  /** No line of a buffer contains a line separator. */
  predicate NoNewlines(lines: seq<string>) {
    forall i :: 0 <= i < |lines| ==> '\n' !in lines[i]
  }

  /** Index of the first '\n' in `s`, or `|s|` when there is none. */
  function LineEnd(s: string): (k: nat)
    ensures k <= |s|
    ensures k < |s| ==> s[k] == '\n'
    ensures forall i :: 0 <= i < k ==> s[i] != '\n'
  {
    if s == [] || s[0] == '\n' then 0 else 1 + LineEnd(s[1..])
  }

  /**
   * The lines `getline` extracts from `s`, one by one: every '\n' ends a line
   * (and is dropped), and a final piece without a '\n' is a line only when it
   * is not empty, so a trailing newline does not produce an extra empty line.
   */
  function Split(s: string): (lines: seq<string>)
    decreases |s|
    ensures (lines == []) <==> (s == [])
    ensures NoNewlines(lines)
  {
    if s == [] then []
    else
      var k := LineEnd(s);
      if k == |s| then [s] else [s[..k]] + Split(s[k + 1..])
  }

  /** The text after the first line and its '\n'; empty when there is no '\n'. */
  function AfterLine(s: string): (rest: string)
    ensures |rest| < |s| || s == []
  {
    var k := LineEnd(s);
    if k < |s| then s[k + 1..] else []
  }

  /** A non-empty text splits into its first line and the lines of the rest. */
  lemma SplitFirstLine(s: string)
    requires s != []
    ensures Split(s) == [s[..LineEnd(s)]] + Split(AfterLine(s))
  {
    if LineEnd(s) == |s| {
      assert s[..|s|] == s;
    }
  }

  /**
   * What `saveFile` writes: every line followed by '\n' (`std::endl`). The
   * text is empty exactly for an empty buffer and otherwise ends with '\n'.
   */
  function Join(lines: seq<string>): (r: string)
    ensures |r| >= |lines|
    ensures r == "" <==> lines == []
    ensures lines != [] ==> r[|r| - 1] == '\n'
  {
    if lines == [] then "" else lines[0] + "\n" + Join(lines[1..])
  }

  lemma {:induction false} JoinAppend(a: seq<string>, b: seq<string>)
    ensures Join(a + b) == Join(a) + Join(b)
  {
    if a == [] {
      assert a + b == b;
    } else {
      assert (a + b)[1..] == a[1..] + b;
      JoinAppend(a[1..], b);
    }
  }

  lemma LineEndAfter(a: string, b: string)
    requires '\n' !in a
    ensures LineEnd(a + "\n" + b) == |a|
  {
    var s := a + "\n" + b;
    var k := LineEnd(s);
    assert s[|a|] == '\n';
  }

  /** Saving a buffer without embedded newlines and loading it back gives the same lines. */
  lemma {:induction false} SplitJoin(lines: seq<string>)
    requires NoNewlines(lines)
    ensures Split(Join(lines)) == lines
  {
    if lines != [] {
      var rest := Join(lines[1..]);
      var s := lines[0] + "\n" + rest;
      LineEndAfter(lines[0], rest);
      assert s[..|lines[0]|] == lines[0];
      assert s[|lines[0]| + 1..] == rest;
      SplitJoin(lines[1..]);
    }
  }

  /**
   * Loading a text and saving it again reproduces the text, with a newline
   * added at the end when the text did not already end with one.
   */
  lemma {:induction false} JoinSplit(s: string)
    decreases |s|
    ensures Join(Split(s)) == if s == [] || s[|s| - 1] == '\n' then s else s + "\n"
  {
    if s != [] {
      var k := LineEnd(s);
      var line := s[..k];
      var rest := AfterLine(s);
      var r := Join(Split(rest));
      assert Join(Split(s)) == line + "\n" + r by {
        SplitFirstLine(s);
        JoinFirst(line, Split(rest));
      }
      if k == |s| {
        assert line == s && r == [] && s[|s| - 1] != '\n';
      } else {
        assert s == line + "\n" + rest;
        JoinSplit(rest);
        Reattach(line, rest, r);
      }
    }
  }

  /** Putting a line and its '\n' back in front of a re-saved rest. */
  lemma Reattach(line: string, rest: string, r: string)
    requires r == if rest == [] || rest[|rest| - 1] == '\n' then rest else rest + "\n"
    ensures var s := line + "\n" + rest;
      line + "\n" + r == if s[|s| - 1] == '\n' then s else s + "\n"
  {
    var s := line + "\n" + rest;
    if rest != [] {
      assert rest[|rest| - 1] == s[|s| - 1];
      assert line + "\n" + (rest + "\n") == s + "\n";
    }
  }

  lemma JoinFirst(line: string, lines: seq<string>)
    ensures Join([line] + lines) == line + "\n" + Join(lines)
  {
    assert ([line] + lines)[1..] == lines;
  }

  /** `word` occurs in `line` starting at index `p`. */
  predicate OccursAt(line: string, word: string, p: nat) {
    p + |word| <= |line| && line[p..p + |word|] == word
  }

  /** `std::string::find(word, from)`: the first occurrence at or after `from`. */
  function FindFrom(line: string, word: string, from: nat): (r: Option<nat>)
    decreases |line| - from
    ensures r.Some? ==> from <= r.value && OccursAt(line, word, r.value)
    ensures r.Some? ==> forall q :: from <= q < r.value ==> !OccursAt(line, word, q)
    ensures r.None? ==> forall q :: from <= q ==> !OccursAt(line, word, q)
  {
    if from + |word| > |line| then None
    else if line[from..from + |word|] == word then Some(from)
    else FindFrom(line, word, from + 1)
  }

  /** `line.find(word)`: `Some` first occurrence, `None` for `npos`. */
  function Find(line: string, word: string): (r: Option<nat>)
    ensures r.Some? ==> OccursAt(line, word, r.value)
    ensures r.Some? ==> forall q :: 0 <= q < r.value ==> !OccursAt(line, word, q)
    ensures r.None? <==> forall q :: !OccursAt(line, word, q)
  {
    FindFrom(line, word, 0)
  }

  /** `s.insert(pos, 1, c)`; the caller has checked `pos <= |s|`. */
  function Insert(s: string, pos: nat, c: char): (r: string)
    requires pos <= |s|
    ensures |r| == |s| + 1 && r[pos] == c
    ensures forall i :: 0 <= i < pos ==> r[i] == s[i]
    ensures forall i :: pos < i < |r| ==> r[i] == s[i - 1]
  {
    s[..pos] + [c] + s[pos..]
  }

  /**
   * `s.erase(pos, 1)`; the caller has checked `pos <= |s|`. At `pos == |s|`
   * there is no character to remove and `s` is unchanged.
   */
  function Erase(s: string, pos: nat): (r: string)
    requires pos <= |s|
    ensures pos == |s| ==> r == s
    ensures pos < |s| ==> |r| == |s| - 1
    ensures forall i :: 0 <= i < pos && i < |r| ==> r[i] == s[i]
    ensures forall i :: pos <= i < |r| ==> r[i] == s[i + 1]
  {
    if pos == |s| then s else s[..pos] + s[pos + 1..]
  }
}
