/**
 * The block-balance scan of `updateDiagnostics`: the document is split into
 * lines, each line is normalised and classified, and a counter goes up on every
 * opener and down on every closer.
 */
module BlockScan {
  import opened Text
  import opened Lines
  import opened WordRegex
  import opened Classify

  /** The counter after a scan of `lines`, front to back. */
  function BlockCount(lines: seq<string>): int {
    if lines == [] then 0 else BlockCount(lines[..|lines| - 1]) + Delta(lines[|lines| - 1])
  }

  /** Indices of the lines that count as openers. */
  function OpenerLines(lines: seq<string>): set<nat> {
    set k: nat | k < |lines| && Opens(lines[k])
  }

  /** Indices of the lines that count as closers. */
  function CloserLines(lines: seq<string>): set<nat> {
    set k: nat | k < |lines| && Closes(lines[k])
  }

  /** Indices of the lines the scan does not pass over. */
  function CountedLines(lines: seq<string>): set<nat> {
    set k: nat | k < |lines| && !Skipped(Normalise(lines[k]))
  }

  lemma IndexSetStep(lines: seq<string>, s: set<nat>, t: set<nat>, p: bool)
    requires lines != []
    requires forall k: nat :: k in s <==> k < |lines| - 1 && k in t
    requires forall k: nat :: k in t ==> k < |lines|
    requires (|lines| - 1) in t <==> p
    ensures |t| == |s| + (if p then 1 else 0)
  {
    var n := |lines| - 1;
    if p {
      assert t == s + {n};
    } else {
      assert t == s;
    }
  }

  /** The counter ends at the number of opener lines minus the number of closer lines. */
  lemma {:induction false} BlockCountIsOpenersMinusClosers(lines: seq<string>)
    ensures BlockCount(lines) == |OpenerLines(lines)| - |CloserLines(lines)|
  {
    if lines != [] {
      var front := lines[..|lines| - 1];
      BlockCountIsOpenersMinusClosers(front);
      IndexSetStep(lines, OpenerLines(front), OpenerLines(lines), Opens(lines[|lines| - 1]));
      IndexSetStep(lines, CloserLines(front), CloserLines(lines), Closes(lines[|lines| - 1]));
    }
  }

  /** Scanning a concatenation adds up the counts of the two parts. */
  lemma {:induction false} BlockCountAppend(a: seq<string>, b: seq<string>)
    ensures BlockCount(a + b) == BlockCount(a) + BlockCount(b)
    decreases |b|
  {
    if b == [] {
      assert a + b == a;
    } else {
      var n := |b| - 1;
      assert (a + b)[..|a + b| - 1] == a + b[..n];
      BlockCountAppend(a, b[..n]);
    }
  }

  /** The counter does not depend on the order of the lines. */
  lemma {:induction false} BlockCountPermutation(a: seq<string>, b: seq<string>)
    requires multiset(a) == multiset(b)
    ensures BlockCount(a) == BlockCount(b)
    decreases |a|
  {
    if a != [] {
      var front, x := a[..|a| - 1], a[|a| - 1];
      assert a == front + [x];
      assert x in multiset(b);
      var k :| 0 <= k < |b| && b[k] == x;
      var rest := b[..k] + b[k + 1..];
      assert b == b[..k] + [x] + b[k + 1..];
      assert multiset(b) == multiset(rest) + multiset{x};
      assert multiset(a) == multiset(front) + multiset{x};
      assert multiset(rest) == multiset(b) - multiset{x};
      assert multiset(front) == multiset(a) - multiset{x};
      BlockCountPermutation(front, rest);
      BlockCountAppend(b[..k], b[k + 1..]);
      BlockCountAppend(b[..k] + [x], b[k + 1..]);
      BlockCountAppend(b[..k], [x]);
      assert [x][..0] == [];
    }
  }

  /** Lines that normalise alike, position by position, give the same counter. */
  lemma {:induction false} BlockCountByNormalForm(a: seq<string>, b: seq<string>)
    requires |a| == |b|
    requires forall k :: 0 <= k < |a| ==> Normalise(a[k]) == Normalise(b[k])
    ensures BlockCount(a) == BlockCount(b)
  {
    if a != [] {
      BlockCountByNormalForm(a[..|a| - 1], b[..|b| - 1]);
    }
  }

  /** A line the scan passes over can be inserted anywhere without changing the counter. */
  lemma SkippedLineIsNeutral(a: seq<string>, s: string, b: seq<string>)
    requires Skipped(Normalise(s))
    ensures BlockCount(a + [s] + b) == BlockCount(a + b)
  {
    BlockCountAppend(a + [s], b);
    BlockCountAppend(a, [s]);
    BlockCountAppend(a, b);
    assert [s][..0] == [];
  }

  /** The counter moves by at most one per counted line. */
  lemma {:induction false} BlockCountBound(lines: seq<string>)
    ensures -|CountedLines(lines)| <= BlockCount(lines) <= |CountedLines(lines)|
    ensures |CountedLines(lines)| <= |lines|
  {
    if lines != [] {
      var front := lines[..|lines| - 1];
      BlockCountBound(front);
      IndexSetStep(lines, CountedLines(front), CountedLines(lines), !Skipped(Normalise(lines[|lines| - 1])));
    }
  }

  /**
   * The loop of `updateDiagnostics`: it returns the final value of `blocks`,
   * which the source computes and then discards.
   */
  method Scan(text: string) returns (blocks: int)
    ensures blocks == BlockCount(SplitLines(text))
    ensures blocks == |OpenerLines(SplitLines(text))| - |CloserLines(SplitLines(text))|
    ensures -(NewlineCount(text) + 1) <= blocks <= NewlineCount(text) + 1
  {
    var lines := SplitLines(text);
    blocks := 0;
    for i := 0 to |lines|
      invariant blocks == BlockCount(lines[..i])
    {
      assert lines[..i + 1][..i] == lines[..i];
      var line := Normalise(lines[i]);
      if Skipped(line) {
        continue;
      }
      var openMatch := Exec(line, OpenerAlts);
      var closeMatch := Exec(line, CloserAlts);
      if openMatch.Some? {
        blocks := blocks + 1;
      }
      if closeMatch.Some? {
        blocks := blocks - 1;
      }
    }
    assert lines[..|lines|] == lines;
    BlockCountIsOpenersMinusClosers(lines);
    BlockCountBound(lines);
    LineCount(text);
  }
}
