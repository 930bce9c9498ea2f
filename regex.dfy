/**
 * The two patterns of the linter have the shape `\b(a1|a2|...|an)\b`, where each
 * alternative is either a literal word (`while`, `end if`, `for `) or a literal
 * head, a `.*` and a literal tail (`if .* then`, `repeat .* times`). Neither
 * pattern has flags, so `\b` and `\w` are ASCII-only and `.` matches any
 * character other than a line terminator.
 *
 * `Matches` says what it means for such a pattern to occur in a string; `Exec`
 * is the search `String.prototype.match` performs: leftmost start, then the
 * first alternative in order, with a greedy `.*` that backtracks.
 */
module WordRegex {

  datatype Option<T> = None | Some(value: T)

  /** `\w` without the unicode flag. */
  predicate IsWordChar(c: char) {
    'a' <= c <= 'z' || 'A' <= c <= 'Z' || '0' <= c <= '9' || c == '_'
  }

  /** The characters `.` does not match. */
  predicate IsLineTerminator(c: char) {
    c == '\n' || c == '\r' || c == '\U{2028}' || c == '\U{2029}'
  }

  /** `\b` holds at position `k`: exactly one of the characters around it is a word character. */
  predicate IsBoundary(s: string, k: nat)
    requires k <= |s|
  {
    (0 < k && IsWordChar(s[k - 1])) != (k < |s| && IsWordChar(s[k]))
  }

  /** One alternative of the group: a literal, or `head .* tail`. */
  datatype Alt = Word(w: string) | Gap(head: string, tail: string)

  /** `p` occurs in `s` at position `i`, compared character by character. */
  predicate HasAt(s: string, i: nat, p: string)
    decreases |p|
  {
    i <= |s| && (p == [] || (i < |s| && s[i] == p[0] && HasAt(s, i + 1, p[1..])))
  }

  /** The character-by-character comparison is equality of the slice. */
  lemma {:induction false} HasAtSlice(s: string, i: nat, p: string)
    ensures HasAt(s, i, p) <==> i + |p| <= |s| && s[i..i + |p|] == p
    decreases |p|
  {
    if p != [] {
      HasAtSlice(s, i + 1, p[1..]);
      if i + |p| <= |s| {
        var sl := s[i..i + |p|];
        assert sl[0] == s[i] && sl[1..] == s[i + 1..i + 1 + |p[1..]|];
        if sl == p {
          assert sl[1..] == p[1..];
        }
        if HasAt(s, i, p) {
          assert sl == [sl[0]] + sl[1..] && p == [p[0]] + p[1..];
        }
      }
    }
  }

  predicate NoTerminatorIn(s: string, lo: nat, hi: nat)
    requires lo <= hi <= |s|
  {
    forall k :: lo <= k < hi ==> !IsLineTerminator(s[k])
  }

  /** Alternative `a` matches exactly `s[i..j]`. */
  predicate AltSpans(s: string, a: Alt, i: nat, j: nat)
    requires i <= j <= |s|
  {
    match a
    case Word(w) => j == i + |w| && s[i..j] == w
    case Gap(h, t) =>
      && i + |h| + |t| <= j
      && s[i..i + |h|] == h && s[j - |t|..j] == t
      && NoTerminatorIn(s, i + |h|, j - |t|)
  }

  /** Alternative `a`, followed by `\b`, matches `s[i..j]`. */
  predicate AltMatch(s: string, a: Alt, i: nat, j: nat) {
    i <= j <= |s| && AltSpans(s, a, i, j) && IsBoundary(s, j)
  }

  /** `\b(alts)\b` matches exactly `s[i..j]`. */
  predicate MatchAt(s: string, alts: seq<Alt>, i: nat, j: nat) {
    i <= j <= |s| && IsBoundary(s, i) && exists k :: 0 <= k < |alts| && AltMatch(s, alts[k], i, j)
  }

  /** The pattern occurs somewhere in `s`: what the truthiness of `s.match(re)` tests. */
  ghost predicate Matches(s: string, alts: seq<Alt>) {
    exists i: nat, j: nat :: MatchAt(s, alts, i, j)
  }

  /** `tail` followed by `\b` at position `m`. */
  predicate TailAt(s: string, t: string, m: nat) {
    m + |t| <= |s| && HasAt(s, m, t) && IsBoundary(s, m + |t|)
  }

  /**
   * The greedy `.*` of `head .* tail` when it starts at `m`: the end of the match
   * whose tail starts furthest right, no line terminator being crossed on the way.
   */
  function GapTail(s: string, t: string, m: nat): Option<nat>
    requires m <= |s|
    decreases |s| - m
  {
    var later := if m < |s| && !IsLineTerminator(s[m]) then GapTail(s, t, m + 1) else None;
    if later.Some? then later
    else if TailAt(s, t, m) then Some(m + |t|)
    else None
  }

  /** Where alternative `a` ends when it is tried at `i`, followed by `\b`. */
  function AltEnd(s: string, a: Alt, i: nat): Option<nat>
    requires i <= |s|
  {
    match a
    case Word(w) =>
      if i + |w| <= |s| && HasAt(s, i, w) && IsBoundary(s, i + |w|) then Some(i + |w|) else None
    case Gap(h, t) =>
      if i + |h| <= |s| && HasAt(s, i, h) then GapTail(s, t, i + |h|) else None
  }

  /** The end of the first alternative, from index `k` on, that matches at `i`. */
  function FirstAlt(s: string, alts: seq<Alt>, i: nat, k: nat): Option<nat>
    requires i <= |s| && k <= |alts|
    decreases |alts| - k
  {
    if k == |alts| then None
    else
      match AltEnd(s, alts[k], i)
      case Some(j) => Some(j)
      case None => FirstAlt(s, alts, i, k + 1)
  }

  /** The leftmost match that starts at `i` or later, as a start and an end. */
  function SearchFrom(s: string, alts: seq<Alt>, i: nat): Option<(nat, nat)>
    requires i <= |s| + 1
    decreases |s| + 1 - i
  {
    if i > |s| then None
    else if IsBoundary(s, i) then
      match FirstAlt(s, alts, i, 0)
      case Some(j) => Some((i, j))
      case None => SearchFrom(s, alts, i + 1)
    else SearchFrom(s, alts, i + 1)
  }

  /** `s.match(/\b(alts)\b/)`: the leftmost match, if there is one. */
  function Exec(s: string, alts: seq<Alt>): Option<(nat, nat)> {
    SearchFrom(s, alts, 0)
  }

  /** The greedy `.*` finds the rightmost tail that no line terminator separates from `m`. */
  lemma {:induction false} GapTailSpec(s: string, t: string, m: nat)
    requires m <= |s|
    ensures GapTail(s, t, m).Some? ==>
      var e := GapTail(s, t, m).value;
      |t| <= e && m <= e - |t| && TailAt(s, t, e - |t|) && NoTerminatorIn(s, m, e - |t|)
    ensures forall m': nat :: m <= m' <= |s| && NoTerminatorIn(s, m, m') && TailAt(s, t, m') ==>
      GapTail(s, t, m).Some? && m' + |t| <= GapTail(s, t, m).value
    decreases |s| - m
  {
    if m < |s| && !IsLineTerminator(s[m]) {
      GapTailSpec(s, t, m + 1);
      forall m': nat | m + 1 <= m' <= |s| && NoTerminatorIn(s, m, m')
        ensures NoTerminatorIn(s, m + 1, m')
      {
      }
    }
  }

  /** An alternative tried at `i` ends where its longest match followed by `\b` ends. */
  lemma AltEndSpec(s: string, a: Alt, i: nat)
    requires i <= |s|
    ensures AltEnd(s, a, i).Some? ==> AltMatch(s, a, i, AltEnd(s, a, i).value)
    ensures forall j: nat :: AltMatch(s, a, i, j) ==> AltEnd(s, a, i).Some? && j <= AltEnd(s, a, i).value
  {
    match a
    case Word(w) =>
      HasAtSlice(s, i, w);
    case Gap(h, t) =>
      GapEndSound(s, h, t, i);
      forall j: nat | AltMatch(s, a, i, j)
        ensures AltEnd(s, a, i).Some? && j <= AltEnd(s, a, i).value
      {
        GapEndMaximal(s, h, t, i, j);
      }
  }

  lemma GapEndSound(s: string, h: string, t: string, i: nat)
    requires i <= |s|
    ensures AltEnd(s, Gap(h, t), i).Some? ==> AltMatch(s, Gap(h, t), i, AltEnd(s, Gap(h, t), i).value)
  {
    HasAtSlice(s, i, h);
    if i + |h| <= |s| && HasAt(s, i, h) {
      var r := GapTail(s, t, i + |h|);
      assert AltEnd(s, Gap(h, t), i) == r;
      GapTailSpec(s, t, i + |h|);
      if r.Some? {
        HasAtSlice(s, r.value - |t|, t);
      }
    }
  }

  lemma GapEndMaximal(s: string, h: string, t: string, i: nat, j: nat)
    requires AltMatch(s, Gap(h, t), i, j)
    ensures AltEnd(s, Gap(h, t), i).Some? && j <= AltEnd(s, Gap(h, t), i).value
  {
    HasAtSlice(s, i, h);
    HasAtSlice(s, j - |t|, t);
    assert TailAt(s, t, j - |t|);
    assert AltEnd(s, Gap(h, t), i) == GapTail(s, t, i + |h|);
    GapTailSpec(s, t, i + |h|);
  }

  /** The first alternative from `k` on that matches at `i` gives the end; none matches when there is none. */
  lemma {:induction false} FirstAltSpec(s: string, alts: seq<Alt>, i: nat, k: nat)
    requires i <= |s| && k <= |alts|
    ensures FirstAlt(s, alts, i, k).Some? ==>
      exists k' :: k <= k' < |alts| && AltMatch(s, alts[k'], i, FirstAlt(s, alts, i, k).value)
        && AltEnd(s, alts[k'], i) == FirstAlt(s, alts, i, k)
        && forall k'', j: nat :: k <= k'' < k' ==> !AltMatch(s, alts[k''], i, j)
    ensures FirstAlt(s, alts, i, k).None? ==>
      forall k', j: nat :: k <= k' < |alts| ==> !AltMatch(s, alts[k'], i, j)
    decreases |alts| - k
  {
    if k < |alts| {
      AltEndSpec(s, alts[k], i);
      FirstAltSpec(s, alts, i, k + 1);
    }
  }

  /** The search from `i` returns a match, and none starts between `i` and it; or there is none from `i` on. */
  lemma {:induction false} SearchFromSpec(s: string, alts: seq<Alt>, i: nat)
    requires i <= |s| + 1
    ensures SearchFrom(s, alts, i).Some? ==>
      i <= SearchFrom(s, alts, i).value.0 && MatchAt(s, alts, SearchFrom(s, alts, i).value.0, SearchFrom(s, alts, i).value.1)
    ensures forall i': nat, j: nat :: i <= i' && MatchAt(s, alts, i', j) ==>
      SearchFrom(s, alts, i).Some? && SearchFrom(s, alts, i).value.0 <= i'
    decreases |s| + 1 - i
  {
    if i <= |s| {
      SearchFromSpec(s, alts, i + 1);
      if IsBoundary(s, i) {
        FirstAltSpec(s, alts, i, 0);
      }
    }
  }

  /** `s.match(re)` is truthy exactly when the pattern occurs, and then it is the leftmost occurrence. */
  lemma ExecSpec(s: string, alts: seq<Alt>)
    ensures Exec(s, alts).Some? <==> Matches(s, alts)
    ensures Exec(s, alts).Some? ==> MatchAt(s, alts, Exec(s, alts).value.0, Exec(s, alts).value.1)
    ensures Exec(s, alts).Some? ==> forall i': nat, j: nat :: i' < Exec(s, alts).value.0 ==> !MatchAt(s, alts, i', j)
  {
    SearchFromSpec(s, alts, 0);
  }

  /** Every character of `s` is a word character. */
  predicate AllWord(s: string) {
    forall k :: 0 <= k < |s| ==> IsWordChar(s[k])
  }

  /**
   * Whole-word matching: a string that is a single word matches exactly when it is
   * one of the literal alternatives, provided every literal is non-empty and every
   * `head .* tail` alternative has a non-word character in its head.
   */
  lemma WholeWordOnly(s: string, alts: seq<Alt>)
    requires s != [] && AllWord(s)
    requires forall k :: 0 <= k < |alts| ==> match alts[k] case Word(w) => w != [] case Gap(h, _) => !AllWord(h)
    ensures Matches(s, alts) <==> Word(s) in alts
  {
    if Word(s) in alts {
      var k :| 0 <= k < |alts| && alts[k] == Word(s);
      assert AltMatch(s, alts[k], 0, |s|);
      assert MatchAt(s, alts, 0, |s|);
    }
    if Matches(s, alts) {
      var i: nat, j: nat :| MatchAt(s, alts, i, j);
      var k :| 0 <= k < |alts| && AltMatch(s, alts[k], i, j);
      assert i == 0 || i == |s|;
      match alts[k]
      case Word(w) =>
        assert j == |s|;
        assert alts[k] == Word(s);
      case Gap(h, t) =>
        assert false;
    }
  }

  /** The literal an alternative starts with. */
  function Head(a: Alt): string {
    match a
    case Word(w) => w
    case Gap(h, _) => h
  }

  /** No alternative can be tried at `i` when `s[i]` is none of their first characters. */
  lemma {:induction false} FirstAltMiss(s: string, alts: seq<Alt>, i: nat, k: nat)
    requires i <= |s| && k <= |alts|
    requires forall m :: k <= m < |alts| ==> Head(alts[m]) != [] && (i == |s| || Head(alts[m])[0] != s[i])
    ensures FirstAlt(s, alts, i, k) == None
    decreases |alts| - k
  {
    if k < |alts| {
      FirstAltMiss(s, alts, i, k + 1);
    }
  }

  /** A witnessed occurrence makes the search succeed. */
  lemma FoundAt(s: string, alts: seq<Alt>, i: nat, j: nat, k: nat)
    requires i <= j <= |s| && k < |alts| && IsBoundary(s, i) && AltMatch(s, alts[k], i, j)
    ensures Exec(s, alts).Some?
  {
    assert MatchAt(s, alts, i, j);
    ExecSpec(s, alts);
  }
}
