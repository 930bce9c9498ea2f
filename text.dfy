/**
 * Per-line normalisation of the E++ linter: `line.trim().toLowerCase()`.
 *
 * `trim` removes the ECMAScript WhiteSpace and LineTerminator code points from
 * both ends; `toLowerCase` is modelled on ASCII letters only.
 */
module Text {

  /** ECMAScript WhiteSpace (TAB, VT, FF, ZWNBSP and every Zs space) or LineTerminator. */
  predicate IsJsWhitespace(c: char) {
    || c == '\t' || c == '\n' || c == '\U{B}' || c == '\U{C}' || c == '\r' || c == ' '
    || c == '\U{A0}' || c == '\U{1680}' || ('\U{2000}' <= c <= '\U{200A}')
    || c == '\U{2028}' || c == '\U{2029}' || c == '\U{202F}' || c == '\U{205F}'
    || c == '\U{3000}' || c == '\U{FEFF}'
  }

  /** Every character of `s` is trimmable whitespace. */
  predicate AllWhitespace(s: string) {
    forall k :: 0 <= k < |s| ==> IsJsWhitespace(s[k])
  }

  /** Leading whitespace removed. */
  function TrimStart(s: string): string {
    if s != [] && IsJsWhitespace(s[0]) then TrimStart(s[1..]) else s
  }

  /** Trailing whitespace removed. */
  function TrimEnd(s: string): string {
    if s != [] && IsJsWhitespace(s[|s| - 1]) then TrimEnd(s[..|s| - 1]) else s
  }

  /** `String.prototype.trim`. */
  function Trim(s: string): string {
    TrimEnd(TrimStart(s))
  }

  /** TrimStart drops exactly the longest whitespace prefix: what is left is a suffix that does not start with whitespace. */
  lemma {:induction false} TrimStartSpec(s: string)
    ensures |TrimStart(s)| <= |s| && TrimStart(s) == s[|s| - |TrimStart(s)|..]
    ensures AllWhitespace(s[..|s| - |TrimStart(s)|])
    ensures TrimStart(s) != [] ==> !IsJsWhitespace(TrimStart(s)[0])
  {
    if s != [] && IsJsWhitespace(s[0]) {
      TrimStartSpec(s[1..]);
      var n := |s| - |TrimStart(s)|;
      assert s[..n] == [s[0]] + s[1..][..n - 1];
    }
  }

  /** TrimEnd drops exactly the longest whitespace suffix: what is left is a prefix that does not end with whitespace. */
  lemma {:induction false} TrimEndSpec(s: string)
    ensures |TrimEnd(s)| <= |s| && TrimEnd(s) == s[..|TrimEnd(s)|]
    ensures AllWhitespace(s[|TrimEnd(s)|..])
    ensures TrimEnd(s) != [] ==> !IsJsWhitespace(TrimEnd(s)[|TrimEnd(s)| - 1])
  {
    if s != [] && IsJsWhitespace(s[|s| - 1]) {
      var t := s[..|s| - 1];
      TrimEndSpec(t);
      var n := |TrimEnd(s)|;
      assert s[n..] == t[n..] + [s[|s| - 1]];
    }
  }

  /** TrimEnd keeps every character up to the last one that is not whitespace. */
  lemma TrimEndKeeps(s: string, k: nat)
    requires k < |s| && !IsJsWhitespace(s[k])
    ensures k < |TrimEnd(s)| <= |s| && TrimEnd(s) == s[..|TrimEnd(s)|]
  {
    TrimEndSpec(s);
    var n := |TrimEnd(s)|;
    assert forall j :: n <= j < |s| ==> IsJsWhitespace(s[j]) by {
      forall j | n <= j < |s|
        ensures IsJsWhitespace(s[j])
      {
        assert s[j] == s[n..][j - n];
      }
    }
  }

  /** A trimmed string neither starts nor ends with whitespace, and it is a slice of the original between two whitespace runs. */
  lemma TrimSpec(s: string)
    ensures Trim(s) != [] ==> !IsJsWhitespace(Trim(s)[0]) && !IsJsWhitespace(Trim(s)[|Trim(s)| - 1])
    ensures exists i, j :: 0 <= i <= j <= |s| && Trim(s) == s[i..j] && AllWhitespace(s[..i]) && AllWhitespace(s[j..])
  {
    TrimStartSpec(s);
    var u := TrimStart(s);
    TrimEndSpec(u);
    var i := |s| - |u|;
    var j := i + |TrimEnd(u)|;
    assert Trim(s) == s[i..j];
    assert s[j..] == u[|TrimEnd(u)|..];
    if Trim(s) != [] {
      assert TrimEnd(u)[0] == u[0];
    }
  }

  predicate IsAsciiUpper(c: char) {
    'A' <= c <= 'Z'
  }

  function ToLowerChar(c: char): (r: char)
    ensures !IsAsciiUpper(r)
    ensures IsAsciiUpper(c) ==> r as int == c as int + 32
    ensures !IsAsciiUpper(c) ==> r == c
  {
    if IsAsciiUpper(c) then (c as int + 32) as char else c
  }

  /** `String.prototype.toLowerCase`, restricted to ASCII letters. */
  function ToLower(s: string): (r: string)
    ensures |r| == |s|
    ensures forall k :: 0 <= k < |s| ==> r[k] == ToLowerChar(s[k])
  {
    if s == [] then [] else [ToLowerChar(s[0])] + ToLower(s[1..])
  }

  /** The normalised line the linter classifies: trimmed, then lower-cased. */
  function Normalise(line: string): string {
    ToLower(Trim(line))
  }

  /** The normalised line has no ASCII capital and no whitespace at either end. */
  lemma NormaliseSpec(line: string)
    ensures |Normalise(line)| <= |line|
    ensures forall k :: 0 <= k < |Normalise(line)| ==> !IsAsciiUpper(Normalise(line)[k])
    ensures Normalise(line) != [] ==> !IsJsWhitespace(Normalise(line)[0]) && !IsJsWhitespace(Normalise(line)[|Normalise(line)| - 1])
  {
    TrimSpec(line);
  }

  /** A string with no whitespace at either end is its own trim. */
  lemma TrimOfTrimmed(s: string)
    requires s != [] ==> !IsJsWhitespace(s[0]) && !IsJsWhitespace(s[|s| - 1])
    ensures Trim(s) == s
  {
    if s != [] {
      assert TrimStart(s) == s;
    }
  }

  /** A line already in normal form is left as it is. */
  lemma NormaliseFixed(s: string)
    requires s != [] ==> !IsJsWhitespace(s[0]) && !IsJsWhitespace(s[|s| - 1])
    requires forall k :: 0 <= k < |s| ==> !IsAsciiUpper(s[k])
    ensures Normalise(s) == s
  {
    TrimOfTrimmed(s);
  }

  /** Lower-casing never creates or removes whitespace, so it commutes with trimming. */
  lemma {:induction false} TrimStartToLower(s: string)
    ensures TrimStart(ToLower(s)) == ToLower(TrimStart(s))
  {
    if s != [] {
      assert ToLower(s)[1..] == ToLower(s[1..]);
      if IsJsWhitespace(s[0]) {
        TrimStartToLower(s[1..]);
      }
    }
  }

  lemma {:induction false} TrimEndToLower(s: string)
    ensures TrimEnd(ToLower(s)) == ToLower(TrimEnd(s))
  {
    if s != [] {
      var n := |s| - 1;
      ToLowerPrefix(s, n);
      if IsJsWhitespace(s[n]) {
        TrimEndToLower(s[..n]);
      }
    }
  }

  lemma ToLowerPrefix(s: string, n: nat)
    requires n <= |s|
    ensures ToLower(s)[..n] == ToLower(s[..n])
  {
  }

  lemma TrimToLower(s: string)
    ensures Trim(ToLower(s)) == ToLower(Trim(s))
  {
    TrimStartToLower(s);
    TrimEndToLower(TrimStart(s));
  }

  /** Normalising twice is normalising once. */
  lemma NormaliseIdempotent(line: string)
    ensures Normalise(Normalise(line)) == Normalise(line)
  {
    var t := Trim(line);
    TrimSpec(line);
    TrimToLower(t);
    TrimOfTrimmed(t);
    assert ToLower(ToLower(t)) == ToLower(t);
  }

  /** Strings equal up to ASCII letter case normalise to the same line. */
  lemma NormaliseIgnoresCase(a: string, b: string)
    requires ToLower(a) == ToLower(b)
    ensures Normalise(a) == Normalise(b)
  {
    TrimToLower(a);
    TrimToLower(b);
    var ta, tb := Trim(a), Trim(b);
    calc {
      Normalise(a);
      ToLower(ta);
      ToLower(ToLower(ta));
      ToLower(Trim(ToLower(a)));
      ToLower(Trim(ToLower(b)));
      ToLower(ToLower(tb));
      ToLower(tb);
    }
  }

  lemma {:induction false} TrimStartPadded(p: string, s: string)
    requires AllWhitespace(p)
    ensures TrimStart(p + s) == TrimStart(s)
  {
    if p != [] {
      var ps := p + s;
      assert ps[0] == p[0] && IsJsWhitespace(p[0]);
      assert ps[1..] == p[1..] + s;
      assert TrimStart(ps) == TrimStart(ps[1..]);
      TrimStartPadded(p[1..], s);
    } else {
      assert p + s == s;
    }
  }

  lemma {:induction false} TrimEndPadded(s: string, q: string)
    requires AllWhitespace(q)
    ensures TrimEnd(s + q) == TrimEnd(s)
  {
    if q != [] {
      var n := |q| - 1;
      var sq := s + q;
      assert sq[|sq| - 1] == q[n] && IsJsWhitespace(q[n]);
      assert sq[..|sq| - 1] == s + q[..n];
      assert TrimEnd(sq) == TrimEnd(sq[..|sq| - 1]);
      TrimEndPadded(s, q[..n]);
    } else {
      assert s + q == s;
    }
  }

  /** Trailing whitespace appended before the leading trim is removed by the trailing trim. */
  lemma {:induction false} TrimAppendPadded(s: string, q: string)
    requires AllWhitespace(q)
    ensures Trim(s + q) == Trim(s)
  {
    if s == [] {
      TrimStartPadded(q, []);
      assert q + [] == q && s + q == q;
    } else if IsJsWhitespace(s[0]) {
      assert (s + q)[0] == s[0];
      assert (s + q)[1..] == s[1..] + q;
      TrimAppendPadded(s[1..], q);
    } else {
      assert (s + q)[0] == s[0];
      TrimEndPadded(s, q);
    }
  }

  /** Surrounding whitespace of any kind leaves the normalised line unchanged. */
  lemma NormaliseIgnoresPadding(p: string, line: string, q: string)
    requires AllWhitespace(p) && AllWhitespace(q)
    ensures Normalise(p + line + q) == Normalise(line)
  {
    assert p + line + q == p + (line + q);
    TrimStartPadded(p, line + q);
    TrimAppendPadded(line, q);
  }
}
