/**
 * Classification of one document line by the block-balance check: the line is
 * normalised, blank and comment lines are skipped, and the rest are tested
 * against the opener and closer patterns.
 */
module Classify {
  import opened Text
  import opened WordRegex

  /** `/\b(if .* then|while|define|function|procedure|repeat .* times|for |try|text block)\b/` */
  const OpenerAlts: seq<Alt> := [
    Gap("if ", " then"), Word("while"), Word("define"), Word("function"), Word("procedure"),
    Gap("repeat ", " times"), Word("for "), Word("try"), Word("text block")
  ]

  /**
   * `/\b(end if|endif|end while|endwhile|end define|end function|endfunction|end procedure|`
   * `endprocedure|end repeat|next|end for|endfor|end try|end text)\b/`
   */
  const CloserAlts: seq<Alt> := [
    Word("end if"), Word("endif"), Word("end while"), Word("endwhile"), Word("end define"),
    Word("end function"), Word("endfunction"), Word("end procedure"), Word("endprocedure"),
    Word("end repeat"), Word("next"), Word("end for"), Word("endfor"), Word("end try"),
    Word("end text")
  ]

  /** `s.startsWith(prefix)`. */
  predicate StartsWith(s: string, prefix: string) {
    HasAt(s, 0, prefix)
  }

  /** A normalised line the scan passes over: blank, a `//` comment or a `note` line. */
  predicate Skipped(line: string) {
    line == [] || StartsWith(line, "//") || StartsWith(line, "note")
  }

  /** A normalised line that starts with neither `/` nor `n` is not skipped. */
  lemma NotSkippedByFirst(line: string)
    requires line != [] && line[0] != '/' && line[0] != 'n'
    ensures !Skipped(line)
  {
  }

  /** The opener pattern occurs in the normalised line. */
  predicate IsOpener(line: string) {
    Exec(line, OpenerAlts).Some?
  }

  /** The closer pattern occurs in the normalised line. */
  predicate IsCloser(line: string) {
    Exec(line, CloserAlts).Some?
  }

  /** A raw document line that counts as an opener. */
  predicate Opens(raw: string) {
    var line := Normalise(raw);
    !Skipped(line) && IsOpener(line)
  }

  /** A raw document line that counts as a closer. */
  predicate Closes(raw: string) {
    var line := Normalise(raw);
    !Skipped(line) && IsCloser(line)
  }

  /** What one raw line adds to the running `blocks` counter. */
  function Delta(raw: string): (d: int)
    ensures -1 <= d <= 1
    ensures d == 1 <==> Opens(raw) && !Closes(raw)
    ensures d == -1 <==> Closes(raw) && !Opens(raw)
    ensures Skipped(Normalise(raw)) ==> d == 0
  {
    (if Opens(raw) then 1 else 0) - (if Closes(raw) then 1 else 0)
  }

  /** The opener and closer alternatives meet the conditions of WordRegex.WholeWordOnly. */
  lemma AltsAreWordShaped()
    ensures forall k :: 0 <= k < |OpenerAlts| ==> match OpenerAlts[k] case Word(w) => w != [] case Gap(h, _) => !AllWord(h)
    ensures forall k :: 0 <= k < |CloserAlts| ==> match CloserAlts[k] case Word(w) => w != [] case Gap(h, _) => !AllWord(h)
  {
    assert !IsWordChar(" "[0]);
    assert "if "[2] == ' ' && "repeat "[6] == ' ';
  }

  /** Every closer alternative starts with `e` or `n`, so none can start at any other character. */
  lemma CloserCannotStartAt(s: string, i: nat)
    requires i <= |s|
    requires i < |s| ==> s[i] != 'e' && s[i] != 'n'
    ensures FirstAlt(s, CloserAlts, i, 0) == None
  {
    assert forall m :: 0 <= m < |CloserAlts| ==> Head(CloserAlts[m]) != [] && (Head(CloserAlts[m])[0] == 'e' || Head(CloserAlts[m])[0] == 'n');
    FirstAltMiss(s, CloserAlts, i, 0);
  }

  /** Trimming and lower-casing make the line's contribution independent of letter case. */
  lemma DeltaIgnoresCase(a: string, b: string)
    requires ToLower(a) == ToLower(b)
    ensures Delta(a) == Delta(b)
  {
    NormaliseIgnoresCase(a, b);
  }

  /** Whitespace around a line does not change its contribution. */
  lemma DeltaIgnoresPadding(p: string, line: string, q: string)
    requires AllWhitespace(p) && AllWhitespace(q)
    ensures Delta(p + line + q) == Delta(line)
  {
    NormaliseIgnoresPadding(p, line, q);
  }

  /**
   * A line whose first non-blank characters are `//` or `note` is skipped and
   * contributes nothing, whatever follows.
   */
  lemma MarkedLineSkipped(pad: string, mark: string, rest: string)
    requires AllWhitespace(pad)
    requires mark == "//" || mark == "note"
    ensures Skipped(Normalise(pad + mark + rest))
    ensures Delta(pad + mark + rest) == 0
  {
    var line := mark + rest;
    NormaliseIgnoresPadding(pad, line, []);
    assert pad + line + [] == pad + mark + rest;
    assert line[0] == mark[0] && TrimStart(line) == line;
    TrimEndKeeps(line, |mark| - 1);
    var trimmed := TrimEnd(line);
    var r := Normalise(line);
    assert r == ToLower(trimmed) && |r| == |trimmed|;
    assert forall k :: 0 <= k < |mark| ==> line[k] == mark[k] && !IsAsciiUpper(mark[k]);
    assert r[..|mark|] == mark;
    HasAtSlice(r, 0, mark);
  }

  /** A line that matches both patterns contributes nothing. */
  lemma BothPatternsCancel(raw: string)
    requires !Skipped(Normalise(raw))
    requires IsOpener(Normalise(raw)) && IsCloser(Normalise(raw))
    ensures Delta(raw) == 0
  {
  }
}
