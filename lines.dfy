/**
 * `text.split(/\r?\n/)`: the document is cut at every `\n`, and a `\r` standing
 * right before that `\n` belongs to the separator. A lone `\r` stays in its line,
 * and the empty document is one empty line.
 */
module Lines {

  /** The number of `\n` characters in `s`. */
  function NewlineCount(s: string): nat {
    multiset(s)['\n']
  }

  /** Position of the first occurrence of `c` in `s`. */
  function IndexOf(s: string, c: char): (k: nat)
    requires c in s
    ensures k < |s| && s[k] == c && c !in s[..k]
  {
    if s[0] == c then 0 else 1 + IndexOf(s[1..], c)
  }

  /** The line in front of a separator that starts at `k`: a `\r` before the `\n` is dropped. */
  function LineBefore(text: string, k: nat): string
    requires k <= |text|
  {
    if 0 < k && text[k - 1] == '\r' then text[..k - 1] else text[..k]
  }

  /**
   * The lines of `text`, in order. The leftmost match of `\r?\n` begins at the
   * `\r` that precedes the first `\n`, if there is one, and ends after that `\n`.
   */
  function SplitLines(text: string): (lines: seq<string>)
    ensures lines != []
    ensures forall k :: 0 <= k < |lines| ==> '\n' !in lines[k]
    decreases |text|
  {
    if '\n' !in text then
      [text]
    else
      var k := IndexOf(text, '\n');
      [LineBefore(text, k)] + SplitLines(text[k + 1..])
  }

  /** `lines.join("\n")`. */
  function Join(lines: seq<string>): (text: string)
    requires lines != []
    ensures |text| + 1 >= |lines|
  {
    if |lines| == 1 then lines[0] else lines[0] + "\n" + Join(lines[1..])
  }

  /** `text` with every `\r\n` pair replaced by `\n`; a lone `\r` is kept. */
  function CrLfToLf(text: string): (r: string)
    ensures |r| <= |text|
  {
    if |text| >= 2 && text[0] == '\r' && text[1] == '\n' then "\n" + CrLfToLf(text[2..])
    else if text == [] then []
    else [text[0]] + CrLfToLf(text[1..])
  }

  /** A line that neither contains a `\n` nor ends with `\r` passes through CrLfToLf unchanged, together with what follows. */
  lemma {:induction false} CrLfToLfPrefix(line: string, rest: string)
    requires '\n' !in line
    requires rest != [] ==> rest[0] != '\n' || line == [] || line[|line| - 1] != '\r'
    ensures CrLfToLf(line + rest) == line + CrLfToLf(rest)
  {
    if line != [] {
      var t := line + rest;
      assert t[0] == line[0] && t[1..] == line[1..] + rest;
      if |line| >= 2 {
        assert t[1] == line[1];
      } else if rest != [] {
        assert t[1] == rest[0];
      }
      assert line[1..] != [] ==> line[1..][|line[1..]| - 1] == line[|line| - 1];
      CrLfToLfPrefix(line[1..], rest);
    } else {
      assert line + rest == rest;
    }
  }

  /** The first separator of a document that has one: `text` is `line + sep + rest`. */
  lemma SplitFirst(text: string) returns (line: string, sep: string, rest: string)
    requires '\n' in text
    ensures text == line + sep + rest
    ensures sep == "\n" || sep == "\r\n"
    ensures '\n' !in line
    ensures sep == "\n" ==> line == [] || line[|line| - 1] != '\r'
    ensures |rest| < |text|
    ensures SplitLines(text) == [line] + SplitLines(rest)
  {
    var k := IndexOf(text, '\n');
    rest := text[k + 1..];
    line := LineBefore(text, k);
    if 0 < k && text[k - 1] == '\r' {
      sep := "\r\n";
      assert text[..k] == line + "\r";
      assert line == text[..k][..k - 1];
    } else {
      sep := "\n";
    }
    assert text == text[..k] + "\n" + rest;
  }

  /** Splitting on `/\r?\n/` yields one more line than the text has `\n` characters. */
  lemma {:induction false} LineCount(text: string)
    ensures |SplitLines(text)| == NewlineCount(text) + 1
    decreases |text|
  {
    if '\n' !in text {
      assert multiset(text)['\n'] == 0;
    } else {
      var line, sep, rest := SplitFirst(text);
      LineCount(rest);
      assert multiset(text) == multiset(line) + multiset(sep) + multiset(rest);
      assert multiset(line)['\n'] == 0;
      assert multiset(sep)['\n'] == 1;
    }
  }

  /** Joining the lines back with `\n` gives the document with its `\r\n` pairs turned into `\n`. */
  lemma {:induction false} JoinSplit(text: string)
    ensures Join(SplitLines(text)) == CrLfToLf(text)
    decreases |text|
  {
    if '\n' !in text {
      CrLfToLfPrefix(text, []);
      assert text + [] == text;
    } else {
      var line, sep, rest := SplitFirst(text);
      JoinSplit(rest);
      calc {
        Join(SplitLines(text));
        { JoinCons(line, SplitLines(rest)); }
        line + "\n" + CrLfToLf(rest);
        { ConcatAssoc(line, "\n", CrLfToLf(rest)); CrLfToLfSeparator(sep, rest); }
        line + CrLfToLf(sep + rest);
        { CrLfToLfPrefix(line, sep + rest); }
        CrLfToLf(line + (sep + rest));
        { ConcatAssoc(line, sep, rest); }
        CrLfToLf(text);
      }
    }
  }

  /** Joining a line in front of further lines puts a `\n` between them. */
  lemma JoinCons(line: string, lines: seq<string>)
    requires lines != []
    ensures Join([line] + lines) == line + "\n" + Join(lines)
  {
    var all := [line] + lines;
    assert all[0] == line && all[1..] == lines;
  }

  lemma CrLfToLfSeparator(sep: string, rest: string)
    requires sep == "\n" || sep == "\r\n"
    ensures CrLfToLf(sep + rest) == "\n" + CrLfToLf(rest)
  {
    var t := sep + rest;
    if sep == "\r\n" {
      assert t[0] == '\r' && t[1] == '\n' && t[2..] == rest;
    } else {
      assert t[0] == '\n' && t[1..] == rest;
    }
  }

  lemma ConcatAssoc(a: string, b: string, c: string)
    ensures a + b + c == a + (b + c)
  {
  }

  /** A document without `\r` is rebuilt exactly by joining its lines. */
  lemma NoCrJoinSplit(text: string)
    requires '\r' !in text
    ensures Join(SplitLines(text)) == text
  {
    JoinSplit(text);
    CrLfToLfNoCr(text);
  }

  lemma {:induction false} CrLfToLfNoCr(text: string)
    requires '\r' !in text
    ensures CrLfToLf(text) == text
  {
    if text != [] {
      assert text == [text[0]] + text[1..];
      CrLfToLfNoCr(text[1..]);
    }
  }

  /** A line without `\n` and without a final `\r`, followed by `\n`, is split off first. */
  lemma SplitCons(line: string, rest: string)
    requires '\n' !in line
    requires line == [] || line[|line| - 1] != '\r'
    ensures SplitLines(line + "\n" + rest) == [line] + SplitLines(rest)
  {
    var text := line + "\n" + rest;
    assert text[|line|] == '\n';
    assert text[..|line|] == line;
    var k := IndexOf(text, '\n');
    assert k == |line|;
    assert text[k + 1..] == rest;
    assert LineBefore(text, k) == line by {
      if 0 < k {
        assert text[k - 1] == line[|line| - 1];
      }
    }
  }

  /**
   * Splitting undoes joining for lines that hold no `\n` and of which none but
   * the last ends with `\r` (such a `\r` would be read as part of the separator).
   */
  lemma {:induction false} SplitJoin(lines: seq<string>)
    requires lines != []
    requires forall k :: 0 <= k < |lines| ==> '\n' !in lines[k]
    requires forall k :: 0 <= k < |lines| - 1 ==> lines[k] == [] || lines[k][|lines[k]| - 1] != '\r'
    ensures SplitLines(Join(lines)) == lines
  {
    if |lines| > 1 {
      var rest := lines[1..];
      assert lines == [lines[0]] + rest;
      JoinCons(lines[0], rest);
      SplitCons(lines[0], Join(rest));
      SplitJoin(rest);
    }
  }
}
