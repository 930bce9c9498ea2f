/**
 * Worked lines for the classification: which lines open, which close, and what
 * each contributes to the counter. Positive cases are shown by exhibiting the
 * match; negative ones by following the search position by position, or by the
 * whole-word lemma for lines that are one word.
 */
module ClassifyExamples {
  import opened Text
  import opened WordRegex
  import opened Classify

  /** `if .* then` opens when `then` ends at a word boundary. */
  lemma IfThenOpens()
    ensures IsOpener("if x then.")
  {
    FoundAt("if x then.", OpenerAlts, 0, 9, 0);
  }

  /** `if` without `then` opens nothing. */
  lemma IfWithoutThenDoesNotOpen()
    ensures !IsOpener("if x")
  {
    assert SearchFrom("if x", OpenerAlts, 4) == None;
    assert SearchFrom("if x", OpenerAlts, 3) == None;
    assert SearchFrom("if x", OpenerAlts, 2) == None;
    assert SearchFrom("if x", OpenerAlts, 1) == None;
  }

  /** `end if` has no `then`: it closes and does not open. */
  lemma EndIfOnlyCloses()
    ensures !IsOpener("end if") && IsCloser("end if")
  {
    assert SearchFrom("end if", OpenerAlts, 6) == None;
    assert SearchFrom("end if", OpenerAlts, 5) == None;
    assert SearchFrom("end if", OpenerAlts, 4) == None;
    assert SearchFrom("end if", OpenerAlts, 3) == None;
    assert SearchFrom("end if", OpenerAlts, 2) == None;
    assert SearchFrom("end if", OpenerAlts, 1) == None;
    FoundAt("end if", CloserAlts, 0, 6, 0);
  }

  /** A line that is a single word opens only if it is one of the literal opener words. */
  lemma SingleWordOpener(s: string)
    requires s != [] && AllWord(s)
    ensures IsOpener(s) <==> Word(s) in OpenerAlts
  {
    AltsAreWordShaped();
    ExecSpec(s, OpenerAlts);
    WholeWordOnly(s, OpenerAlts);
  }

  /** `entry` holds `try` only inside a word. */
  lemma EntryDoesNotOpen()
    ensures !IsOpener("entry")
  {
    assert AllWord("entry");
    SingleWordOpener("entry");
  }

  /** `undefined` holds `define` only inside a word. */
  lemma UndefinedDoesNotOpen()
    ensures !IsOpener("undefined")
  {
    assert AllWord("undefined");
    SingleWordOpener("undefined");
  }

  /** `meanwhile` holds `while` only inside a word. */
  lemma MeanwhileDoesNotOpen()
    ensures !IsOpener("meanwhile")
  {
    assert AllWord("meanwhile");
    SingleWordOpener("meanwhile");
  }

  /** `end while` is its own normal form and is not skipped. */
  lemma EndWhileIsNormal()
    ensures Normalise("end while") == "end while" && !Skipped("end while")
  {
    NormaliseFixed("end while");
    NotSkippedByFirst("end while");
  }

  /** `end while` holds `while` at a word boundary, so it matches both patterns. */
  lemma EndWhileMatchesBoth()
    ensures IsOpener("end while") && IsCloser("end while")
  {
    FoundAt("end while", OpenerAlts, 4, 9, 1);
    FoundAt("end while", CloserAlts, 0, 9, 2);
  }

  /** `end while` therefore contributes nothing to the counter. */
  lemma EndWhileContributesNothing()
    ensures Delta("end while") == 0
  {
    EndWhileIsNormal();
    EndWhileMatchesBoth();
  }

  lemma EndTryIsNormal()
    ensures Normalise("end try") == "end try" && !Skipped("end try")
  {
    NormaliseFixed("end try");
    NotSkippedByFirst("end try");
  }

  /** `end try` holds `try` at a word boundary, so it matches both patterns. */
  lemma EndTryMatchesBoth()
    ensures IsOpener("end try") && IsCloser("end try")
  {
    FoundAt("end try", OpenerAlts, 4, 7, 7);
    FoundAt("end try", CloserAlts, 0, 7, 13);
  }

  /** `end try` contributes nothing to the counter. */
  lemma EndTryContributesNothing()
    ensures Delta("end try") == 0
  {
    EndTryIsNormal();
    EndTryMatchesBoth();
  }

  lemma EndDefineIsNormal()
    ensures Normalise("end define") == "end define" && !Skipped("end define")
  {
    NormaliseFixed("end define");
    NotSkippedByFirst("end define");
  }

  /** `end define` holds `define` at a word boundary, so it matches both patterns. */
  lemma EndDefineMatchesBoth()
    ensures IsOpener("end define") && IsCloser("end define")
  {
    FoundAt("end define", OpenerAlts, 4, 10, 2);
    FoundAt("end define", CloserAlts, 0, 10, 4);
  }

  /** `end define` contributes nothing to the counter. */
  lemma EndDefineContributesNothing()
    ensures Delta("end define") == 0
  {
    EndDefineIsNormal();
    EndDefineMatchesBoth();
  }

  lemma EndFunctionIsNormal()
    ensures Normalise("end function") == "end function" && !Skipped("end function")
  {
    NormaliseFixed("end function");
    NotSkippedByFirst("end function");
  }

  /** `end function` holds `function` at a word boundary, so it matches both patterns. */
  lemma EndFunctionMatchesBoth()
    ensures IsOpener("end function") && IsCloser("end function")
  {
    FoundAt("end function", OpenerAlts, 4, 12, 3);
    FoundAt("end function", CloserAlts, 0, 12, 5);
  }

  /** `end function` contributes nothing to the counter. */
  lemma EndFunctionContributesNothing()
    ensures Delta("end function") == 0
  {
    EndFunctionIsNormal();
    EndFunctionMatchesBoth();
  }

  lemma EndProcedureIsNormal()
    ensures Normalise("end procedure") == "end procedure" && !Skipped("end procedure")
  {
    NormaliseFixed("end procedure");
    NotSkippedByFirst("end procedure");
  }

  /** `end procedure` holds `procedure` at a word boundary, so it matches both patterns. */
  lemma EndProcedureMatchesBoth()
    ensures IsOpener("end procedure") && IsCloser("end procedure")
  {
    FoundAt("end procedure", OpenerAlts, 4, 13, 4);
    FoundAt("end procedure", CloserAlts, 0, 13, 7);
  }

  /** `end procedure` contributes nothing to the counter. */
  lemma EndProcedureContributesNothing()
    ensures Delta("end procedure") == 0
  {
    EndProcedureIsNormal();
    EndProcedureMatchesBoth();
  }

  lemma EndwhileIsNormal()
    ensures Normalise("endwhile") == "endwhile" && !Skipped("endwhile")
  {
    NormaliseFixed("endwhile");
    NotSkippedByFirst("endwhile");
  }

  /** `endwhile` has no boundary before `while`: it closes and does not open. */
  lemma EndwhileOnlyCloses()
    ensures !IsOpener("endwhile") && IsCloser("endwhile")
  {
    assert AllWord("endwhile");
    SingleWordOpener("endwhile");
    FoundAt("endwhile", CloserAlts, 0, 8, 3);
  }

  /** `endwhile` takes one block off the counter. */
  lemma EndwhileCloses()
    ensures Delta("endwhile") == -1
  {
    EndwhileIsNormal();
    EndwhileOnlyCloses();
  }

  /** `for ` opens when a word follows its space. */
  lemma ForEachOpens()
    ensures IsOpener("for each item in list")
  {
    FoundAt("for each item in list", OpenerAlts, 0, 4, 6);
  }

  /** `for ` followed by a second space is not followed by `\b`. */
  lemma ForWithoutWordDoesNotOpen()
    ensures !IsOpener("for  x")
  {
    assert SearchFrom("for  x", OpenerAlts, 6) == None;
    assert SearchFrom("for  x", OpenerAlts, 5) == None;
    assert SearchFrom("for  x", OpenerAlts, 4) == None;
    assert SearchFrom("for  x", OpenerAlts, 3) == None;
    assert SearchFrom("for  x", OpenerAlts, 2) == None;
    assert SearchFrom("for  x", OpenerAlts, 1) == None;
  }

  /** `end for` has nothing after `for`: it closes and does not open. */
  lemma EndForOnlyCloses()
    ensures !IsOpener("end for") && IsCloser("end for")
  {
    assert SearchFrom("end for", OpenerAlts, 7) == None;
    assert SearchFrom("end for", OpenerAlts, 6) == None;
    assert SearchFrom("end for", OpenerAlts, 5) == None;
    assert SearchFrom("end for", OpenerAlts, 4) == None;
    assert SearchFrom("end for", OpenerAlts, 3) == None;
    assert SearchFrom("end for", OpenerAlts, 2) == None;
    assert SearchFrom("end for", OpenerAlts, 1) == None;
    FoundAt("end for", CloserAlts, 0, 7, 11);
  }

  /** `End While`, in any letter case and with any padding, contributes nothing. */
  lemma PaddedEndWhileContributesNothing(p: string, raw: string, q: string)
    requires AllWhitespace(p) && AllWhitespace(q)
    requires ToLower(raw) == ToLower("end while")
    ensures Delta(p + raw + q) == 0
  {
    DeltaIgnoresPadding(p, raw, q);
    DeltaIgnoresCase(raw, "end while");
    EndWhileContributesNothing();
  }
}

/**
 * Whole documents: a balanced `while` block leaves the counter at one, because
 * its `end while` line also holds the opener word `while`.
 */
module ScanExamples {
  import opened Text
  import opened Lines
  import opened WordRegex
  import opened Classify
  import opened BlockScan

  lemma WhileLineIsNormal()
    ensures Normalise("while x.") == "while x." && !Skipped("while x.")
  {
    NormaliseFixed("while x.");
    NotSkippedByFirst("while x.");
  }

  /** `while x.` opens and does not close. */
  lemma WhileLineOnlyOpens()
    ensures IsOpener("while x.") && !IsCloser("while x.")
  {
    var s := "while x.";
    FoundAt(s, OpenerAlts, 0, 5, 1);
    CloserCannotStartAt(s, 8);
    assert SearchFrom(s, CloserAlts, 8) == None;
    CloserCannotStartAt(s, 7);
    assert SearchFrom(s, CloserAlts, 7) == None;
    CloserCannotStartAt(s, 6);
    assert SearchFrom(s, CloserAlts, 6) == None;
    CloserCannotStartAt(s, 5);
    assert SearchFrom(s, CloserAlts, 5) == None;
    assert SearchFrom(s, CloserAlts, 4) == None;
    assert SearchFrom(s, CloserAlts, 3) == None;
    assert SearchFrom(s, CloserAlts, 2) == None;
    assert SearchFrom(s, CloserAlts, 1) == None;
    CloserCannotStartAt(s, 0);
  }

  lemma WhileLineOpens()
    ensures Delta("while x.") == 1
  {
    WhileLineIsNormal();
    WhileLineOnlyOpens();
  }

  lemma EndWhileLineIsNormal()
    ensures Normalise("end while.") == "end while." && !Skipped("end while.")
  {
    NormaliseFixed("end while.");
    NotSkippedByFirst("end while.");
  }

  lemma EndWhileLineMatchesBoth()
    ensures IsOpener("end while.") && IsCloser("end while.")
  {
    FoundAt("end while.", OpenerAlts, 4, 9, 1);
    FoundAt("end while.", CloserAlts, 0, 9, 2);
  }

  lemma EndWhileLineCancels()
    ensures Delta("end while.") == 0
  {
    EndWhileLineIsNormal();
    EndWhileLineMatchesBoth();
  }

  lemma WhileDocumentLines()
    ensures SplitLines("while x.\nend while.") == ["while x.", "end while."]
  {
    var lines := ["while x.", "end while."];
    assert Join(lines) == "while x.\nend while.";
    SplitJoin(lines);
  }

  lemma TwoLineCount(a: string, b: string)
    ensures BlockCount([a, b]) == Delta(a) + Delta(b)
  {
    var lines := [a, b];
    assert lines[..1] == [a] && [a][..0] == [];
    assert BlockCount([a]) == BlockCount([]) + Delta(a);
    assert BlockCount(lines) == BlockCount(lines[..1]) + Delta(b);
  }

  /** A `while` block closed by `end while` leaves the counter at one, not zero. */
  lemma BalancedWhileLeavesOne()
    ensures BlockCount(SplitLines("while x.\nend while.")) == 1
  {
    WhileDocumentLines();
    TwoLineCount("while x.", "end while.");
    WhileLineOpens();
    EndWhileLineCancels();
  }
}
