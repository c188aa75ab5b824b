/** Concrete texts whose plan has more parts than allowed, or does not carry all of the text. */
module PlanExamples {
  import opened Numbers
  import opened Sequences
  import opened Text
  import opened Delimiters
  import opened LongRun
  import opened Breath
  import opened Packing
  import opened Islands
  import opened PartPlan

  const HEAD := "bbb bbb bbb"
  const TAIL := "bbb bbb"
  const MIDDLE := HEAD + " " + TAIL
  const TEXT := HEAD + " " + MIDDLE

  /** Only the letter b and the space: nothing the planner's tables know. */
  ghost predicate Dull(s: string) { forall i :: 0 <= i < |s| ==> s[i] == 'b' || s[i] == ' ' }

  lemma TermsStartOtherwise(k: nat)
    requires k < |DEFAULT_TERMS|
    ensures DEFAULT_TERMS[k] != "" && LowerChar(DEFAULT_TERMS[k][0]) !in {'b', ' '}
  {
  }

  lemma TermStartsOtherwise(term: string)
    requires term in DEFAULT_TERMS
    ensures term != "" && LowerChar(term[0]) !in {'b', ' '}
  {
    var k :| 0 <= k < |DEFAULT_TERMS| && DEFAULT_TERMS[k] == term;
    TermsStartOtherwise(k);
  }

  lemma NoOccurrence(s: string, term: string, i: int)
    requires Dull(s) && term != "" && LowerChar(term[0]) !in {'b', ' '}
    ensures !OccursAt(s, term, i)
  {
    if 0 <= i && i + |term| <= |s| {
      assert Lower(s[i..i + |term|])[0] == LowerChar(s[i]);
      assert Lower(term)[0] == LowerChar(term[0]);
    }
  }

  lemma NoTerm(s: string, i: int, j: int)
    requires Dull(s)
    ensures !TermSpan(s, DEFAULT_TERMS, i, j)
  {
    hide Dull, LowerChar, OccursAt;
    if TermSpan(s, DEFAULT_TERMS, i, j) {
      var term :| term in DEFAULT_TERMS && OccursAt(s, term, i) && j == i + |term|;
      TermStartsOtherwise(term);
      NoOccurrence(s, term, i);
    }
  }

  lemma AllCutsSafe(s: string, cut: int)
    requires Dull(s) && 0 < cut < |s|
    ensures Safe(s, cut, DEFAULT_TERMS)
  {
    hide TermSpan;
    forall i, j ensures !TermSpan(s, DEFAULT_TERMS, i, j) { NoTerm(s, i, j); }
  }

  lemma PrefixStartsOtherwise(p: string)
    requires p in DEFAULT_TABLES.cutBefore
    ensures p != "" && 'b' < p[0]
  {
  }

  lemma NoPrefix(right: string)
    requires Dull(right)
    ensures !StartsWithAny(right, DEFAULT_TABLES.cutBefore)
  {
    assert right != "" ==> right[0] <= 'b';
    forall p | p in DEFAULT_TABLES.cutBefore ensures !(p <= right) { PrefixStartsOtherwise(p); }
  }

  /** In a dull text a cut scores its distance to the wanted one. */
  lemma DullScore(s: string, cut: int, desired: int)
    requires Dull(s) && 0 < cut < |s|
    ensures CutScore(s, cut, desired, DEFAULT_TABLES) == if cut < desired then desired - cut else cut - desired
  {
    hide StartsWithAny;
    NoPrefix(s[cut..]);
    assert Last(s[..cut]) == s[cut - 1] && s[cut..][0] == s[cut];
  }

  /** So it is cut exactly where the limit says. */
  lemma CutAtLimit(s: string, max: nat)
    requires Dull(s) && 0 < max < |s| && WindowLow(s, max) <= max <= WindowHigh(s, max)
    ensures ChooseCut(s, max, DEFAULT_TABLES) == max
  {
    hide CutScore, ChooseCut, Safe;
    AllCutsSafe(s, max);
    ChooseCutFacts(s, max, DEFAULT_TABLES);
    var cut := ChooseCut(s, max, DEFAULT_TABLES);
    DullScore(s, cut, max);
    DullScore(s, max, max);
  }

  lemma DullText()
    ensures Dull(HEAD) && Dull(TAIL) && Dull(MIDDLE) && Dull(TEXT)
    ensures Trimmed(HEAD) && Trimmed(TAIL) && Trimmed(MIDDLE) && Trimmed(TEXT)
    ensures |TAIL| == 7 && |MIDDLE| == 19 && |TEXT| == 31
  {
  }

  /** 24 characters, cut at 12 positions: three pieces of 9, 9 and 6 characters. */
  lemma ThreePieces()
    ensures SplitRun(TEXT, 12, DEFAULT_TABLES) == [HEAD, HEAD, TAIL]
  {
    hide Strip, IsSpace, ChooseCut, Chunks, Dull, Trimmed;
    DullText();
    StripTrimmed(TEXT);
    CutAtLimit(TEXT, 12);
    ChunksStep(TEXT, 12, DEFAULT_TABLES);
    Halves(MIDDLE);
    CutAtLimit(MIDDLE, 12);
    ChunksStep(MIDDLE, 12, DEFAULT_TABLES);
    Halves(TAIL);
    LastChunk();
  }

  lemma LastChunk()
    ensures Chunks(TAIL, 12, DEFAULT_TABLES) == [TAIL]
  {
    hide Strip, IsSpace;
    DullText();
    StripTrimmed(TAIL);
  }

  lemma Halves(rest: string)
    requires Trimmed(rest)
    ensures Strip((HEAD + " " + rest)[..12]) == HEAD && Strip((HEAD + " " + rest)[12..]) == rest
  {
    hide IsSpace;
    var s := HEAD + " " + rest;
    assert s[..12] == HEAD + " " && s[12..] == rest;
    DullText();
    StripTrimmed(rest);
    TrailingSpace();
  }

  lemma TrailingSpace()
    ensures Strip(HEAD + " ") == HEAD
  {
    var s := HEAD + " ";
    assert LStrip(s) == s && Init(s) == HEAD && Last(s) == ' ';
    assert RStrip(HEAD) == HEAD;
  }

  lemma PieceCounts()
    ensures CountChars(HEAD) == 9 && CountChars(TAIL) == 6 && CountChars(TEXT) == 24
  {
    assert CountChars(" ") == 0;
    assert CountChars("bbb") == 3;
    assert HEAD == "bbb" + (" " + ("bbb" + (" " + "bbb"))) && TAIL == "bbb" + (" " + "bbb");
    hide Squeeze;
    SqueezeConcat(" ", "bbb");
    SqueezeConcat("bbb", " " + "bbb");
    SqueezeConcat(" ", TAIL);
    SqueezeConcat("bbb", " " + TAIL);
    SqueezeConcat(HEAD + " ", TAIL);
    SqueezeConcat(HEAD, " ");
    SqueezeConcat(HEAD + " ", MIDDLE);
  }

  lemma WholeTextIsOneGroup(args: PlanArgs)
    requires args.tables == DEFAULT_TABLES && args.maxPartChars >= 24
    ensures BreathGroups(TEXT, args.maxPartChars, args.tables) == [TEXT]
  {
    hide Clauses, CountChars, SplitRun, FitOrSplitAll, Strip, NonBlankOnly, IsSpace;
    PieceCounts();
    DullText();
    StripTrimmed(TEXT);
    assert DelimiterFree(TEXT, IsHardBoundary);
    ClausesLast(TEXT, IsHardBoundary);
    assert Init([TEXT]) == [];
    assert ExpandAll([TEXT], args.maxPartChars, args.tables) == [TEXT];
    NonBlankOnlyKeeps([TEXT]);
  }

  /** Every piece is long enough to stand alone. */
  lemma PiecesStand(isAlnum: char -> bool)
    requires isAlnum('b')
    ensures MergeTiny([HEAD, HEAD, TAIL], isAlnum) == [HEAD, HEAD, TAIL]
  {
    hide Squeeze, MergeFrom;
    PieceCounts();
    assert HEAD[0] == 'b' && TAIL[0] == 'b';
    NonBlankOnlyKeeps([HEAD, HEAD, TAIL]);
    MergeFromStable([HEAD, HEAD, TAIL], 0, isAlnum);
  }

  /** Two parts are allowed, but the plan of this text of 24 characters has three: the
      packer leaves one part, and the run cut of that yields three pieces. */
  lemma PlanCanExceedLimit(sec: real, args: PlanArgs)
    requires args.maxParts == 2 && args.maxPartChars >= 24 && args.forceBreaks == []
    requires args.tables == DEFAULT_TABLES && args.isAlnum('b')
    ensures PlannedTexts(TEXT, sec, args) == [HEAD, HEAD, TAIL]
  {
    hide CountChars, Strip, SplitRun, BreathGroups, IsSpace, MergeTiny, Enforce, PartCountFor;
    DullText();
    StripTrimmed(TEXT);
    PieceCounts();
    WholeTextIsOneGroup(args);
    ThreePieces();
    assert HalfChars(TEXT) == 12;
    PartCountSuffices(24, sec, args);
    assert FirstParts(TEXT, sec, args) == [HEAD, HEAD, TAIL];
    FullListStays([HEAD, HEAD, TAIL], sec, args);
    PiecesStand(args.isAlnum);
  }

  // ---------------------------------------------------------------- a text that is not carried completely

  const MORE := "bbbb"
  const TWO_LINES := TEXT + "\n" + MORE

  function ThreeParts(isAlnum: char -> bool): PlanArgs {
    PlanArgs(1.0, 150, 0, 3, 0.0, [], isAlnum, DEFAULT_TABLES)
  }

  lemma TwoClauses()
    ensures Clauses(TWO_LINES, IsHardBoundary) == [TEXT, MORE]
    ensures Trimmed(TWO_LINES) && Trimmed(MORE) && CountChars(MORE) == 4
  {
    hide Clauses, Strip, IsSpace;
    DullText();
    assert DelimiterFree(TEXT, IsHardBoundary) && DelimiterFree(MORE, IsHardBoundary);
    assert TWO_LINES == TEXT + ['\n'] + MORE;
    ClausesStep(TEXT, '\n', MORE, IsHardBoundary);
    ClausesLast(MORE, IsHardBoundary);
    LineEndStrips();
    StripTrimmed(MORE);
  }

  lemma LineEndStrips()
    ensures Strip(TEXT + ['\n']) == TEXT
    ensures Trimmed(TWO_LINES) && Trimmed(MORE)
  {
    var s := TEXT + ['\n'];
    DullText();
    assert LStrip(s) == s && Init(s) == TEXT && Last(s) == '\n';
    assert RStrip(TEXT) == TEXT;
  }

  /** Each line is a part of its own. */
  lemma TwoParts(isAlnum: char -> bool)
    ensures FirstParts(TWO_LINES, 10.0, ThreeParts(isAlnum)) == [TEXT, MORE]
  {
    hide Clauses, CountChars, SplitRun, FitOrSplitAll, Strip, NonBlankOnly, IsSpace, TotalChars, CeilReal;
    PieceCounts();
    DullText();
    TwoClauses();
    StripTrimmed(TWO_LINES);
    assert Init([TEXT]) == [] && Init([TEXT, MORE]) == [TEXT];
    assert ExpandAll([TEXT], 150, DEFAULT_TABLES) == [TEXT];
    assert ExpandAll([TEXT, MORE], 150, DEFAULT_TABLES) == [TEXT, MORE];
    NonBlankOnlyKeeps([TEXT, MORE]);
  }

  /** The first part is estimated at more than 8 of the 10 seconds and is the one to split. */
  lemma FirstIsWorst()
    ensures var seconds := Estimates([TEXT, MORE], 10.0, 0.0);
            seconds != [] && WorstIndex(seconds) == 0 && seconds[0] > 8.0
  {
    hide CountChars, TotalChars, WorstIndex, IsSpace;
    PieceCounts();
    TwoClauses();
    var parts := [TEXT, MORE];
    TotalCharsTwo(TEXT, MORE);
    WorstIsFirstLongest(parts, 10.0, 0.0);
    assert Estimates(parts, 10.0, 0.0)[0] == PartSeconds(24, 28, 10.0);
  }

  lemma FirstSplitsInThree(isAlnum: char -> bool)
    ensures |SplitOnce(TEXT, ThreeParts(isAlnum))| == 3
  {
    hide CountChars, Strip, SplitRun, BreathGroups, IsSpace;
    PieceCounts();
    WholeTextIsOneGroup(ThreeParts(isAlnum));
    ThreePieces();
    assert HalfChars(TEXT) == 12;
  }

  /** With three parts allowed, splitting the first of two parts has one free slot for two
      new pieces: the slice fires and the plan loses visible text. */
  lemma PlanCanDropText(isAlnum: char -> bool)
    ensures PlanSlices(TWO_LINES, 10.0, ThreeParts(isAlnum))
    ensures !Conserves(PlannedTexts(TWO_LINES, 10.0, ThreeParts(isAlnum)), TWO_LINES)
  {
    hide Squeeze, FirstParts, SplitOnce, Estimates, Join, PlannedTexts, WorstIndex;
    var args := ThreeParts(isAlnum);
    TwoParts(isAlnum);
    FirstIsWorst();
    FirstSplitsInThree(isAlnum);
    assert Resplits([TEXT, MORE], 10.0, args) && SliceFires([TEXT, MORE], 10.0, args);
    PlanConservesText(TWO_LINES, 10.0, args);
  }
}
