/** Breath groups: sentences, then clauses, then cut runs (`split_breath_groups`). */
module Breath {
  import opened Sequences
  import opened Text
  import opened Delimiters
  import opened LongRun

  ghost function FitOrSplit(item: string, max: int, t: Tables): seq<string> {
    if CountChars(item) <= max then [item] else SplitRun(item, max, t)
  }

  ghost function FitOrSplitAll(items: seq<string>, max: int, t: Tables): seq<string> {
    if items == [] then []
    else FitOrSplitAll(Init(items), max, t) + FitOrSplit(Last(items), max, t)
  }

  /** A sentence that is too long is cut at commas, or as a run when it has at most one clause. */
  ghost function ExpandSentence(group: string, max: int, t: Tables): seq<string> {
    if CountChars(group) <= max then [group]
    else
      var soft := Clauses(group, IsSoftBoundary);
      if |soft| <= 1 then SplitRun(group, max, t) else FitOrSplitAll(soft, max, t)
  }

  ghost function ExpandAll(groups: seq<string>, max: int, t: Tables): seq<string> {
    if groups == [] then []
    else ExpandAll(Init(groups), max, t) + ExpandSentence(Last(groups), max, t)
  }

  ghost function BreathGroups(text: string, max: int, t: Tables): seq<string> {
    NonBlankOnly(ExpandAll(Clauses(Strip(text), IsHardBoundary), max, t))
  }

  method FitOrSplitEach(soft: seq<string>, max: int, t: Tables) returns (pieces: seq<string>)
    ensures pieces == FitOrSplitAll(soft, max, t)
  {
    hide CountChars, SplitRun;
    pieces := [];
    for m := 0 to |soft|
      invariant pieces == FitOrSplitAll(soft[..m], max, t)
    {
      assert Init(soft[..m + 1]) == soft[..m];
      if CountChars(soft[m]) <= max {
        pieces := pieces + [soft[m]];
      } else {
        var run := SplitLongRun(soft[m], max, t);
        pieces := pieces + run;
      }
    }
    assert soft[..|soft|] == soft;
  }

  method SplitBreathGroups(text: string, max: int, t: Tables) returns (result: seq<string>)
    ensures result == BreathGroups(text, max, t)
  {
    hide Strip, Clauses, SplitRun, CountChars, NonBlankOnly;
    var groups := SplitWithDelimiters(Strip(text), IsHardBoundary);
    ClausesEmpty(Strip(text), IsHardBoundary);
    StripFacts(text);
    StripTrimmed(Strip(text));
    if groups == [] && Strip(text) != "" {
      assert false;
    }
    var expanded := [];
    for k := 0 to |groups|
      invariant expanded == ExpandAll(groups[..k], max, t)
    {
      var group := groups[k];
      assert Init(groups[..k + 1]) == groups[..k];
      if CountChars(group) <= max {
        expanded := expanded + [group];
        continue;
      }
      var soft := SplitWithDelimiters(group, IsSoftBoundary);
      if |soft| <= 1 {
        var run := SplitLongRun(group, max, t);
        expanded := expanded + run;
      } else {
        var pieces := FitOrSplitEach(soft, max, t);
        expanded := expanded + pieces;
      }
    }
    assert groups[..|groups|] == groups;
    result := KeepNonBlank(expanded);
  }

  method KeepNonBlank(parts: seq<string>) returns (kept: seq<string>)
    ensures kept == NonBlankOnly(parts)
  {
    kept := [];
    for k := 0 to |parts|
      invariant kept == NonBlankOnly(parts[..k])
    {
      assert Init(parts[..k + 1]) == parts[..k];
      if Strip(parts[k]) != "" { kept := kept + [parts[k]]; }
    }
    assert parts[..|parts|] == parts;
  }

  lemma FitOrSplitFacts(item: string, max: int, t: Tables)
    requires item != "" && Trimmed(item)
    ensures Clean(FitOrSplit(item, max, t)) && Conserves(FitOrSplit(item, max, t), item)
  {
    SplitRunFacts(item, max, t);
    JoinOne(item);
  }

  lemma {:induction false} FitOrSplitAllFacts(items: seq<string>, max: int, t: Tables)
    requires Clean(items)
    ensures Clean(FitOrSplitAll(items, max, t)) && Conserves(FitOrSplitAll(items, max, t), Join(items))
  {
    hide Join, Squeeze, FitOrSplit, Trimmed;
    if items != [] {
      var front, last := Init(items), Last(items);
      assert items == front + [last];
      FitOrSplitAllFacts(front, max, t);
      FitOrSplitFacts(last, max, t);
      CleanConcat(FitOrSplitAll(front, max, t), FitOrSplit(last, max, t));
      SqueezeJoinConcat(FitOrSplitAll(front, max, t), FitOrSplit(last, max, t));
      SqueezeJoinSnoc(front, last);
    }
  }

  lemma ExpandSentenceFacts(group: string, max: int, t: Tables)
    requires group != "" && Trimmed(group)
    ensures Clean(ExpandSentence(group, max, t)) && Conserves(ExpandSentence(group, max, t), group)
  {
    hide Clauses, SplitRun, FitOrSplitAll, Squeeze;
    JoinOne(group);
    SplitRunFacts(group, max, t);
    ClausesFacts(group, IsSoftBoundary);
    FitOrSplitAllFacts(Clauses(group, IsSoftBoundary), max, t);
  }

  lemma {:induction false} ExpandAllFacts(groups: seq<string>, max: int, t: Tables)
    requires Clean(groups)
    ensures Clean(ExpandAll(groups, max, t)) && Conserves(ExpandAll(groups, max, t), Join(groups))
  {
    hide Join, Squeeze, ExpandSentence, Trimmed;
    if groups != [] {
      var front, last := Init(groups), Last(groups);
      assert groups == front + [last];
      ExpandAllFacts(front, max, t);
      ExpandSentenceFacts(last, max, t);
      CleanConcat(ExpandAll(front, max, t), ExpandSentence(last, max, t));
      SqueezeJoinConcat(ExpandAll(front, max, t), ExpandSentence(last, max, t));
      SqueezeJoinSnoc(front, last);
    }
  }

  /** Breath groups are clean and carry the whole text in order. */
  lemma BreathGroupsFacts(text: string, max: int, t: Tables)
    ensures Clean(BreathGroups(text, max, t))
    ensures Conserves(BreathGroups(text, max, t), text)
  {
    hide Clauses, ExpandAll, Squeeze, Join, Strip;
    StripFacts(text);
    var sentences := Clauses(Strip(text), IsHardBoundary);
    ClausesFacts(Strip(text), IsHardBoundary);
    ExpandAllFacts(sentences, max, t);
    CleanAllHaveChars(ExpandAll(sentences, max, t));
    NonBlankOnlyKeeps(ExpandAll(sentences, max, t));
  }

  // ---------------------------------------------------------------- when a text is cut further

  /** Items within the limit stay as they are. */
  lemma {:induction false} FittingItemsStay(items: seq<string>, max: int, t: Tables)
    requires forall k :: 0 <= k < |items| ==> CountChars(items[k]) <= max
    ensures FitOrSplitAll(items, max, t) == items
  {
    hide CountChars, SplitRun;
    if items != [] {
      assert CountChars(items[|items| - 1]) <= max;
      FittingItemsStay(Init(items), max, t);
    }
  }

  lemma {:induction false} FittingSentencesStay(groups: seq<string>, max: int, t: Tables)
    requires forall k :: 0 <= k < |groups| ==> CountChars(groups[k]) <= max
    ensures ExpandAll(groups, max, t) == groups
  {
    hide CountChars, SplitRun, Clauses, FitOrSplitAll;
    if groups != [] {
      assert CountChars(groups[|groups| - 1]) <= max;
      FittingSentencesStay(Init(groups), max, t);
    }
  }

  /** When every sentence is within the limit, the groups are the sentences. */
  lemma FittingSentencesAreGroups(text: string, max: int, t: Tables)
    requires forall s :: s in Clauses(Strip(text), IsHardBoundary) ==> CountChars(s) <= max
    ensures BreathGroups(text, max, t) == Clauses(Strip(text), IsHardBoundary)
  {
    hide Clauses, Strip, CountChars, ExpandAll, NonBlankOnly, Trimmed;
    var sentences := Clauses(Strip(text), IsHardBoundary);
    FittingSentencesStay(sentences, max, t);
    ClausesFacts(Strip(text), IsHardBoundary);
    CleanAllHaveChars(sentences);
    NonBlankOnlyKeeps(sentences);
  }

  /** A longer sentence is cut at its commas, and no further when the clauses are within
      the limit; only a sentence without an inner comma is cut as a run. */
  lemma LongSentenceIsCut(sentence: string, max: int, t: Tables)
    requires CountChars(sentence) > max
    ensures |Clauses(sentence, IsSoftBoundary)| <= 1 ==> ExpandSentence(sentence, max, t) == SplitRun(sentence, max, t)
    ensures |Clauses(sentence, IsSoftBoundary)| > 1
            && (forall c :: c in Clauses(sentence, IsSoftBoundary) ==> CountChars(c) <= max)
            ==> ExpandSentence(sentence, max, t) == Clauses(sentence, IsSoftBoundary)
  {
    hide Clauses, CountChars, SplitRun, FitOrSplitAll;
    var soft := Clauses(sentence, IsSoftBoundary);
    if forall c :: c in soft ==> CountChars(c) <= max { FittingItemsStay(soft, max, t); }
  }

  // ---------------------------------------------------------------- the size of a group

  /** Cut as a run, the text would have a safe cut in the search window of every turn. */
  ghost predicate RunHoldsCuts(text: string, max: nat, t: Tables)
    requires max > 0
  {
    |Strip(text)| <= max || WindowsHoldSafeCuts(Strip(text), max, t)
  }

  ghost predicate Short(parts: seq<string>, limit: int) {
    forall k :: 0 <= k < |parts| ==> CountChars(parts[k]) <= limit
  }

  lemma RunIsShort(text: string, max: nat, t: Tables)
    requires max > 0 && RunHoldsCuts(text, max, t)
    ensures Short(SplitRun(text, max, t), max + 30)
  {
    hide WindowsHoldSafeCuts, Strip, Chunks, Squeeze;
    var s, run := Strip(text), SplitRun(text, max, t);
    StripFacts(text);
    if |s| > max { ChunkLengths(s, max, t); }
    forall k | 0 <= k < |run| ensures CountChars(run[k]) <= max + 30 { SqueezeLength(run[k]); }
  }

  lemma {:induction false} ItemsAreShort(items: seq<string>, max: nat, t: Tables)
    requires max > 0 && forall k :: 0 <= k < |items| ==> RunHoldsCuts(items[k], max, t)
    ensures Short(FitOrSplitAll(items, max, t), max + 30)
  {
    hide RunHoldsCuts, SplitRun, CountChars;
    if items != [] {
      ItemsAreShort(Init(items), max, t);
      RunIsShort(items[|items| - 1], max, t);
    }
  }

  /** The runs a sentence can be cut into: itself and its clauses. */
  ghost predicate SentenceHoldsCuts(sentence: string, max: nat, t: Tables)
    requires max > 0
  {
    var soft := Clauses(sentence, IsSoftBoundary);
    RunHoldsCuts(sentence, max, t) && forall k :: 0 <= k < |soft| ==> RunHoldsCuts(soft[k], max, t)
  }

  lemma {:induction false} SentencesAreShort(groups: seq<string>, max: nat, t: Tables)
    requires max > 0 && forall k :: 0 <= k < |groups| ==> SentenceHoldsCuts(groups[k], max, t)
    ensures Short(ExpandAll(groups, max, t), max + 30)
  {
    hide RunHoldsCuts, SplitRun, CountChars, Clauses, FitOrSplitAll;
    if groups != [] {
      var last := groups[|groups| - 1];
      assert SentenceHoldsCuts(last, max, t);
      SentencesAreShort(Init(groups), max, t);
      RunIsShort(last, max, t);
      ItemsAreShort(Clauses(last, IsSoftBoundary), max, t);
    }
  }

  lemma {:induction false} NonBlankStayShort(parts: seq<string>, limit: int)
    requires Short(parts, limit)
    ensures Short(NonBlankOnly(parts), limit)
  {
    hide CountChars, Strip;
    if parts != [] {
      var front := Init(parts);
      assert CountChars(parts[|parts| - 1]) <= limit;
      assert forall k :: 0 <= k < |front| ==> front[k] == parts[k];
      NonBlankStayShort(front, limit);
    }
  }

  /** Breath groups exceed the limit by at most 30 characters when every run that may have
      to be cut has safe cuts where they are searched. */
  lemma BreathGroupsShort(text: string, max: nat, t: Tables)
    requires max > 0
    requires forall s :: s in Clauses(Strip(text), IsHardBoundary) ==> SentenceHoldsCuts(s, max, t)
    ensures forall g :: g in BreathGroups(text, max, t) ==> CountChars(g) <= max + 30
  {
    hide Clauses, Strip, ExpandAll, NonBlankOnly, SentenceHoldsCuts, CountChars;
    var sentences := Clauses(Strip(text), IsHardBoundary);
    SentencesAreShort(sentences, max, t);
    NonBlankStayShort(ExpandAll(sentences, max, t), max + 30);
  }
}
