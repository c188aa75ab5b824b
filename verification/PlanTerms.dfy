/** Protected terms through the whole planner: what packing and re-splitting do to them. */
module PlanTerms {
  import opened Numbers
  import opened Sequences
  import opened Text
  import opened Delimiters
  import opened LongRun
  import opened ProtectedTerms
  import opened Breath
  import opened Packing
  import opened Islands
  import opened PartPlan

  predicate IsBoundary(c: char) { IsHardBoundary(c) || IsSoftBoundary(c) }

  /** A term with visible edges and no punctuation that sentences or clauses are cut at. */
  ghost predicate GoodTerm(term: string) {
    term != "" && Trimmed(term) && forall k :: 0 <= k < |term| ==> !IsBoundary(term[k])
  }

  lemma DefaultTermsGood()
    ensures forall term :: term in DEFAULT_TERMS ==> GoodTerm(term)
  {
    hide IsBoundary;
    DefaultTermsWellFormed();
    forall term | term in DEFAULT_TERMS ensures GoodTerm(term) {
      var n :| 0 <= n < |DEFAULT_TERMS| && DEFAULT_TERMS[n] == term;
      forall k | 0 <= k < |term| ensures !IsBoundary(term[k]) { DefaultTermChar(n, k); }
    }
  }

  lemma DefaultTermChar(n: nat, k: nat)
    requires n < |DEFAULT_TERMS| && k < |DEFAULT_TERMS[n]|
    ensures !IsBoundary(DEFAULT_TERMS[n][k])
  {
  }

  /** The term occurs in the text behind exactly `v` visible characters. */
  ghost predicate At(text: string, term: string, v: int) {
    exists i :: 0 <= i < |text| && OccursAt(text, term, i) && CountChars(text[..i]) == v
  }

  /** It occurs inside one of the parts, behind `v` visible characters of all parts. */
  ghost predicate AtSome(parts: seq<string>, term: string, v: int) {
    parts != [] && (AtSome(Init(parts), term, v) || At(Last(parts), term, v - TotalChars(Init(parts))))
  }

  // ---------------------------------------------------------------- occurrences and cuts

  /** Some occurrence has a character on either side of the cut between two texts. */
  ghost predicate Straddles(a: string, b: string, term: string) {
    exists i :: 0 <= i < |a| < i + |term| && OccursAt(a + b, term, i)
  }

  lemma OccursLeft(a: string, b: string, term: string, i: nat)
    requires term != "" && i + |term| <= |a|
    ensures OccursAt(a, term, i) <==> OccursAt(a + b, term, i)
    ensures CountChars((a + b)[..i]) == CountChars(a[..i])
  {
    hide Lower, CountChars;
    assert (a + b)[..i] == a[..i];
    assert a == (a + b)[0..0 + |a|];
    OccursInSlice(a + b, 0, a, term, i);
  }

  lemma OccursRight(a: string, b: string, term: string, i: nat)
    requires term != "" && i + |term| <= |b|
    ensures OccursAt(b, term, i) <==> OccursAt(a + b, term, |a| + i)
    ensures CountChars((a + b)[..|a| + i]) == CountChars(a) + CountChars(b[..i])
  {
    hide Lower, Squeeze;
    assert (a + b)[..|a| + i] == a + b[..i];
    SqueezeConcat(a, b[..i]);
    assert b == (a + b)[|a|..|a| + |b|];
    OccursInSlice(a + b, |a|, b, term, i);
  }

  lemma OccursFits(text: string, term: string, i: int)
    requires OccursAt(text, term, i)
    ensures term != "" && 0 <= i && i + |term| <= |text|
  {
  }

  /** Joining two texts loses no occurrence; it adds at most those across the cut. */
  lemma ConcatAt(a: string, b: string, term: string, v: int)
    ensures At(a, term, v) || At(b, term, v - CountChars(a)) ==> At(a + b, term, v)
    ensures At(a + b, term, v) && !Straddles(a, b, term) ==> At(a, term, v) || At(b, term, v - CountChars(a))
  {
    hide OccursAt, CountChars;
    if i :| 0 <= i < |a| && OccursAt(a, term, i) && CountChars(a[..i]) == v {
      OccursFits(a, term, i);
      OccursLeft(a, b, term, i);
    }
    if i :| 0 <= i < |b| && OccursAt(b, term, i) && CountChars(b[..i]) == v - CountChars(a) {
      OccursFits(b, term, i);
      OccursRight(a, b, term, i);
    }
    if At(a + b, term, v) && !Straddles(a, b, term) {
      var i :| 0 <= i < |a + b| && OccursAt(a + b, term, i) && CountChars((a + b)[..i]) == v;
      OccursFits(a + b, term, i);
      if i < |a| { OccursLeft(a, b, term, i); } else { OccursRight(a, b, term, i - |a|); }
    }
  }

  lemma CharOfOccurrence(text: string, term: string, i: int, k: nat)
    requires OccursAt(text, term, i) && k < |term|
    ensures LowerChar(text[i + k]) == LowerChar(term[k])
  {
    assert Lower(text[i..i + |term|])[k] == LowerChar(text[i + k]);
    assert Lower(term)[k] == LowerChar(term[k]);
  }

  lemma OccurrenceEdges(text: string, term: string, i: int)
    requires GoodTerm(term) && OccursAt(text, term, i)
    ensures i + |term| <= |text| && !IsSpace(text[i]) && !IsSpace(text[i + |term| - 1])
  {
    hide Lower, IsSpace;
    assert WellFormed([term]) && TermSpan(text, [term], i, i + |term|);
    TermEdges(text, [term], i, i + |term|);
  }

  lemma NoneInBlank(text: string, term: string, v: int)
    requires GoodTerm(term) && forall i :: 0 <= i < |text| ==> IsSpace(text[i])
    ensures !At(text, term, v) && CountChars(text) == 0
  {
    hide OccursAt, IsSpace, GoodTerm, Squeeze;
    if i :| 0 <= i < |text| && OccursAt(text, term, i) { OccurrenceEdges(text, term, i); }
    BlankSqueeze(text);
  }

  lemma {:induction false} BlankSqueeze(text: string)
    requires forall i :: 0 <= i < |text| ==> IsSpace(text[i])
    ensures Squeeze(text) == ""
  {
    hide IsSpace;
    if text != "" { BlankSqueeze(text[1..]); }
  }

  /** Stripping loses no occurrence, because terms have visible edges. */
  lemma StripAt(text: string, term: string, v: int)
    requires GoodTerm(term)
    ensures At(Strip(text), term, v) <==> At(text, term, v)
  {
    hide OccursAt, Strip, IsSpace, Lead, At, CountChars;
    StripSlice(text);
    var lead, end := Lead(text), Lead(text) + |Strip(text)|;
    var front, core, back := text[..lead], Strip(text), text[end..];
    assert text == front + (core + back);
    forall i | 0 <= i < |front| < i + |term| ensures !OccursAt(front + (core + back), term, i) {
      if OccursAt(text, term, i) { OccurrenceEdges(text, term, i); }
    }
    forall i | 0 <= i < |core| < i + |term| ensures !OccursAt(core + back, term, i) {
      if OccursAt(core + back, term, i) {
        OccurrenceEdges(core + back, term, i);
        BackIsSpace(text, core, back, end, i + |term| - 1);
      }
    }
    ConcatAt(front, core + back, term, v);
    ConcatAt(core, back, term, v);
    NoneInBlank(front, term, v);
    NoneInBlank(back, term, v - CountChars(core));
  }

  lemma BackIsSpace(text: string, core: string, back: string, end: nat, k: nat)
    requires end <= |text| && back == text[end..] && |core| <= k < |core + back|
    requires forall i :: end <= i < |text| ==> IsSpace(text[i])
    ensures IsSpace((core + back)[k])
  {
    hide IsSpace;
    assert (core + back)[k] == text[end + k - |core|];
  }

  lemma {:induction false} SomeConcat(a: seq<string>, b: seq<string>, term: string, v: int)
    ensures AtSome(a + b, term, v) <==> AtSome(a, term, v) || AtSome(b, term, v - TotalChars(a))
  {
    hide At, CountChars;
    if b == [] {
      assert a + b == a;
    } else {
      assert Init(a + b) == a + Init(b) && Last(a + b) == Last(b);
      SomeConcat(a, Init(b), term, v);
      TotalCharsConcat(a, Init(b));
    }
  }

  lemma SomeOne(s: string, term: string, v: int)
    ensures AtSome([s], term, v) <==> At(s, term, v)
    ensures TotalChars([s]) == CountChars(s)
  {
    hide At, CountChars;
    assert Init([s]) == [];
  }

  lemma SomeSnoc(a: seq<string>, s: string, term: string, v: int)
    ensures AtSome(a + [s], term, v) <==> AtSome(a, term, v) || At(s, term, v - TotalChars(a))
    ensures TotalChars(a + [s]) == TotalChars(a) + CountChars(s)
  {
    hide At, CountChars;
    SomeConcat(a, [s], term, v);
    SomeOne(s, term, v - TotalChars(a));
    TotalCharsSnoc(a, s);
  }

  lemma TotalOfConserving(parts: seq<string>, text: string)
    requires Conserves(parts, text)
    ensures TotalChars(parts) == CountChars(text)
  {
    TotalCharsJoin(parts);
  }

  lemma TotalOfSame(a: seq<string>, b: seq<string>)
    requires Squeeze(Join(a)) == Squeeze(Join(b))
    ensures TotalChars(a) == TotalChars(b)
  {
    TotalCharsJoin(a);
    TotalCharsJoin(b);
  }

  // ---------------------------------------------------------------- splitting keeps occurrences

  lemma BoundaryIsCaseless(c: char, x: char)
    requires IsBoundary(c) && LowerChar(x) == LowerChar(c)
    ensures x == c
  {
  }

  /** A cut behind a boundary character is in no term. */
  lemma BoundaryCutKeeps(a: string, b: string, term: string)
    requires GoodTerm(term) && a != "" && IsBoundary(Last(a))
    ensures !Straddles(a, b, term)
  {
    hide IsBoundary, LowerChar, OccursAt, Trimmed;
    forall i | 0 <= i < |a| < i + |term| ensures !OccursAt(a + b, term, i) {
      if OccursAt(a + b, term, i) {
        var k := |a| - 1 - i;
        CharOfOccurrence(a + b, term, i, k);
        BoundaryIsCaseless(Last(a), term[k]);
      }
    }
  }

  lemma NonBlankAt(s: string, term: string, v: int)
    requires GoodTerm(term)
    ensures AtSome(NonBlank(s), term, v) <==> At(s, term, v)
    ensures TotalChars(NonBlank(s)) == CountChars(s)
  {
    hide Strip, GoodTerm, At, CountChars;
    StripAt(s, term, v);
    SomeOne(Strip(s), term, v);
    NoneInNothing(term, v);
    NonBlankFacts(s);
    TotalOfConserving(NonBlank(s), s);
  }

  lemma NoneInNothing(term: string, v: int)
    ensures !At("", term, v)
  {
  }

  lemma {:induction false} ClausesAt(text: string, delim: char -> bool, term: string, v: int)
    requires GoodTerm(term) && forall c :: delim(c) ==> IsBoundary(c)
    ensures AtSome(Clauses(text, delim), term, v) <==> At(text, term, v)
    decreases |text|
  {
    hide Clauses, FirstDelimiter, NonBlank, IsBoundary, GoodTerm, At, AtSome, Straddles, CountChars;
    var i := FirstDelimiter(text, delim);
    if i == |text| {
      ClausesLast(text, delim);
      NonBlankAt(text, term, v);
    } else {
      var first, rest := text[..i] + [text[i]], text[i + 1..];
      AroundOne(text, i);
      ClausesStep(text[..i], text[i], rest, delim);
      NonBlankAt(first, term, v);
      ClausesAt(rest, delim, term, v - CountChars(first));
      SomeConcat(NonBlank(first), Clauses(rest, delim), term, v);
      BoundaryCutKeeps(first, rest, term);
      ConcatAt(first, rest, term, v);
    }
  }

  /** A turn of the long-run cutter with a safe index cuts no term. */
  lemma TurnCutKeeps(s: string, max: nat, t: Tables, cut: nat, right: string, term: string)
    requires Turn(s, max, t, cut, right) && HasSafeCut(s, 0, |s|, t.terms) && term in t.terms
    ensures !Straddles(s[..cut], s[cut..], term)
  {
    hide ChooseCut, Strip, Trimmed, HasSafeCut, OccursAt;
    assert s[..cut] + s[cut..] == s;
    forall i | 0 <= i < cut < i + |term| ensures !OccursAt(s, term, i) {
      if OccursAt(s, term, i) {
        assert TermSpan(s, t.terms, i, i + |term|);
        TurnSpares(s, max, t, i, i + |term|);
      }
    }
  }

  lemma {:induction false} ChunksAt(s: string, max: nat, t: Tables, term: string, v: int)
    requires max > 0 && Trimmed(s) && s != "" && EveryTurnSafe(s, max, t)
    requires GoodTerm(term) && term in t.terms
    ensures AtSome(Chunks(s, max, t), term, v) <==> At(s, term, v)
    decreases |s|
  {
    hide Strip, IsSpace, Chunks, EveryTurnSafe, HasSafeCut, ChooseCut, GoodTerm, At, AtSome, Straddles, CountChars;
    if |s| <= max {
      OneChunkOnly(s, max, t);
      SomeOne(s, term, v);
    } else {
      var cut, right := TakeTurn(s, max, t);
      var left := s[..cut];
      TurnSafe(s, max, t, cut, right);
      TurnCutKeeps(s, max, t, cut, right, term);
      assert s == left + s[cut..];
      ConcatAt(left, s[cut..], term, v);
      StripAt(left, term, v);
      StripAt(s[cut..], term, v - CountChars(left));
      StripCount(left);
      ChunksAt(right, max, t, term, v - CountChars(left));
      SomeOne(Strip(left), term, v);
      SomeConcat([Strip(left)], Chunks(right, max, t), term, v);
    }
  }

  /** The long-run cutter, started on a text, has a safe index in every turn. */
  ghost predicate RunSafe(text: string, max: int, t: Tables) {
    StripFacts(text);
    max <= 0 || |Strip(text)| <= max || EveryTurnSafe(Strip(text), max, t)
  }

  lemma RunAt(text: string, max: int, t: Tables, term: string, v: int)
    requires RunSafe(text, max, t) && GoodTerm(term) && term in t.terms
    ensures AtSome(SplitRun(text, max, t), term, v) <==> At(text, term, v)
  {
    hide Strip, Chunks, EveryTurnSafe, GoodTerm, At, AtSome, IsSpace;
    var s := Strip(text);
    StripFacts(text);
    StripAt(text, term, v);
    SomeOne(s, term, v);
    NoneInNothing(term, v);
    SomeNone(term, v);
    if max > 0 && |s| > max { ChunksAt(s, max, t, term, v); }
  }

  lemma SomeNone(term: string, v: int)
    ensures !AtSome([], term, v)
  {
  }

  // ---------------------------------------------------------------- breath groups

  ghost predicate ItemSafe(item: string, max: int, t: Tables) {
    CountChars(item) <= max || RunSafe(item, max, t)
  }

  ghost predicate SentenceSafe(group: string, max: int, t: Tables) {
    CountChars(group) <= max ||
    var soft := Clauses(group, IsSoftBoundary);
    if |soft| <= 1 then RunSafe(group, max, t) else forall k :: 0 <= k < |soft| ==> ItemSafe(soft[k], max, t)
  }

  /** Every run that is cut on the way to breath groups is cut safely. */
  ghost predicate BreathSafe(text: string, max: int, t: Tables) {
    var sentences := Clauses(Strip(text), IsHardBoundary);
    forall k :: 0 <= k < |sentences| ==> SentenceSafe(sentences[k], max, t)
  }

  lemma {:induction false} ItemsAt(items: seq<string>, max: int, t: Tables, term: string, v: int)
    requires Clean(items) && forall k :: 0 <= k < |items| ==> ItemSafe(items[k], max, t)
    requires GoodTerm(term) && term in t.terms
    ensures AtSome(FitOrSplitAll(items, max, t), term, v) <==> AtSome(items, term, v)
  {
    hide CountChars, RunSafe, SplitRun, At, GoodTerm, Trimmed, Join, Squeeze;
    if items != [] {
      var front, last := Init(items), items[|items| - 1];
      var w := v - TotalChars(front);
      ItemsAt(front, max, t, term, v);
      FitOrSplitAllFacts(front, max, t);
      TotalOfSame(FitOrSplitAll(front, max, t), front);
      SomeConcat(FitOrSplitAll(front, max, t), FitOrSplit(last, max, t), term, v);
      if CountChars(last) <= max { SomeOne(last, term, w); } else { RunAt(last, max, t, term, w); }
    }
  }

  lemma SentenceAt(group: string, max: int, t: Tables, term: string, v: int)
    requires SentenceSafe(group, max, t) && GoodTerm(term) && term in t.terms
    ensures AtSome(ExpandSentence(group, max, t), term, v) <==> At(group, term, v)
  {
    hide CountChars, RunSafe, SplitRun, At, AtSome, GoodTerm, ItemSafe, FitOrSplitAll, Clauses;
    if CountChars(group) <= max {
      SomeOne(group, term, v);
    } else if |Clauses(group, IsSoftBoundary)| <= 1 {
      RunAt(group, max, t, term, v);
    } else {
      ClausesFacts(group, IsSoftBoundary);
      ItemsAt(Clauses(group, IsSoftBoundary), max, t, term, v);
      ClausesAt(group, IsSoftBoundary, term, v);
    }
  }

  lemma {:induction false} SentencesAt(groups: seq<string>, max: int, t: Tables, term: string, v: int)
    requires Clean(groups) && forall k :: 0 <= k < |groups| ==> SentenceSafe(groups[k], max, t)
    requires GoodTerm(term) && term in t.terms
    ensures AtSome(ExpandAll(groups, max, t), term, v) <==> AtSome(groups, term, v)
  {
    hide SentenceSafe, ExpandSentence, At, GoodTerm, Trimmed, CountChars, Join, Squeeze;
    if groups != [] {
      var front, last := Init(groups), groups[|groups| - 1];
      SentencesAt(front, max, t, term, v);
      ExpandAllFacts(front, max, t);
      TotalOfSame(ExpandAll(front, max, t), front);
      SentenceAt(last, max, t, term, v - TotalChars(front));
      SomeConcat(ExpandAll(front, max, t), ExpandSentence(last, max, t), term, v);
    }
  }

  lemma {:induction false} NonBlankOnlyAt(parts: seq<string>, term: string, v: int)
    requires GoodTerm(term)
    ensures AtSome(NonBlankOnly(parts), term, v) <==> AtSome(parts, term, v)
  {
    hide Strip, GoodTerm, At, CountChars, Join, Squeeze;
    if parts != [] {
      var front, last := Init(parts), Last(parts);
      var w := v - TotalChars(front);
      NonBlankOnlyAt(front, term, v);
      NonBlankOnlyFacts(front);
      TotalOfSame(NonBlankOnly(front), front);
      if Strip(last) == "" { assert NonBlankOnly(parts) == NonBlankOnly(front); }
      SomeSnoc(NonBlankOnly(front), last, term, v);
      StripAt(last, term, w);
      NoneInNothing(term, w);
    }
  }

  /** Cut safely, breath groups contain every occurrence of every term, and no other. */
  lemma BreathAt(text: string, max: int, t: Tables, term: string, v: int)
    requires BreathSafe(text, max, t) && GoodTerm(term) && term in t.terms
    ensures AtSome(BreathGroups(text, max, t), term, v) <==> At(text, term, v)
  {
    hide Clauses, Strip, SentenceSafe, ExpandAll, NonBlankOnly, GoodTerm, At, AtSome;
    var sentences := Clauses(Strip(text), IsHardBoundary);
    StripAt(text, term, v);
    ClausesFacts(Strip(text), IsHardBoundary);
    ClausesAt(Strip(text), IsHardBoundary, term, v);
    SentencesAt(sentences, max, t, term, v);
    NonBlankOnlyAt(ExpandAll(sentences, max, t), term, v);
  }

  // ---------------------------------------------------------------- packing keeps occurrences

  lemma {:induction false} JoinAt(groups: seq<string>, term: string, v: int)
    requires AtSome(groups, term, v)
    ensures At(Join(groups), term, v)
  {
    hide At, Join, CountChars;
    var front, last := Init(groups), Last(groups);
    assert groups == front + [last];
    if AtSome(front, term, v) { JoinAt(front, term, v); }
    JoinConcat(front, [last]);
    JoinOne(last);
    TotalCharsJoin(front);
    ConcatAt(Join(front), last, term, v);
  }

  lemma GlueAt(groups: seq<string>, term: string, v: int)
    requires GoodTerm(term) && AtSome(groups, term, v)
    ensures At(Glue(groups), term, v)
  {
    hide Strip, At, AtSome, Join;
    JoinAt(groups, term, v);
    StripAt(Join(groups), term, v);
  }

  /** Held by a packer state: in a closed part or in the groups collected since. */
  ghost predicate HeldAt(p: Packed, term: string, v: int) {
    AtSome(p.done, term, v) || AtSome(p.current, term, v - TotalChars(p.done))
  }

  /** Closing the collected groups as a part. */
  lemma CloseAt(done: seq<string>, current: seq<string>, term: string, v: int)
    requires GoodTerm(term) && HeldAt(Packed(done, current), term, v)
    ensures AtSome(done + [Glue(current)], term, v)
  {
    hide GoodTerm, Glue, At, AtSome, CountChars;
    SomeSnoc(done, Glue(current), term, v);
    if !AtSome(done, term, v) { GlueAt(current, term, v - TotalChars(done)); }
  }

  lemma CloseTotal(done: seq<string>, current: seq<string>)
    ensures TotalChars(done + [Glue(current)]) == TotalChars(done) + TotalChars(current)
  {
    hide Glue, CountChars;
    GlueFacts(current);
    TotalCharsSnoc(done, Glue(current));
  }

  lemma TotalSnocs(p: Packed, last: string)
    ensures TotalChars(p.current + [last]) == TotalChars(p.current) + CountChars(last)
    ensures TotalChars([last]) == CountChars(last)
  {
    hide CountChars;
    TotalCharsSnoc(p.current, last);
    TotalCharsSnoc([], last);
    assert [] + [last] == [last];
  }

  lemma {:induction false} PackShortTotal(groups: seq<string>, min: int)
    ensures var p := PackShortState(groups, min); TotalChars(p.done) + TotalChars(p.current) == TotalChars(groups)
  {
    hide Glue, CountChars;
    if groups != [] {
      var p := PackShortState(Init(groups), min);
      PackShortTotal(Init(groups), min);
      TotalSnocs(p, Last(groups));
      CloseTotal(p.done, p.current + [Last(groups)]);
    }
  }

  /** Reading one more group: what was held stays held, and so does what the group has. */
  lemma PackShortStepAt(p: Packed, group: string, min: int, term: string, v: int)
    requires GoodTerm(term)
    requires HeldAt(p, term, v) || At(group, term, v - TotalChars(p.done) - TotalChars(p.current))
    ensures HeldAt(PackShortStep(p, group, min), term, v)
  {
    hide GoodTerm, Glue, At, AtSome, CountChars, TotalChars;
    var current := p.current + [group];
    SomeSnoc(p.current, group, term, v - TotalChars(p.done));
    if TotalChars(current) >= min { CloseAt(p.done, current, term, v); }
  }

  lemma {:induction false} PackShortStateAt(groups: seq<string>, min: int, term: string, v: int)
    requires GoodTerm(term) && AtSome(groups, term, v)
    ensures HeldAt(PackShortState(groups, min), term, v)
  {
    hide GoodTerm, At, TotalChars, PackShortStep, HeldAt;
    var front, last := Init(groups), Last(groups);
    var p := PackShortState(front, min);
    PackShortTotal(front, min);
    if AtSome(front, term, v) { PackShortStateAt(front, min, term, v); }
    PackShortStepAt(p, last, min, term, v);
  }

  lemma PackShortAt(groups: seq<string>, min: int, term: string, v: int)
    requires GoodTerm(term) && AtSome(groups, term, v)
    ensures AtSome(PackShort(groups, min), term, v)
  {
    hide GoodTerm, Glue, At, AtSome, PackShortState, Strip, Join;
    if |groups| > 1 && min > 0 {
      var p := PackShortState(groups, min);
      PackShortStateAt(groups, min, term, v);
      SomeNone(term, v - TotalChars(p.done));
      if p.current != [] {
        if p.done != [] {
          FoldAt(p.done, p.current, term, v);
        } else {
          CloseAt([], p.current, term, v);
          assert [] + [Glue(p.current)] == [Glue(p.current)];
        }
      }
    }
  }

  /** Folding a leftover into the last part. */
  lemma FoldAt(done: seq<string>, current: seq<string>, term: string, v: int)
    requires GoodTerm(term) && done != [] && HeldAt(Packed(done, current), term, v)
    ensures AtSome(Init(done) + [Strip(Last(done) + Join(current))], term, v)
  {
    hide Strip, Join, At, AtSome, CountChars;
    var front, last := Init(done), Last(done);
    var w := v - TotalChars(front);
    assert done == front + [last];
    SomeSnoc(front, last, term, v);
    SomeSnoc(front, Strip(last + Join(current)), term, v);
    StripAt(last + Join(current), term, w);
    ConcatAt(last, Join(current), term, w);
    if AtSome(current, term, w - CountChars(last)) { JoinAt(current, term, w - CountChars(last)); }
  }

  lemma {:induction false} PackCountTotal(groups: seq<string>, k: nat, target: nat)
    ensures var p := PackCountState(groups, k, target);
            TotalChars(p.done) + TotalChars(p.current) == TotalChars(groups)
  {
    hide Glue, CountChars;
    if groups != [] {
      var p := PackCountState(Init(groups), k, target);
      PackCountTotal(Init(groups), k, target);
      TotalSnocs(p, Last(groups));
      CloseTotal(p.done, p.current);
    }
  }

  /** Reading one more group: what was held stays held, and so does what the group has. */
  lemma PackCountStepAt(p: Packed, group: string, k: nat, target: nat, term: string, v: int)
    requires GoodTerm(term)
    requires HeldAt(p, term, v) || At(group, term, v - TotalChars(p.done) - TotalChars(p.current))
    ensures HeldAt(PackCountStep(p, group, k, target), term, v)
  {
    hide GoodTerm, Glue, At, AtSome, CountChars, TotalChars;
    if p.current != [] && TotalChars(p.current) >= target && |p.done| < k - 1 {
      CloseTotal(p.done, p.current);
      SomeOne(group, term, v - TotalChars(p.done + [Glue(p.current)]));
      if HeldAt(p, term, v) { CloseAt(p.done, p.current, term, v); }
    } else {
      SomeSnoc(p.current, group, term, v - TotalChars(p.done));
    }
  }

  lemma {:induction false} PackCountStateAt(groups: seq<string>, k: nat, target: nat, term: string, v: int)
    requires GoodTerm(term) && AtSome(groups, term, v)
    ensures HeldAt(PackCountState(groups, k, target), term, v)
  {
    hide GoodTerm, At, TotalChars, PackCountStep, HeldAt;
    var front, last := Init(groups), Last(groups);
    var p := PackCountState(front, k, target);
    PackCountTotal(front, k, target);
    if AtSome(front, term, v) { PackCountStateAt(front, k, target, term, v); }
    PackCountStepAt(p, last, k, target, term, v);
  }

  lemma PackCountAt(groups: seq<string>, k: nat, term: string, v: int)
    requires GoodTerm(term) && k >= 1 && AtSome(groups, term, v)
    ensures AtSome(PackCount(groups, k), term, v)
  {
    hide GoodTerm, Glue, At, AtSome, PackCountState;
    if |groups| > k {
      var p := PackCountState(groups, k, PartTarget(groups, k));
      PackCountStateAt(groups, k, PartTarget(groups, k), term, v);
      SomeNone(term, v - TotalChars(p.done));
      CloseAt(p.done, p.current, term, v);
    }
  }

  lemma {:induction false} PackBlocksAt(blocks: seq<seq<string>>, args: PlanArgs, term: string, v: int)
    requires GoodTerm(term) && Clean(Flatten(blocks)) && AtSome(Flatten(blocks), term, v)
    ensures AtSome(PackBlocks(blocks, args), term, v)
  {
    hide GoodTerm, At, AtSome, PackShort, PackCount, CountChars, Trimmed, Join, Squeeze;
    SomeNone(term, v);
    var front, last := Init(blocks), Last(blocks);
    var w := v - TotalChars(Flatten(front));
    CleanConcat(Flatten(front), last);
    SomeConcat(Flatten(front), last, term, v);
    PackBlocksFacts(front, args);
    TotalOfSame(PackBlocks(front, args), Flatten(front));
    SomeConcat(PackBlocks(front, args), PackBlock(last, args), term, v);
    if AtSome(Flatten(front), term, v) {
      PackBlocksAt(front, args, term, v);
    } else {
      var short := PackShort(last, args.minPartChars);
      PackShortAt(last, args.minPartChars, term, w);
      PackCountAt(short, Max(1, CeilDiv(TotalChars(short), Max(args.maxPartChars, 1))), term, w);
    }
  }

  lemma PairAt(a: string, b: string, term: string, v: int)
    requires GoodTerm(term) && AtSome([a, b], term, v)
    ensures At(Strip(a + b), term, v)
  {
    hide Strip, At, CountChars;
    assert [a, b] == [a] + [b];
    SomeOne(a, term, v);
    SomeSnoc([a], b, term, v);
    ConcatAt(a, b, term, v);
    StripAt(a + b, term, v);
  }

  lemma MergeAtAt(parts: seq<string>, k: nat, term: string, v: int)
    requires GoodTerm(term) && k + 1 < |parts| && AtSome(parts, term, v)
    ensures AtSome(MergeAt(parts, k), term, v)
  {
    hide Strip, At, AtSome, CountChars, GoodTerm;
    var a, b, front, back := parts[k], parts[k + 1], parts[..k], parts[k + 2..];
    var pair, one, w := [a, b], Strip(a + b), v - TotalChars(front);
    AroundPair(parts, k);
    SomeConcat(front + pair, back, term, v);
    SomeConcat(front, pair, term, v);
    SomeConcat(front + [one], back, term, v);
    SomeSnoc(front, one, term, v);
    TotalCharsConcat(front, pair);
    PairTotal(a, b);
    if AtSome(pair, term, w) { PairAt(a, b, term, w); }
  }

  lemma PairTotal(a: string, b: string)
    ensures TotalChars([a, b]) == CountChars(Strip(a + b))
  {
    hide Strip, CountChars;
    MergedPair(a, b, _ => true);
    TotalCharsTwo(a, b);
  }

  lemma {:induction false} MergeFromAt(merged: seq<string>, index: nat, isAlnum: char -> bool, term: string, v: int)
    requires GoodTerm(term) && AtSome(merged, term, v)
    ensures AtSome(MergeFrom(merged, index, isAlnum), term, v)
    decreases |merged|, |merged| - index
  {
    hide StandsAlone, MergeAt, AtSome, GoodTerm;
    if |merged| <= 1 || index >= |merged| {
    } else if StandsAlone(merged[index], isAlnum) {
      MergeFromAt(merged, index + 1, isAlnum, term, v);
    } else {
      var k := if index > 0 then index - 1 else 0;
      MergeAtAt(merged, k, term, v);
      MergeFromAt(MergeAt(merged, k), index, isAlnum, term, v);
    }
  }

  lemma MergeTinyAt(parts: seq<string>, isAlnum: char -> bool, term: string, v: int)
    requires GoodTerm(term) && AtSome(parts, term, v)
    ensures AtSome(MergeTiny(parts, isAlnum), term, v)
  {
    hide MergeFrom, NonBlankOnly, AtSome, GoodTerm;
    NonBlankOnlyAt(parts, term, v);
    MergeFromAt(NonBlankOnly(parts), 0, isAlnum, term, v);
  }

  // ---------------------------------------------------------------- the whole plan

  /** Splitting one part cuts safely: in its breath groups when the packed halves are
      taken, otherwise in its run cut. */
  ghost predicate SplitSafe(part: string, args: PlanArgs) {
    var groups := PackShort(BreathGroups(part, args.maxPartChars, args.tables), args.minPartChars);
    if |groups| > 1 && |PackCount(groups, 2)| > 1 then BreathSafe(part, args.maxPartChars, args.tables)
    else RunSafe(part, HalfChars(part), args.tables)
  }

  lemma SplitOnceAt(part: string, args: PlanArgs, term: string, v: int)
    requires CountChars(part) >= 2 ==> SplitSafe(part, args)
    requires GoodTerm(term) && term in args.tables.terms && At(part, term, v)
    ensures AtSome(SplitOnce(part, args), term, v)
  {
    hide CountChars, BreathGroups, PackShort, PackCount, SplitRun, BreathSafe, RunSafe, AtSome, At, GoodTerm, HalfChars;
    SomeOne(part, term, v);
    var breath := BreathGroups(part, args.maxPartChars, args.tables);
    if CountChars(part) >= 2 {
      if |PackShort(breath, args.minPartChars)| > 1 && |PackCount(PackShort(breath, args.minPartChars), 2)| > 1 {
        BreathAt(part, args.maxPartChars, args.tables, term, v);
        PackShortAt(breath, args.minPartChars, term, v);
        PackCountAt(PackShort(breath, args.minPartChars), 2, term, v);
      } else {
        RunAt(part, HalfChars(part), args.tables, term, v);
      }
    }
  }

  /** Every turn of the re-split loop cuts safely and slices nothing off. */
  ghost predicate LoopSafe(parts: seq<string>, sec: real, args: PlanArgs)
    decreases FreeSlots(parts, args)
  {
    Resplits(parts, sec, args) ==>
      && SplitSafe(parts[Worst(parts, sec, args)], args)
      && !SliceFires(parts, sec, args)
      && LoopSafe(NextParts(parts, sec, args), sec, args)
  }

  lemma TurnAt(parts: seq<string>, sec: real, args: PlanArgs, term: string, v: int)
    requires Resplits(parts, sec, args) && !SliceFires(parts, sec, args)
    requires SplitSafe(parts[Worst(parts, sec, args)], args)
    requires GoodTerm(term) && term in args.tables.terms && AtSome(parts, term, v)
    ensures AtSome(NextParts(parts, sec, args), term, v)
  {
    hide AtSome, At, GoodTerm, SplitSafe, SplitOnce, Estimates, CountChars, Join, Squeeze;
    var w := Worst(parts, sec, args);
    var pieces, front, back := Pieces(parts, sec, args), parts[..w], parts[w + 1..];
    var u := v - TotalChars(front);
    AroundOne(parts, w);
    SomeConcat(front + [parts[w]], back, term, v);
    SomeSnoc(front, parts[w], term, v);
    SomeConcat(front + pieces, back, term, v);
    SomeConcat(front, pieces, term, v);
    SplitOnceFacts(parts[w], args);
    TotalOfConserving(pieces, parts[w]);
    TotalCharsConcat(front, pieces);
    if At(parts[w], term, u) { SplitOnceAt(parts[w], args, term, u); }
  }

  lemma {:induction false} LoopAt(parts: seq<string>, sec: real, args: PlanArgs, term: string, v: int)
    requires LoopSafe(parts, sec, args) && GoodTerm(term) && term in args.tables.terms && AtSome(parts, term, v)
    ensures AtSome(ResplitLoop(parts, sec, args), term, v)
    decreases FreeSlots(parts, args)
  {
    hide AtSome, GoodTerm, SplitSafe, Estimates, SplitOnce;
    if Resplits(parts, sec, args) {
      TurnAt(parts, sec, args, term, v);
      LoopAt(NextParts(parts, sec, args), sec, args, term, v);
    }
  }

  /** The run cut of the whole text replaces the packed parts. */
  ghost predicate CutsWholeRun(input: string, sec: real, args: PlanArgs) {
    |PackedParts(input, sec, args)| < 2 && Strip(input) != ""
  }

  /** No cut of the planner is unsafe and nothing is sliced off. */
  ghost predicate PlanCutsSafely(input: string, sec: real, args: PlanArgs) {
    var text, first := Strip(input), FirstParts(input, sec, args);
    && (if CutsWholeRun(input, sec, args) then RunSafe(text, HalfChars(text), args.tables)
        else BreathSafe(text, args.maxPartChars, args.tables))
    && (EnforceApplies(first, args) ==> LoopSafe(first, sec, args))
  }

  lemma PackedAt(input: string, sec: real, args: PlanArgs, term: string, v: int)
    requires BreathSafe(Strip(input), args.maxPartChars, args.tables)
    requires GoodTerm(term) && term in args.tables.terms && At(input, term, v)
    ensures AtSome(PackedParts(input, sec, args), term, v)
  {
    hide AtSome, At, GoodTerm, BreathSafe, BreathGroups, PackShort, PackCount, PackBlocks, Strip, CountChars,
         PartCountFor, Blocks, Flatten, Clean;
    var groups := BreathGroups(Strip(input), args.maxPartChars, args.tables);
    StripAt(input, term, v);
    BreathAt(Strip(input), args.maxPartChars, args.tables, term, v);
    if args.forceBreaks != [] {
      BreathGroupsFacts(Strip(input), args.maxPartChars, args.tables);
      BlocksFlatten(groups, args.forceBreaks);
      PackBlocksAt(Blocks(groups, args.forceBreaks), args, term, v);
    } else {
      var k := PartCountFor(CountChars(Strip(input)), sec, args);
      PartCountSuffices(CountChars(Strip(input)), sec, args);
      PackShortAt(groups, args.minPartChars, term, v);
      PackCountAt(PackShort(groups, args.minPartChars), k, term, v);
    }
  }

  /** Protected terms survive planning: when no cut of the planner is unsafe and the slice
      never fires, every occurrence of every term lies inside one planned part, and at the
      same place of the visible text as in the source. */
  lemma TermsSurvivePlanning(input: string, sec: real, args: PlanArgs, term: string, v: int)
    requires PlanCutsSafely(input, sec, args) && GoodTerm(term) && term in args.tables.terms
    requires At(input, term, v)
    ensures AtSome(PlannedTexts(input, sec, args), term, v)
  {
    hide AtSome, At, GoodTerm, BreathSafe, RunSafe, LoopSafe, ResplitLoop, MergeTiny, PackedParts, Strip, SplitRun;
    var first := FirstParts(input, sec, args);
    if CutsWholeRun(input, sec, args) {
      StripAt(input, term, v);
      RunAt(Strip(input), HalfChars(Strip(input)), args.tables, term, v);
    } else {
      PackedAt(input, sec, args, term, v);
    }
    if EnforceApplies(first, args) {
      LoopAt(first, sec, args, term, v);
      MergeTinyAt(ResplitLoop(first, sec, args), args.isAlnum, term, v);
    }
    MergeTinyAt(Enforce(first, sec, args), args.isAlnum, term, v);
  }

  // ---------------------------------------------------------------- a condition on the text

  /** `part` is the stretch of `text` that starts at `off`. */
  ghost predicate SliceAt(text: string, part: string, off: nat) {
    off + |part| <= |text| && part == text[off..off + |part|]
  }

  lemma SliceOfPart(text: string, part: string, off: nat, inner: string, at: nat)
    requires SliceAt(text, part, off) && SliceAt(part, inner, at)
    ensures SliceAt(text, inner, off + at)
  {
    SliceOfSlice(text, off, part, at, at + |inner|);
  }

  lemma NonBlankLocated(text: string, k: nat) returns (off: nat)
    requires k < |NonBlank(text)|
    ensures SliceAt(text, NonBlank(text)[k], off)
  {
    hide Strip, Lead;
    StripSlice(text);
    off := Lead(text);
  }

  /** A clause is a stretch of the text it is cut from. */
  lemma {:induction false} ClauseLocated(text: string, delim: char -> bool, k: nat) returns (off: nat)
    requires k < |Clauses(text, delim)|
    ensures SliceAt(text, Clauses(text, delim)[k], off)
    decreases |text|
  {
    hide Clauses, FirstDelimiter, NonBlank;
    var i := FirstDelimiter(text, delim);
    if i == |text| {
      ClausesLast(text, delim);
      off := NonBlankLocated(text, k);
    } else {
      var first, rest := text[..i] + [text[i]], text[i + 1..];
      AroundOne(text, i);
      ClausesStep(text[..i], text[i], rest, delim);
      if k < |NonBlank(first)| {
        off := NonBlankLocated(first, k);
        assert SliceAt(text, first, 0);
        SliceOfPart(text, first, 0, NonBlank(first)[k], off);
      } else {
        var n := ClauseLocated(rest, delim, k - |NonBlank(first)|);
        assert SliceAt(text, rest, i + 1);
        SliceOfPart(text, rest, i + 1, Clauses(rest, delim)[k - |NonBlank(first)|], n);
        off := i + 1 + n;
      }
    }
  }

  /** No stretch over the limit is one cluster of overlapping terms; without a limit
      nothing is cut. */
  ghost predicate ShortClusters(text: string, max: int, terms: seq<string>) {
    WellFormed(terms) && (max > 0 ==> NoLongCluster(text, max, terms))
  }

  lemma ShortClustersInside(text: string, part: string, off: nat, max: int, terms: seq<string>)
    requires ShortClusters(text, max, terms) && SliceAt(text, part, off)
    ensures ShortClusters(part, max, terms)
  {
    hide NoLongCluster, WellFormed;
    if max > 0 { ClusterOfSlice(text, off, part, max, terms); }
  }

  lemma ShortClustersRunSafe(text: string, max: int, t: Tables)
    requires ShortClusters(text, max, t.terms)
    ensures RunSafe(text, max, t)
  {
    hide NoLongCluster, WellFormed, EveryTurnSafe, Strip, Lead, IsSpace;
    StripSlice(text);
    StripFacts(text);
    ShortClustersInside(text, Strip(text), Lead(text), max, t.terms);
    if max > 0 { ShortClustersAreSafe(Strip(text), max, t); }
  }

  lemma ShortClustersSentenceSafe(group: string, max: int, t: Tables)
    requires ShortClusters(group, max, t.terms)
    ensures SentenceSafe(group, max, t)
  {
    hide ShortClusters, RunSafe, Clauses, CountChars;
    var soft := Clauses(group, IsSoftBoundary);
    ShortClustersRunSafe(group, max, t);
    forall k | 0 <= k < |soft| ensures ItemSafe(soft[k], max, t) {
      var off := ClauseLocated(group, IsSoftBoundary, k);
      ShortClustersInside(group, soft[k], off, max, t.terms);
      ShortClustersRunSafe(soft[k], max, t);
    }
  }

  lemma ShortClustersBreathSafe(text: string, max: int, t: Tables)
    requires ShortClusters(text, max, t.terms)
    ensures BreathSafe(text, max, t)
  {
    hide ShortClusters, SentenceSafe, Clauses, Strip, Lead;
    var stripped := Strip(text);
    StripSlice(text);
    ShortClustersInside(text, stripped, Lead(text), max, t.terms);
    var sentences := Clauses(stripped, IsHardBoundary);
    forall k | 0 <= k < |sentences| ensures SentenceSafe(sentences[k], max, t) {
      var off := ClauseLocated(stripped, IsHardBoundary, k);
      ShortClustersInside(stripped, sentences[k], off, max, t.terms);
      ShortClustersSentenceSafe(sentences[k], max, t);
    }
  }

  /** The limit the text is cut at: half its characters when it is cut as one run. */
  ghost function CutLimit(input: string, sec: real, args: PlanArgs): int {
    if CutsWholeRun(input, sec, args) then HalfChars(Strip(input)) else args.maxPartChars
  }

  /** A condition on the text alone: when no stretch longer than the limit is one cluster of
      overlapping terms, a plan that is not re-split cuts no term and slices nothing off, so
      that every occurrence of every term survives it. */
  lemma ShortClustersSurvivePlanning(input: string, sec: real, args: PlanArgs, term: string, v: int)
    requires ShortClusters(Strip(input), CutLimit(input, sec, args), args.tables.terms)
    requires EnforceApplies(FirstParts(input, sec, args), args) ==> !Resplits(FirstParts(input, sec, args), sec, args)
    ensures PlanCutsSafely(input, sec, args)
    ensures GoodTerm(term) && term in args.tables.terms && At(input, term, v) ==>
              AtSome(PlannedTexts(input, sec, args), term, v)
  {
    hide ShortClusters, BreathSafe, RunSafe, Resplits, FirstParts, PackedParts, Strip, CountChars, GoodTerm, At, AtSome,
         PlannedTexts, EnforceApplies;
    if CutsWholeRun(input, sec, args) {
      ShortClustersRunSafe(Strip(input), HalfChars(Strip(input)), args.tables);
    } else {
      ShortClustersBreathSafe(Strip(input), args.maxPartChars, args.tables);
    }
    if GoodTerm(term) && term in args.tables.terms && At(input, term, v) {
      TermsSurvivePlanning(input, sec, args, term, v);
    }
  }

  // ---------------------------------------------------------------- texts without terms

  ghost predicate NoTerm(text: string, terms: seq<string>) {
    forall i, j :: !TermSpan(text, terms, i, j)
  }

  lemma NoTermInside(text: string, part: string, off: nat, terms: seq<string>)
    requires NoTerm(text, terms) && SliceAt(text, part, off)
    ensures NoTerm(part, terms)
  {
    forall i, j ensures !TermSpan(part, terms, i, j) {
      assert !TermSpan(text, terms, i + off, j + off);
      if 0 <= i && j <= |part| { TermsOfSlice(text, off, part, terms, i, j); }
    }
  }

  /** Without terms every cut is safe, and the search window is never empty. */
  lemma {:induction false} NoTermHoldsCuts(s: string, max: nat, t: Tables)
    requires max > 0 && Trimmed(s) && NoTerm(s, t.terms)
    ensures WindowsHoldSafeCuts(s, max, t)
    decreases |s|
  {
    hide TermSpan, Strip, Lead, ChooseCut, IsSpace;
    if |s| > max {
      var c := WindowLow(s, max);
      assert c <= WindowHigh(s, max) && Safe(s, c, t.terms);
      var cut := ChooseCut(s, max, t);
      ChunksStep(s, max, t);
      StripSlice(s[cut..]);
      var right := Strip(s[cut..]);
      SliceOfPart(s, s[cut..], cut, right, Lead(s[cut..]));
      NoTermInside(s, right, cut + Lead(s[cut..]), t.terms);
      NoTermHoldsCuts(right, max, t);
    }
  }

  lemma NoTermRun(text: string, max: nat, t: Tables)
    requires max > 0 && NoTerm(text, t.terms)
    ensures RunHoldsCuts(text, max, t)
  {
    hide NoTerm, Strip, Lead, WindowsHoldSafeCuts, IsSpace;
    StripFacts(text);
    StripSlice(text);
    NoTermInside(text, Strip(text), Lead(text), t.terms);
    NoTermHoldsCuts(Strip(text), max, t);
  }

  lemma PlainIsNoTerm(text: string, terms: seq<string>)
    requires forall term, i :: term in terms ==> !OccursAt(text, term, i)
    ensures NoTerm(text, terms)
  {
  }

  /** No breath group of a text without protected terms exceeds the limit by more than 30. */
  lemma PlainTextGroupsShort(text: string, max: nat, t: Tables)
    requires max > 0 && forall term, i :: term in t.terms ==> !OccursAt(text, term, i)
    ensures forall g :: g in BreathGroups(text, max, t) ==> CountChars(g) <= max + 30
  {
    PlainIsNoTerm(text, t.terms);
    hide NoTerm, Clauses, Strip, Lead, CountChars, BreathGroups, RunHoldsCuts;
    var stripped := Strip(text);
    StripSlice(text);
    NoTermInside(text, stripped, Lead(text), t.terms);
    var sentences := Clauses(stripped, IsHardBoundary);
    forall k | 0 <= k < |sentences| ensures SentenceHoldsCuts(sentences[k], max, t) {
      var off := ClauseLocated(stripped, IsHardBoundary, k);
      NoTermInside(stripped, sentences[k], off, t.terms);
      NoTermRun(sentences[k], max, t);
      var soft := Clauses(sentences[k], IsSoftBoundary);
      forall m | 0 <= m < |soft| ensures RunHoldsCuts(soft[m], max, t) {
        var at := ClauseLocated(sentences[k], IsSoftBoundary, m);
        NoTermInside(sentences[k], soft[m], at, t.terms);
        NoTermRun(soft[m], max, t);
      }
    }
    BreathGroupsShort(text, max, t);
  }
}
