/** Choosing one audio candidate per sample (`lora_candidate_gate.py`). */
module CandidateGate {
  import opened Numbers
  import opened Sequences

  datatype Reason =
    | LowAsr | HighDrift | HighFitDelta | FlatF0 | LowTermRecall | TailTruncation | BadJoinQuality

  const HARD_REASONS: set<Reason> :=
    {BadJoinQuality, HighDrift, HighFitDelta, LowAsr, LowTermRecall, TailTruncation}
  const SOFT_REASONS: set<Reason> := {FlatF0}

  /** A candidate row; an absent measurement is None. */
  datatype Candidate = Candidate(
    sampleId: string,
    name: string,
    upstreamName: Option<string>,
    nameChain: seq<string>,
    similarity: real,
    absDriftMs: real,
    fitDelta: Option<real>,
    f0Range: Option<real>,
    termRecall: Option<real>,
    latinRecall: Option<real>,
    tailRecall: Option<real>,
    joinPass: Option<bool>)

  datatype GateArgs = GateArgs(
    maxDriftMs: real,
    minSimilarity: real,
    targetSimilarity: real,
    minF0Range: real,
    targetF0Range: real,
    minTermRecall: real,
    targetTermRecall: real,
    minTailRecall: real,
    maxFitDelta: real,
    allowFailedJoin: bool)

  /** A candidate with its verdicts. */
  datatype Scored = Scored(row: Candidate, reasons: seq<Reason>, score: real)

  /** A human choice: the name of the candidate to take, if the entry has one. */
  datatype Override = Override(target: Option<string>)

  // ---------------------------------------------------------------- verdicts

  function If(condition: bool, reason: Reason): (list: seq<Reason>)
    ensures forall x :: x in list <==> condition && x == reason
  {
    if condition then [reason] else []
  }

  function RejectionReasons(row: Candidate, args: GateArgs): seq<Reason> {
    If(row.similarity < args.minSimilarity, LowAsr)
    + If(row.absDriftMs > args.maxDriftMs, HighDrift)
    + If(row.fitDelta.Some? && row.fitDelta.value > args.maxFitDelta, HighFitDelta)
    + If(row.f0Range.Some? && row.f0Range.value < args.minF0Range, FlatF0)
    + If(row.termRecall.Some? && row.termRecall.value < args.minTermRecall, LowTermRecall)
    + If(args.minTailRecall > 0.0 && row.tailRecall.Some? && row.tailRecall.value < args.minTailRecall, TailTruncation)
    + If(row.joinPass.Some? && !args.allowFailedJoin && !row.joinPass.value, BadJoinQuality)
  }

  function OrElse(x: Option<real>, default: real): real {
    match x case Some(v) => v case None => default
  }

  function CandidateScore(row: Candidate, args: GateArgs): real {
    var f0Range := OrElse(row.f0Range, 0.0);
    var driftScore := MaxReal(0.0, 1.0 - row.absDriftMs / MaxReal(args.maxDriftMs, 1.0));
    var asrScore := MinReal(1.05, row.similarity / MaxReal(args.targetSimilarity, 0.000001));
    var f0Score := if f0Range > 0.0 then MinReal(1.15, f0Range / MaxReal(args.targetF0Range, 0.000001)) else 0.6;
    var termScore :=
      if row.termRecall.Some? then MinReal(1.05, row.termRecall.value / MaxReal(args.targetTermRecall, 0.000001))
      else 1.0;
    var fitPenalty := MinReal(0.4, OrElse(row.fitDelta, 0.0) * 3.0);
    0.28 * driftScore + 0.42 * asrScore + 0.15 * f0Score + 0.12 * termScore - 0.03 * fitPenalty
  }

  function Annotated(row: Candidate, args: GateArgs): Scored {
    Scored(row, RejectionReasons(row, args), CandidateScore(row, args))
  }

  function Flag(b: bool): real { if b then 1.0 else 0.0 }

  /** `fallback_quality_key`: compared from left to right. */
  function FallbackKey(s: Scored, args: GateArgs): seq<real> {
    [Flag(s.row.similarity >= args.minSimilarity),
     Flag(s.row.termRecall == None || OrElse(s.row.termRecall, 1.0) >= args.minTermRecall),
     s.row.similarity,
     OrElse(s.row.termRecall, 1.0),
     OrElse(s.row.latinRecall, 1.0),
     Flag(s.row.f0Range == None || OrElse(s.row.f0Range, args.minF0Range) >= args.minF0Range),
     -s.row.absDriftMs,
     -OrElse(s.row.fitDelta, 0.0),
     s.score]
  }

  /** Tuple comparison: the first difference decides. */
  predicate LexLess(a: seq<real>, b: seq<real>) {
    if a == [] || b == [] then |a| < |b|
    else if a[0] == b[0] then LexLess(a[1..], b[1..])
    else a[0] < b[0]
  }

  predicate Viable(s: Scored) { s.reasons == [] }

  function ReasonSet(s: Scored): set<Reason> { set r | r in s.reasons }

  predicate HasHardReason(s: Scored) { ReasonSet(s) * HARD_REASONS != {} }

  predicate Eligible(s: Scored) { !HasHardReason(s) && ReasonSet(s) - SOFT_REASONS == {} }

  predicate ScoreLess(a: Scored, b: Scored) { a.score < b.score }

  function KeyLess(args: GateArgs): (Scored, Scored) -> bool {
    (a, b) => LexLess(FallbackKey(a, args), FallbackKey(b, args))
  }

  // ---------------------------------------------------------------- one sample

  datatype NoSelectionReason = AllFailedHardGate | AllFailedStrictGate

  datatype Tier = Strict | BestWithinDrift | ListeningOverride

  datatype Decision =
    | Chose(sampleId: string, tier: Tier, choice: Scored)
    | ChoseNone(sampleId: string, reason: NoSelectionReason)

  datatype AbortReason = TargetNotFound | TargetHasHardReason | TargetHasUnsupportedReason

  datatype OverrideResult = NoOverride | Overridden(choice: Scored) | OverrideAborts(why: AbortReason)

  datatype SampleResult = Decided(decision: Decision) | Aborted(why: AbortReason)

  function Names(row: Candidate): set<string> {
    {row.name} + (if row.upstreamName.Some? then {row.upstreamName.value} else {}) + set n | n in row.nameChain
  }

  predicate Matches(s: Scored, override: Override) {
    override.target.Some? && override.target.value in Names(s.row)
  }

  function OverridesFor(sampleId: string, overrides: map<string, seq<Override>>): seq<Override> {
    if sampleId in overrides then overrides[sampleId] else []
  }

  /** Only the first override of a sample is ever looked at. */
  function OverrideChoice(sampleId: string, annotated: seq<Scored>,
                          overrides: map<string, seq<Override>>): OverrideResult {
    var list := OverridesFor(sampleId, overrides);
    if list == [] then NoOverride
    else
      var matches := Filter(annotated, (s: Scored) => Matches(s, list[0]));
      if matches == [] then OverrideAborts(TargetNotFound)
      else
        var chosen := FirstMax(matches, ScoreLess);
        if HasHardReason(chosen) then OverrideAborts(TargetHasHardReason)
        else if ReasonSet(chosen) - SOFT_REASONS != {} then OverrideAborts(TargetHasUnsupportedReason)
        else Overridden(chosen)
  }

  /** The loop over a sample's overrides returns or aborts in its first turn. */
  method SelectListeningOverride(sampleId: string, annotated: seq<Scored>, overrides: map<string, seq<Override>>)
    returns (result: OverrideResult)
    ensures result == OverrideChoice(sampleId, annotated, overrides)
  {
    var list := OverridesFor(sampleId, overrides);
    for k := 0 to |list|
      invariant k == 0
    {
      var matches := Filter(annotated, (s: Scored) => Matches(s, list[k]));
      if matches == [] { return OverrideAborts(TargetNotFound); }
      var chosen := PickFirstMax(matches, ScoreLess);
      if HasHardReason(chosen) { return OverrideAborts(TargetHasHardReason); }
      if ReasonSet(chosen) - SOFT_REASONS != {} { return OverrideAborts(TargetHasUnsupportedReason); }
      return Overridden(chosen);
    }
    return NoOverride;
  }

  method PickFirstMax<T>(s: seq<T>, less: (T, T) -> bool) returns (best: T)
    requires s != []
    ensures best == FirstMax(s, less)
  {
    best := s[0];
    for k := 1 to |s|
      invariant best == FirstMax(s[..k], less)
    {
      assert Init(s[..k + 1]) == s[..k];
      if less(best, s[k]) { best := s[k]; }
    }
    assert s[..|s|] == s;
  }

  method EligibleFallbackPool(annotated: seq<Scored>) returns (rows: seq<Scored>)
    ensures rows == Filter(annotated, Eligible)
  {
    rows := [];
    for k := 0 to |annotated|
      invariant rows == Filter(annotated[..k], Eligible)
    {
      assert Init(annotated[..k + 1]) == annotated[..k];
      var row := annotated[k];
      if ReasonSet(row) * HARD_REASONS != {} { continue; }
      if ReasonSet(row) - SOFT_REASONS != {} { continue; }
      rows := rows + [row];
    }
    assert annotated[..|annotated|] == annotated;
  }

  /** The decision for one sample: human override, best clean candidate, best fallback. */
  function Decide(sampleId: string, annotated: seq<Scored>, args: GateArgs,
                  overrides: map<string, seq<Override>>): SampleResult {
    match OverrideChoice(sampleId, annotated, overrides)
    case OverrideAborts(why) => Aborted(why)
    case Overridden(choice) => Decided(Chose(sampleId, ListeningOverride, choice))
    case NoOverride =>
      var viable, pool := Filter(annotated, Viable), Filter(annotated, Eligible);
      if viable != [] then Decided(Chose(sampleId, Strict, FirstMax(viable, ScoreLess)))
      else if pool != [] then Decided(Chose(sampleId, BestWithinDrift, FirstMax(pool, KeyLess(args))))
      else Decided(ChoseNone(sampleId, AllFailedHardGate))
  }

  // ---------------------------------------------------------------- the whole run

  /** String order, code point by code point. */
  predicate StrLe(a: string, b: string) {
    if a == "" then true
    else if b == "" then false
    else if a[0] == b[0] then StrLe(a[1..], b[1..])
    else a[0] < b[0]
  }

  /** The keys of `by_sample` in insertion order. */
  function SampleKeys(rows: seq<Candidate>): seq<string> {
    if rows == [] then []
    else
      var keys := SampleKeys(Init(rows));
      if Last(rows).sampleId in keys then keys else keys + [Last(rows).sampleId]
  }

  function SampleOrder(rows: seq<Candidate>): seq<string> { StableSort(SampleKeys(rows), StrLe) }

  function AnnotatedOf(rows: seq<Candidate>, sampleId: string, args: GateArgs): seq<Scored> {
    if rows == [] then []
    else
      AnnotatedOf(Init(rows), sampleId, args)
      + if Last(rows).sampleId == sampleId then [Annotated(Last(rows), args)] else []
  }

  function DecideFor(sampleId: string, rows: seq<Candidate>, args: GateArgs,
                     overrides: map<string, seq<Override>>): SampleResult {
    Decide(sampleId, AnnotatedOf(rows, sampleId, args), args, overrides)
  }

  datatype GateResult = Completed(selected: seq<Scored>, decisions: seq<Decision>) | GateAborted(why: AbortReason)

  /** The chosen rows of a list of decisions. */
  function Choices(decisions: seq<Decision>): seq<Scored> {
    if decisions == [] then []
    else Choices(Init(decisions)) + if Last(decisions).Chose? then [Last(decisions).choice] else []
  }

  method GatherAnnotated(rows: seq<Candidate>, sampleId: string, args: GateArgs) returns (annotated: seq<Scored>)
    ensures annotated == AnnotatedOf(rows, sampleId, args)
  {
    annotated := [];
    for k := 0 to |rows|
      invariant annotated == AnnotatedOf(rows[..k], sampleId, args)
    {
      assert Init(rows[..k + 1]) == rows[..k];
      if rows[k].sampleId == sampleId {
        var reasons := RejectionReasons(rows[k], args);
        var score := CandidateScore(rows[k], args);
        annotated := annotated + [Scored(rows[k], reasons, score)];
      }
    }
    assert rows[..|rows|] == rows;
  }

  method DecideSample(sampleId: string, annotated: seq<Scored>, args: GateArgs, overrides: map<string, seq<Override>>)
    returns (result: SampleResult)
    ensures result == Decide(sampleId, annotated, args, overrides)
  {
    hide Filter, FirstMax, OverrideChoice;
    var override := SelectListeningOverride(sampleId, annotated, overrides);
    match override {
      case OverrideAborts(why) => return Aborted(why);
      case Overridden(choice) => return Decided(Chose(sampleId, ListeningOverride, choice));
      case NoOverride =>
    }
    var viable := Filter(annotated, Viable);
    var fallbackPool := EligibleFallbackPool(annotated);
    if viable == [] && fallbackPool == [] {
      return Decided(ChoseNone(sampleId, if fallbackPool == [] then AllFailedHardGate else AllFailedStrictGate));
    }
    if viable != [] {
      var chosen := PickFirstMax(viable, ScoreLess);
      return Decided(Chose(sampleId, Strict, chosen));
    }
    var chosen := PickFirstMax(fallbackPool, KeyLess(args));
    return Decided(Chose(sampleId, BestWithinDrift, chosen));
  }

  /** The result of a run that finished. */
  ghost predicate FinishedRun(result: GateResult, rows: seq<Candidate>, args: GateArgs,
                              overrides: map<string, seq<Override>>) {
    && result.Completed?
    && |result.decisions| == |SampleOrder(rows)|
    && result.selected == Choices(result.decisions)
    && forall i :: 0 <= i < |result.decisions| ==>
         Decided(result.decisions[i]) == DecideFor(SampleOrder(rows)[i], rows, args, overrides)
  }

  /** The loop of `main` over the samples. */
  method RunGate(rows: seq<Candidate>, args: GateArgs,
                 overrides: map<string, seq<Override>>) returns (result: GateResult)
    ensures result.Completed? ==> FinishedRun(result, rows, args, overrides)
    ensures result.GateAborted? ==>
              exists i :: 0 <= i < |SampleOrder(rows)|
                && DecideFor(SampleOrder(rows)[i], rows, args, overrides) == Aborted(result.why)
  {
    hide Decide, AnnotatedOf, StableSort;
    var decisions: seq<Decision> := [];
    var selected: seq<Scored> := [];
    var order := SampleOrder(rows);
    for i := 0 to |order|
      invariant |decisions| == i && selected == Choices(decisions)
      invariant forall k :: 0 <= k < i ==> Decided(decisions[k]) == DecideFor(order[k], rows, args, overrides)
    {
      var sampleId := order[i];
      var annotated := GatherAnnotated(rows, sampleId, args);
      var one := DecideSample(sampleId, annotated, args, overrides);
      if one.Aborted? { return GateAborted(one.why); }
      var decision := one.decision;
      assert Init(decisions + [decision]) == decisions;
      decisions := decisions + [decision];
      if decision.Chose? { selected := selected + [decision.choice]; }
    }
    result := Completed(selected, decisions);
  }

  // ---------------------------------------------------------------- safety

  lemma EligibleIffNoHardReason(s: Scored)
    ensures Eligible(s) <==> !HasHardReason(s)
    ensures Eligible(s) <==> ReasonSet(s) <= {FlatF0}
  {
    forall r: Reason ensures r in HARD_REASONS || r in SOFT_REASONS {
      match r case LowAsr => case HighDrift => case HighFitDelta => case FlatF0 => case LowTermRecall =>
      case TailTruncation => case BadJoinQuality =>
    }
  }

  /** What a candidate must measure up to; an absent measurement is not held against it. */
  ghost predicate MeetsLimits(row: Candidate, args: GateArgs) {
    && row.similarity >= args.minSimilarity
    && row.absDriftMs <= args.maxDriftMs
    && (row.fitDelta.Some? ==> row.fitDelta.value <= args.maxFitDelta)
    && (row.termRecall.Some? ==> row.termRecall.value >= args.minTermRecall)
    && (args.minTailRecall > 0.0 && row.tailRecall.Some? ==> row.tailRecall.value >= args.minTailRecall)
    && (row.joinPass == Some(false) ==> args.allowFailedJoin)
  }

  /** Every reason is given exactly for its measurement. */
  lemma ReasonListed(row: Candidate, args: GateArgs)
    ensures var reasons := RejectionReasons(row, args);
            && (LowAsr in reasons <==> row.similarity < args.minSimilarity)
            && (HighDrift in reasons <==> row.absDriftMs > args.maxDriftMs)
            && (HighFitDelta in reasons <==> row.fitDelta.Some? && row.fitDelta.value > args.maxFitDelta)
            && (FlatF0 in reasons <==> row.f0Range.Some? && row.f0Range.value < args.minF0Range)
            && (LowTermRecall in reasons <==> row.termRecall.Some? && row.termRecall.value < args.minTermRecall)
            && (TailTruncation in reasons <==>
                  args.minTailRecall > 0.0 && row.tailRecall.Some? && row.tailRecall.value < args.minTailRecall)
            && (BadJoinQuality in reasons <==> row.joinPass == Some(false) && !args.allowFailedJoin)
  {
    hide If;
  }

  /** A candidate has a hard reason exactly when it misses a limit, and no reason at all
      exactly when it also has enough melody. */
  lemma HardReasonIff(row: Candidate, args: GateArgs)
    ensures HasHardReason(Annotated(row, args)) <==> !MeetsLimits(row, args)
    ensures Annotated(row, args).reasons == [] <==>
              MeetsLimits(row, args) && !(row.f0Range.Some? && row.f0Range.value < args.minF0Range)
  {
    hide RejectionReasons;
    var s := Annotated(row, args);
    ReasonListed(row, args);
    EligibleIffNoHardReason(s);
    if s.reasons != [] { assert s.reasons[0] in ReasonSet(s); }
    if HasHardReason(s) { var r :| r in ReasonSet(s) && r in HARD_REASONS; }
    if !MeetsLimits(row, args) {
      assert LowAsr in ReasonSet(s) || HighDrift in ReasonSet(s) || HighFitDelta in ReasonSet(s)
          || LowTermRecall in ReasonSet(s) || TailTruncation in ReasonSet(s) || BadJoinQuality in ReasonSet(s);
    }
  }

  /** A target without a hard reason has only soft ones: that abort cannot happen. */
  lemma UnsupportedReasonUnreachable(sampleId: string, annotated: seq<Scored>, overrides: map<string, seq<Override>>)
    ensures OverrideChoice(sampleId, annotated, overrides) != OverrideAborts(TargetHasUnsupportedReason)
  {
    var list := OverridesFor(sampleId, overrides);
    if list != [] {
      var matches := Filter(annotated, (s: Scored) => Matches(s, list[0]));
      if matches != [] { EligibleIffNoHardReason(FirstMax(matches, ScoreLess)); }
    }
  }

  lemma ScoresCompare()
    ensures ComparesKeys(ScoreLess)
  {
  }

  lemma {:induction false} LexCompares(a: seq<real>, b: seq<real>, c: seq<real>)
    ensures !LexLess(a, a)
    ensures LexLess(a, b) ==> !LexLess(b, a)
    ensures !LexLess(a, b) && !LexLess(b, c) ==> !LexLess(a, c)
    decreases |a| + |b| + |c|
  {
    if a != [] && b != [] && c != [] {
      LexCompares(a[1..], b[1..], c[1..]);
    } else if a != [] && b != [] {
      LexCompares(a[1..], b[1..], []);
    } else if a != [] {
      LexCompares(a[1..], [], []);
    }
  }

  lemma KeysCompare(args: GateArgs)
    ensures ComparesKeys(KeyLess(args))
  {
    hide LexLess, FallbackKey;
    var less := KeyLess(args);
    forall x, y, z
      ensures !less(x, x)
      ensures !less(x, y) && !less(y, z) ==> !less(x, z)
      ensures less(x, y) ==> !less(y, x)
    {
      LexCompares(FallbackKey(x, args), FallbackKey(y, args), FallbackKey(z, args));
    }
  }

  lemma AnnotatedKeepsRow(row: Candidate, args: GateArgs)
    ensures Annotated(row, args).row == row
  {
  }

  lemma {:induction false} AnnotatedMembers(rows: seq<Candidate>, sampleId: string, args: GateArgs)
    ensures forall s :: s in AnnotatedOf(rows, sampleId, args) <==>
              s.row in rows && s.row.sampleId == sampleId && s == Annotated(s.row, args)
  {
    hide Annotated;
    if rows != [] {
      var front, last := Init(rows), Last(rows);
      AnnotatedMembers(front, sampleId, args);
      assert rows == front + [last];
      forall s ensures s in AnnotatedOf(rows, sampleId, args) <==>
                         s.row in rows && s.row.sampleId == sampleId && s == Annotated(s.row, args)
      {
        AnnotatedKeepsRow(last, args);
      }
    }
  }

  /** What a decision promises about the candidates of its sample. */
  ghost predicate SoundDecision(d: Decision, annotated: seq<Scored>, args: GateArgs,
                                overrides: map<string, seq<Override>>) {
    match d
    case Chose(id, ListeningOverride, choice) =>
      && choice in annotated && !HasHardReason(choice) && ReasonSet(choice) <= {FlatF0}
      && OverridesFor(id, overrides) != [] && Matches(choice, OverridesFor(id, overrides)[0])
      && forall s :: s in annotated && Matches(s, OverridesFor(id, overrides)[0]) ==> s.score <= choice.score
    case Chose(id, Strict, choice) =>
      && choice in annotated && choice.reasons == []
      && OverridesFor(id, overrides) == []
      && forall s :: s in annotated && s.reasons == [] ==> s.score <= choice.score
    case Chose(id, BestWithinDrift, choice) =>
      && choice in annotated && ReasonSet(choice) == {FlatF0}
      && OverridesFor(id, overrides) == []
      && (forall s :: s in annotated ==> s.reasons != [])
      && forall s :: s in annotated && !HasHardReason(s) ==> !LexLess(FallbackKey(choice, args), FallbackKey(s, args))
    case ChoseNone(id, reason) =>
      && reason == AllFailedHardGate
      && OverridesFor(id, overrides) == []
      && forall s :: s in annotated ==> HasHardReason(s)
  }

  lemma ChoiceReasons(s: Scored)
    ensures s.reasons != [] && !HasHardReason(s) ==> ReasonSet(s) == {FlatF0}
    ensures s.reasons == [] ==> !HasHardReason(s)
  {
    EligibleIffNoHardReason(s);
    if s.reasons != [] { assert s.reasons[0] in ReasonSet(s); }
  }

  lemma OverrideDecisionSound(sampleId: string, annotated: seq<Scored>, args: GateArgs,
                              overrides: map<string, seq<Override>>)
    requires OverrideChoice(sampleId, annotated, overrides).Overridden?
    ensures var choice := OverrideChoice(sampleId, annotated, overrides).choice;
            SoundDecision(Chose(sampleId, ListeningOverride, choice), annotated, args, overrides)
  {
    var list := OverridesFor(sampleId, overrides);
    var isMatch := (s: Scored) => Matches(s, list[0]);
    var matches := Filter(annotated, isMatch);
    FilterMembers(annotated, isMatch);
    ScoresCompare();
    FirstMaxIsMax(matches, ScoreLess);
    EligibleIffNoHardReason(FirstMax(matches, ScoreLess));
    forall s | s in annotated && Matches(s, list[0]) ensures s.score <= FirstMax(matches, ScoreLess).score {
      assert isMatch(s) && s in matches;
    }
  }

  /** The candidate goes by this name: its own, the one it had upstream, or one of its chain. */
  ghost predicate GoesBy(row: Candidate, name: string) {
    row.name == name || row.upstreamName == Some(name) || name in row.nameChain
  }

  /** A human choice is honoured: the only candidate that goes by the name asked for is
      taken, unless it misses a limit; then the run aborts. */
  lemma OverrideHonoured(sampleId: string, annotated: seq<Scored>, args: GateArgs,
                         overrides: map<string, seq<Override>>, name: string, wanted: Scored)
    requires sampleId in overrides && overrides[sampleId] != [] && overrides[sampleId][0].target == Some(name)
    requires wanted in annotated && wanted == Annotated(wanted.row, args) && GoesBy(wanted.row, name)
    requires forall s :: s in annotated && GoesBy(s.row, name) ==> s == wanted
    ensures Decide(sampleId, annotated, args, overrides)
            == if MeetsLimits(wanted.row, args) then Decided(Chose(sampleId, ListeningOverride, wanted))
               else Aborted(TargetHasHardReason)
  {
    hide MeetsLimits, FirstMax, Annotated, HasHardReason;
    var first := OverridesFor(sampleId, overrides)[0];
    var isMatch := (s: Scored) => Matches(s, first);
    var matches := Filter(annotated, isMatch);
    FilterMembers(annotated, isMatch);
    assert isMatch(wanted) && wanted in matches;
    ScoresCompare();
    FirstMaxIsMax(matches, ScoreLess);
    assert isMatch(FirstMax(matches, ScoreLess));
    HardReasonIff(wanted.row, args);
    EligibleIffNoHardReason(wanted);
  }

  /** Every decision that is made is sound: no hard failure is ever let through. */
  lemma DecideSound(sampleId: string, annotated: seq<Scored>, args: GateArgs, overrides: map<string, seq<Override>>)
    requires Decide(sampleId, annotated, args, overrides).Decided?
    ensures SoundDecision(Decide(sampleId, annotated, args, overrides).decision, annotated, args, overrides)
  {
    hide Filter, FirstMax, FallbackKey, LexLess, HasHardReason, ReasonSet, Matches;
    if OverrideChoice(sampleId, annotated, overrides).Overridden? {
      OverrideDecisionSound(sampleId, annotated, args, overrides);
    } else {
      var viable, pool := Filter(annotated, Viable), Filter(annotated, Eligible);
      FilterMembers(annotated, Viable);
      FilterMembers(annotated, Eligible);
      forall s | s in annotated ensures Eligible(s) <==> !HasHardReason(s) { EligibleIffNoHardReason(s); }
      if viable != [] {
        ScoresCompare();
        FirstMaxIsMax(viable, ScoreLess);
      } else if pool != [] {
        var choice := FirstMax(pool, KeyLess(args));
        KeysCompare(args);
        FirstMaxIsMax(pool, KeyLess(args));
        ChoiceReasons(choice);
        forall s | s in annotated ensures s.reasons != [] { assert !Viable(s); }
        forall s | s in annotated && !HasHardReason(s)
          ensures !LexLess(FallbackKey(choice, args), FallbackKey(s, args))
        {
          assert s in pool && !KeyLess(args)(choice, s);
        }
      } else {
        forall s | s in annotated ensures HasHardReason(s) { assert s !in pool; }
      }
      NoOverrideMeansNone(sampleId, annotated, overrides);
    }
  }

  /** Of several best candidates the first in the input order is taken. */
  lemma EarliestIsTaken(sampleId: string, annotated: seq<Scored>, args: GateArgs, overrides: map<string, seq<Override>>)
    requires sampleId !in overrides || overrides[sampleId] == []
    ensures var r := Decide(sampleId, annotated, args, overrides);
            r.Decided? && (r.decision.Chose? ==>
              exists i :: 0 <= i < |annotated| && annotated[i] == r.decision.choice
                && forall j :: 0 <= j < i ==>
                     var rival, choice := annotated[j], annotated[i];
                     && (choice.reasons == [] && rival.reasons == [] ==> rival.score < choice.score)
                     && (choice.reasons != [] && !HasHardReason(rival) ==>
                           LexLess(FallbackKey(rival, args), FallbackKey(choice, args))))
  {
    hide Filter, FirstMax, FallbackKey, LexLess, HasHardReason, ReasonSet;
    FilterMembers(annotated, Viable);
    forall s ensures Eligible(s) <==> !HasHardReason(s) { EligibleIffNoHardReason(s); }
    if Filter(annotated, Viable) != [] {
      ScoresCompare();
      var i := FirstMaxIsFirst(annotated, Viable, ScoreLess);
    } else if Filter(annotated, Eligible) != [] {
      KeysCompare(args);
      var i := FirstMaxIsFirst(annotated, Eligible, KeyLess(args));
      assert annotated[i] in annotated && !Viable(annotated[i]);
      assert forall j :: 0 <= j < i && Eligible(annotated[j]) ==> KeyLess(args)(annotated[j], annotated[i]);
    }
  }

  lemma NoOverrideMeansNone(sampleId: string, annotated: seq<Scored>, overrides: map<string, seq<Override>>)
    requires OverrideChoice(sampleId, annotated, overrides) == NoOverride
    ensures OverridesFor(sampleId, overrides) == []
  {
  }

  lemma {:induction false} SampleKeysFacts(rows: seq<Candidate>)
    ensures Distinct(SampleKeys(rows))
    ensures forall id :: id in SampleKeys(rows) <==> exists row :: row in rows && row.sampleId == id
  {
    if rows != [] {
      var front, last := Init(rows), Last(rows);
      SampleKeysFacts(front);
      assert rows == front + [last];
      forall id ensures id in SampleKeys(rows) <==> exists row :: row in rows && row.sampleId == id {
        if id == last.sampleId { assert last in rows; }
        if id in SampleKeys(front) {
          var row :| row in front && row.sampleId == id;
          assert row in rows;
        }
      }
    }
  }

  /** Code point order: a starts b, or is smaller where they first differ. */
  ghost predicate Precedes(a: string, b: string) {
    a <= b || exists k :: LessAt(a, b, k)
  }

  /** The strings agree before k, and the first is less there. */
  ghost predicate LessAt(a: string, b: string, k: int) {
    0 <= k < |a| && k < |b| && a[..k] == b[..k] && a[k] < b[k]
  }

  lemma LessLater(a: string, b: string, k: nat)
    requires a != "" && b != ""
    ensures LessAt(a, b, 0) <==> a[0] < b[0]
    ensures LessAt(a, b, k + 1) <==> a[0] == b[0] && LessAt(a[1..], b[1..], k)
    ensures a <= b <==> a[0] == b[0] && a[1..] <= b[1..]
  {
    assert a == [a[0]] + a[1..] && b == [b[0]] + b[1..];
    if k + 1 < |a| && k + 1 < |b| {
      assert a[..k + 1] == [a[0]] + a[1..][..k] && b[..k + 1] == [b[0]] + b[1..][..k];
    }
  }

  lemma {:induction false} StrLeMeaning(a: string, b: string)
    ensures StrLe(a, b) <==> Precedes(a, b)
  {
    hide LessAt;
    forall k | LessAt(a, b, k) ensures 0 <= k < |a| && k < |b| { LessIsWithin(a, b, k); }
    if a != "" && b != "" {
      var a', b' := a[1..], b[1..];
      LessLater(a, b, 0);
      if a[0] == b[0] { StrLeMeaning(a', b'); }
      if k :| LessAt(a, b, k) && k != 0 { LessLater(a, b, k - 1); }
      if k :| LessAt(a', b', k) {
        LessIsWithin(a', b', k);
        LessLater(a, b, k);
      }
    }
  }

  lemma LessIsWithin(a: string, b: string, k: int)
    requires LessAt(a, b, k)
    ensures 0 <= k < |a| && k < |b|
  {
  }

  lemma {:induction false} StrLeOrders(a: string, b: string, c: string)
    ensures StrLe(a, b) || StrLe(b, a)
    ensures StrLe(a, b) && StrLe(b, c) ==> StrLe(a, c)
    decreases |a|
  {
    if a != "" {
      StrLeOrders(a[1..], if b == "" then "" else b[1..], if c == "" then "" else c[1..]);
    }
  }

  lemma StrLeTotal()
    ensures TotalPreorder(StrLe)
  {
    forall x, y ensures StrLe(x, y) || StrLe(y, x) { StrLeOrders(x, y, ""); }
    forall x, y, z | StrLe(x, y) && StrLe(y, z) ensures StrLe(x, z) { StrLeOrders(x, y, z); }
  }

  /** One turn per sample: the order lists every sample of the input exactly once, by id. */
  lemma SampleOrderFacts(rows: seq<Candidate>)
    ensures Distinct(SampleOrder(rows))
    ensures forall i, j :: 0 <= i < j < |SampleOrder(rows)| ==> Precedes(SampleOrder(rows)[i], SampleOrder(rows)[j])
    ensures forall id :: id in SampleOrder(rows) <==> exists row :: row in rows && row.sampleId == id
  {
    hide StrLe, Precedes, StableSort;
    SampleKeysFacts(rows);
    StrLeTotal();
    SortSorts(SampleKeys(rows), StrLe);
    forall i, j | 0 <= i < j < |SampleOrder(rows)| ensures Precedes(SampleOrder(rows)[i], SampleOrder(rows)[j]) {
      StrLeMeaning(SampleOrder(rows)[i], SampleOrder(rows)[j]);
    }
    SortPermutes(SampleKeys(rows), StrLe);
    PermutationDistinct(SampleKeys(rows), SampleOrder(rows));
    SortMembers(SampleKeys(rows), StrLe);
  }

  lemma {:induction false} ChoicesMembers(decisions: seq<Decision>)
    ensures forall s :: s in Choices(decisions) ==>
              exists i :: 0 <= i < |decisions| && decisions[i].Chose? && decisions[i].choice == s
  {
    if decisions != [] {
      var front := Init(decisions);
      ChoicesMembers(front);
      forall s | s in Choices(decisions)
        ensures exists i :: 0 <= i < |decisions| && decisions[i].Chose? && decisions[i].choice == s
      {
        if s in Choices(front) {
          var i :| 0 <= i < |front| && front[i].Chose? && front[i].choice == s;
          assert decisions[i].choice == s;
        } else {
          assert decisions[|decisions| - 1].choice == s;
        }
      }
    }
  }

  /** Safety of a whole run: every sample has exactly one decision, each decision is
      sound for the candidates of its sample, and every selected row is one of the input
      rows, scored, and measures up to every limit. */
  lemma GateIsSafe(result: GateResult, rows: seq<Candidate>, args: GateArgs, overrides: map<string, seq<Override>>)
    requires FinishedRun(result, rows, args, overrides)
    ensures forall i, j :: 0 <= i < j < |result.decisions| ==>
              result.decisions[i].sampleId != result.decisions[j].sampleId
    ensures forall row :: row in rows ==>
              exists i :: 0 <= i < |result.decisions| && result.decisions[i].sampleId == row.sampleId
    ensures forall i :: 0 <= i < |result.decisions| ==>
              SoundDecision(result.decisions[i], AnnotatedOf(rows, result.decisions[i].sampleId, args), args, overrides)
    ensures forall s :: s in result.selected ==> s.row in rows && s == Annotated(s.row, args) && !HasHardReason(s)
    ensures forall s :: s in result.selected ==> MeetsLimits(s.row, args)
  {
    hide MeetsLimits, AnnotatedOf, SoundDecision, SampleOrder, HasHardReason, Annotated, Choices, OverrideChoice,
         Filter, FirstMax;
    var order := SampleOrder(rows);
    SampleOrderFacts(rows);
    forall i | 0 <= i < |order|
      ensures result.decisions[i].sampleId == order[i]
      ensures SoundDecision(result.decisions[i], AnnotatedOf(rows, order[i], args), args, overrides)
    {
      assert Decided(result.decisions[i]) == DecideFor(order[i], rows, args, overrides);
      DecideSound(order[i], AnnotatedOf(rows, order[i], args), args, overrides);
      DecideKeepsId(order[i], AnnotatedOf(rows, order[i], args), args, overrides);
    }
    forall row | row in rows
      ensures exists i :: 0 <= i < |result.decisions| && result.decisions[i].sampleId == row.sampleId
    {
      assert row.sampleId in order;
      var i :| 0 <= i < |order| && order[i] == row.sampleId;
      assert result.decisions[i].sampleId == row.sampleId;
    }
    ChoicesMembers(result.decisions);
    forall s | s in result.selected
      ensures s.row in rows && s == Annotated(s.row, args) && !HasHardReason(s) && MeetsLimits(s.row, args)
    {
      var i :| 0 <= i < |result.decisions| && result.decisions[i].Chose? && result.decisions[i].choice == s;
      SoundChoice(result.decisions[i], AnnotatedOf(rows, order[i], args), args, overrides);
      AnnotatedMembers(rows, order[i], args);
      HardReasonIff(s.row, args);
    }
  }

  lemma DecideKeepsId(sampleId: string, annotated: seq<Scored>, args: GateArgs, overrides: map<string, seq<Override>>)
    requires Decide(sampleId, annotated, args, overrides).Decided?
    ensures Decide(sampleId, annotated, args, overrides).decision.sampleId == sampleId
  {
  }

  lemma SoundChoice(d: Decision, annotated: seq<Scored>, args: GateArgs, overrides: map<string, seq<Override>>)
    requires SoundDecision(d, annotated, args, overrides) && d.Chose?
    ensures d.choice in annotated && !HasHardReason(d.choice)
  {
    ChoiceReasons(d.choice);
    EligibleIffNoHardReason(d.choice);
  }

  /** Without overrides for a sample, nothing is selected if and only if every candidate
      has a hard reason. */
  lemma NoSelectionIff(sampleId: string, annotated: seq<Scored>, args: GateArgs, overrides: map<string, seq<Override>>)
    requires sampleId !in overrides || overrides[sampleId] == []
    ensures var r := Decide(sampleId, annotated, args, overrides);
            r.Decided? && (r.decision.ChoseNone? <==> forall s :: s in annotated ==> HasHardReason(s))
  {
    hide SoundDecision, Filter, FirstMax;
    DecideSound(sampleId, annotated, args, overrides);
    var d := Decide(sampleId, annotated, args, overrides).decision;
    if d.Chose? {
      SoundChoice(d, annotated, args, overrides);
    } else {
      NoneIsHard(d, annotated, args, overrides);
    }
  }

  /** The same on the input rows: without overrides a sample stays without a choice if and
      only if every one of its candidates misses a limit. */
  lemma UnselectedIffAllMiss(sampleId: string, rows: seq<Candidate>, args: GateArgs,
                             overrides: map<string, seq<Override>>)
    requires sampleId !in overrides || overrides[sampleId] == []
    ensures var r := DecideFor(sampleId, rows, args, overrides);
            r.Decided? && (r.decision.ChoseNone? <==>
              forall row :: row in rows && row.sampleId == sampleId ==> !MeetsLimits(row, args))
  {
    hide MeetsLimits, AnnotatedOf, Decide, HasHardReason, Annotated;
    var annotated := AnnotatedOf(rows, sampleId, args);
    NoSelectionIff(sampleId, annotated, args, overrides);
    AnnotatedMembers(rows, sampleId, args);
    forall s | s in annotated ensures HasHardReason(s) <==> !MeetsLimits(s.row, args) { HardReasonIff(s.row, args); }
    forall row | row in rows && row.sampleId == sampleId
      ensures Annotated(row, args) in annotated && (HasHardReason(Annotated(row, args)) <==> !MeetsLimits(row, args))
    {
      AnnotatedKeepsRow(row, args);
      HardReasonIff(row, args);
    }
    if forall row :: row in rows && row.sampleId == sampleId ==> !MeetsLimits(row, args) {
      forall s | s in annotated ensures HasHardReason(s) { assert s.row in rows; }
    }
  }

  lemma NoneIsHard(d: Decision, annotated: seq<Scored>, args: GateArgs, overrides: map<string, seq<Override>>)
    requires SoundDecision(d, annotated, args, overrides) && d.ChoseNone?
    ensures forall s :: s in annotated ==> HasHardReason(s)
  {
  }

  // ---------------------------------------------------------------- the score

  /** No worse in any measurement, with the same ones present. */
  ghost predicate AsGood(a: Candidate, b: Candidate) {
    && a.similarity >= b.similarity && a.absDriftMs <= b.absDriftMs
    && OrElse(a.fitDelta, 0.0) <= OrElse(b.fitDelta, 0.0)
    && (OrElse(b.f0Range, 0.0) > 0.0 ==> OrElse(a.f0Range, 0.0) >= OrElse(b.f0Range, 0.0))
    && (OrElse(b.f0Range, 0.0) <= 0.0 ==> OrElse(a.f0Range, 0.0) <= 0.0)
    && (a.termRecall.Some? <==> b.termRecall.Some?)
    && (a.termRecall.Some? ==> a.termRecall.value >= b.termRecall.value)
  }

  lemma Share(x: real, y: real, d: real)
    requires x <= y && d > 0.0
    ensures x / d <= y / d
  {
    var p, q := x / d, y / d;
    assert p * d == x && q * d == y;
    assert p > q ==> (p - q) * d > 0.0;
  }

  lemma Larger()
    ensures forall x, y :: MaxReal(x, y) >= x && MaxReal(x, y) >= y
    ensures forall x, y, y' :: y <= y' ==> MaxReal(x, y) <= MaxReal(x, y') && MinReal(x, y) <= MinReal(x, y')
  {
  }

  /** A candidate that is as good in every measurement never scores lower. */
  lemma ScoreMonotone(a: Candidate, b: Candidate, args: GateArgs)
    requires AsGood(a, b)
    ensures CandidateScore(a, args) >= CandidateScore(b, args)
  {
    hide MaxReal, MinReal, OrElse;
    Larger();
    Share(a.absDriftMs, b.absDriftMs, MaxReal(args.maxDriftMs, 1.0));
    Share(b.similarity, a.similarity, MaxReal(args.targetSimilarity, 0.000001));
    if OrElse(b.f0Range, 0.0) > 0.0 {
      Share(OrElse(b.f0Range, 0.0), OrElse(a.f0Range, 0.0), MaxReal(args.targetF0Range, 0.000001));
    }
    if a.termRecall.Some? {
      Share(b.termRecall.value, a.termRecall.value, MaxReal(args.targetTermRecall, 0.000001));
    }
  }

  /** A candidate that is on all its targets, and what each measurement is worth to it. */
  lemma ScoreLandmarks(row: Candidate, args: GateArgs)
    requires args.maxDriftMs >= 1.0 && args.targetSimilarity >= 0.1 && args.targetF0Range >= 0.1
    requires args.targetTermRecall >= 0.1
    requires row.similarity == args.targetSimilarity && row.absDriftMs == 0.0 && row.fitDelta == None
    requires row.f0Range == Some(args.targetF0Range) && row.termRecall == None
    ensures CandidateScore(row, args) == 0.97
    ensures CandidateScore(row.(absDriftMs := args.maxDriftMs), args) == 0.97 - 0.28
    ensures CandidateScore(row.(absDriftMs := args.maxDriftMs * 2.0), args) == 0.97 - 0.28
    ensures CandidateScore(row.(similarity := 0.0), args) == 0.97 - 0.42
    ensures CandidateScore(row.(similarity := args.targetSimilarity * 2.0), args) == 0.97 + 0.42 * 0.05
    ensures CandidateScore(row.(f0Range := None), args) == 0.97 - 0.15 * 0.4
    ensures CandidateScore(row.(f0Range := Some(args.targetF0Range * 2.0)), args) == 0.97 + 0.15 * 0.15
    ensures CandidateScore(row.(termRecall := Some(0.0)), args) == 0.97 - 0.12
    ensures CandidateScore(row.(termRecall := Some(args.targetTermRecall * 2.0)), args) == 0.97 + 0.12 * 0.05
    ensures CandidateScore(row.(fitDelta := Some(0.1)), args) == 0.97 - 0.03 * 0.3
    ensures CandidateScore(row.(fitDelta := Some(1.0)), args) == 0.97 - 0.03 * 0.4
  {
    Whole(args.maxDriftMs);
    Whole(args.targetSimilarity);
    Whole(args.targetF0Range);
    Whole(args.targetTermRecall);
  }

  lemma Whole(x: real)
    requires x > 0.0
    ensures x / x == 1.0 && x * 2.0 / x == 2.0 && 0.0 / x == 0.0
  {
  }

  // ---------------------------------------------------------------- the fallback key

  /** On the pool of a sample without clean candidates the three threshold components
      of the key are the same for every candidate: they decide nothing. */
  lemma FallbackThresholdsConstant(row: Candidate, args: GateArgs)
    requires var s := Annotated(row, args); s.reasons != [] && !HasHardReason(s)
    ensures var key := FallbackKey(Annotated(row, args), args);
            key[0] == 1.0 && key[1] == 1.0 && key[5] == 0.0
  {
    var s := Annotated(row, args);
    ChoiceReasons(s);
    ReasonListed(row, args);
    assert LowAsr !in ReasonSet(s) && LowTermRecall !in ReasonSet(s) && FlatF0 in ReasonSet(s);
  }

  /** What really ranks fallbacks: more similar first, then the better term recall, the
      better latin recall, the smaller drift, the smaller change of tempo, the score. */
  ghost predicate Outranks(a: Scored, b: Scored) {
    var termA, termB := OrElse(a.row.termRecall, 1.0), OrElse(b.row.termRecall, 1.0);
    var latinA, latinB := OrElse(a.row.latinRecall, 1.0), OrElse(b.row.latinRecall, 1.0);
    var fitA, fitB := OrElse(a.row.fitDelta, 0.0), OrElse(b.row.fitDelta, 0.0);
    if a.row.similarity != b.row.similarity then a.row.similarity > b.row.similarity
    else if termA != termB then termA > termB
    else if latinA != latinB then latinA > latinB
    else if a.row.absDriftMs != b.row.absDriftMs then a.row.absDriftMs < b.row.absDriftMs
    else if fitA != fitB then fitA < fitB
    else a.score > b.score
  }

  lemma LexHead(x: real, xs: seq<real>, y: real, ys: seq<real>)
    ensures LexLess([x] + xs, [y] + ys) <==> x < y || (x == y && LexLess(xs, ys))
  {
    assert ([x] + xs)[1..] == xs && ([y] + ys)[1..] == ys;
  }

  lemma LexLessSix(a: seq<real>, b: seq<real>)
    requires |a| == |b| == 6
    ensures LexLess(a, b) <==>
              if a[0] != b[0] then a[0] < b[0]
              else if a[1] != b[1] then a[1] < b[1]
              else if a[2] != b[2] then a[2] < b[2]
              else if a[3] != b[3] then a[3] < b[3]
              else if a[4] != b[4] then a[4] < b[4]
              else a[5] < b[5]
  {
    hide LexLess;
    LexTail(a, b, 0);
    LexTail(a, b, 1);
    LexTail(a, b, 2);
    LexTail(a, b, 3);
    LexTail(a, b, 4);
    LexTail(a, b, 5);
    assert a[0..] == a && b[0..] == b && a[6..] == [] && b[6..] == [];
    LexCompares([], [], []);
  }

  lemma LexTail(a: seq<real>, b: seq<real>, i: nat)
    requires i < |a| == |b|
    ensures LexLess(a[i..], b[i..]) <==> a[i] < b[i] || (a[i] == b[i] && LexLess(a[i + 1..], b[i + 1..]))
  {
    assert a[i..] == [a[i]] + a[i + 1..] && b[i..] == [b[i]] + b[i + 1..];
    LexHead(a[i], a[i + 1..], b[i], b[i + 1..]);
  }

  lemma {:induction false} LexDropCommon(p: seq<real>, q: seq<real>, c: real, a: seq<real>, b: seq<real>)
    requires |p| == |q|
    ensures LexLess(p + [c] + a, q + [c] + b) <==> LexLess(p + a, q + b)
  {
    if p == [] {
      assert ([c] + a)[1..] == a && ([c] + b)[1..] == b;
      assert p + [c] + a == [c] + a && q + [c] + b == [c] + b && p + a == a && q + b == b;
    } else {
      assert (p + [c] + a)[1..] == p[1..] + [c] + a && (q + [c] + b)[1..] == q[1..] + [c] + b;
      assert (p + a)[1..] == p[1..] + a && (q + b)[1..] == q[1..] + b;
      LexDropCommon(p[1..], q[1..], c, a, b);
    }
  }

  /** Fallback candidates are ranked by similarity, term recall, latin recall, drift, fit
      and score alone, in that order. */
  lemma FallbackRanking(x: Candidate, y: Candidate, args: GateArgs)
    requires var s := Annotated(x, args); s.reasons != [] && !HasHardReason(s)
    requires var s := Annotated(y, args); s.reasons != [] && !HasHardReason(s)
    ensures var a, b := Annotated(x, args), Annotated(y, args);
            LexLess(FallbackKey(a, args), FallbackKey(b, args)) <==> Outranks(b, a)
  {
    hide LexLess, Annotated, HasHardReason, Flag;
    var a, b := Annotated(x, args), Annotated(y, args);
    FallbackThresholdsConstant(x, args);
    FallbackThresholdsConstant(y, args);
    var ka, kb := FallbackKey(a, args), FallbackKey(b, args);
    LexDropCommon([], [], 1.0, ka[1..], kb[1..]);
    assert ka == [] + [1.0] + ka[1..] && kb == [] + [1.0] + kb[1..];
    LexDropCommon([], [], 1.0, ka[2..], kb[2..]);
    assert [] + ka[1..] == [] + [1.0] + ka[2..] && [] + kb[1..] == [] + [1.0] + kb[2..];
    LexDropCommon(ka[2..5], kb[2..5], 0.0, ka[6..], kb[6..]);
    assert [] + ka[2..] == ka[2..5] + [0.0] + ka[6..] && [] + kb[2..] == kb[2..5] + [0.0] + kb[6..];
    LexLessSix(ka[2..5] + ka[6..], kb[2..5] + kb[6..]);
  }
}
