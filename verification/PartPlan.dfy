/** The part planner: re-splitting the slowest part and the whole text pipeline. */
module PartPlan {
  import opened Numbers
  import opened Sequences
  import opened Text
  import opened LongRun
  import opened Breath
  import opened Packing
  import opened Islands

  // ---------------------------------------------------------------- estimates

  /** Speech seconds shared out over all parts: pauses come off, 50 ms a part stay. */
  function SpeechSec(count: nat, sec: real, pauseSec: real): real {
    MaxReal(0.05 * count as real, sec - MaxReal(0.0, pauseSec) * Max(0, count - 1) as real)
  }

  function PartSeconds(chars: nat, total: nat, speech: real): real
    requires total > 0
  {
    speech * chars as real / total as real
  }

  /** `estimated_part_seconds`. */
  function Estimates(parts: seq<string>, sec: real, pauseSec: real): seq<real> {
    var total := TotalChars(parts);
    if parts == [] || total <= 0 then []
    else
      var speech := SpeechSec(|parts|, sec, pauseSec);
      seq(|parts|, i requires 0 <= i < |parts| => PartSeconds(CountChars(parts[i]), total, speech))
  }

  ghost function SumReal(s: seq<real>): real {
    if s == [] then 0.0 else SumReal(Init(s)) + Last(s)
  }

  function Times(x: real, n: int): real { x * n as real }

  lemma ShareAdds(sum: real, chars: int, more: nat, total: nat, speech: real)
    requires total > 0
    ensures Times(0.0, total) == Times(speech, 0)
    ensures Times(sum + PartSeconds(more, total, speech), total) == Times(sum, total) + Times(speech, more)
    ensures Times(speech, chars + more) == Times(speech, chars) + Times(speech, more)
  {
    var share := PartSeconds(more, total, speech);
    assert share * total as real == speech * more as real;
  }

  lemma {:induction false} SharesAddUp(parts: seq<string>, n: nat, total: nat, speech: real, sec: seq<real>)
    requires total > 0 && n <= |parts| == |sec|
    requires forall i :: 0 <= i < |sec| ==> sec[i] == PartSeconds(CountChars(parts[i]), total, speech)
    ensures Times(SumReal(sec[..n]), total) == Times(speech, TotalChars(parts[..n]))
  {
    hide CountChars, Times, PartSeconds;
    if n == 0 {
      assert sec[..0] == [] && parts[..0] == [];
      ShareAdds(0.0, 0, 0, total, speech);
    } else {
      SharesAddUp(parts, n - 1, total, speech, sec);
      assert Init(sec[..n]) == sec[..n - 1] && Init(parts[..n]) == parts[..n - 1];
      assert Last(sec[..n]) == PartSeconds(CountChars(parts[n - 1]), total, speech);
      ShareAdds(SumReal(sec[..n - 1]), TotalChars(parts[..n - 1]), CountChars(parts[n - 1]), total, speech);
    }
  }

  /** The estimates share the speech time in proportion to the characters: what the pauses
      leave of the seconds, but at least 50 ms a part. */
  lemma EstimatesShareSpeech(parts: seq<string>, sec: real, pauseSec: real)
    requires TotalChars(parts) > 0
    ensures var e := Estimates(parts, sec, pauseSec);
            var pauses := MaxReal(0.0, pauseSec) * (|parts| as real - 1.0);
            && |e| == |parts|
            && SumReal(e) == MaxReal(|parts| as real / 20.0, sec - pauses)
            && forall i, j :: 0 <= i < |e| && 0 <= j < |e| ==>
                 e[i] * CountChars(parts[j]) as real == e[j] * CountChars(parts[i]) as real
  {
    hide CountChars, TotalChars, PartSeconds, SpeechSec, SumReal, MaxReal, Times;
    NothingTotal();
    SpeechMeaning(|parts|, sec, pauseSec);
    var total, e := TotalChars(parts), Estimates(parts, sec, pauseSec);
    var speech := SpeechSec(|parts|, sec, pauseSec);
    SharesAddUp(parts, |parts|, total, speech, e);
    assert |e| == |parts| && e[..|e|] == e && parts[..|parts|] == parts;
    SameFactor(SumReal(e), speech, total);
    forall i, j | 0 <= i < |e| && 0 <= j < |e|
      ensures e[i] * CountChars(parts[j]) as real == e[j] * CountChars(parts[i]) as real
    {
      SharesInProportion(CountChars(parts[i]), CountChars(parts[j]), total, speech);
    }
  }

  lemma SpeechMeaning(count: nat, sec: real, pauseSec: real)
    requires count > 0
    ensures SpeechSec(count, sec, pauseSec)
            == MaxReal(count as real / 20.0, sec - MaxReal(0.0, pauseSec) * (count as real - 1.0))
  {
  }

  lemma SameFactor(a: real, b: real, total: nat)
    requires total > 0 && Times(a, total) == Times(b, total)
    ensures a == b
  {
  }

  lemma SharesInProportion(a: nat, b: nat, total: nat, speech: real)
    requires total > 0
    ensures PartSeconds(a, total, speech) * b as real == PartSeconds(b, total, speech) * a as real
  {
    var x := speech / total as real;
    assert PartSeconds(a, total, speech) == x * a as real;
    assert PartSeconds(b, total, speech) == x * b as real;
  }

  /** `seconds.index(max(seconds))`: the first of the largest values. */
  function WorstIndex(seconds: seq<real>): (w: nat)
    requires seconds != []
    ensures w < |seconds|
    ensures forall i :: 0 <= i < |seconds| ==> seconds[i] <= seconds[w]
    ensures forall i :: 0 <= i < w ==> seconds[i] < seconds[w]
  {
    if |seconds| == 1 then 0
    else
      var w := WorstIndex(Init(seconds));
      if Last(seconds) > seconds[w] then |seconds| - 1 else w
  }

  lemma SharesAreOrdered(a: nat, b: nat, total: nat, speech: real)
    requires total > 0 && speech > 0.0
    ensures PartSeconds(a, total, speech) < PartSeconds(b, total, speech) <==> a < b
  {
  }

  ghost predicate FirstLongest(parts: seq<string>, w: nat) {
    && w < |parts|
    && (forall i :: 0 <= i < |parts| ==> CountChars(parts[i]) <= CountChars(parts[w]))
    && (forall i :: 0 <= i < w ==> CountChars(parts[i]) < CountChars(parts[w]))
  }

  /** The part picked for re-splitting is the first one with the most characters. */
  lemma WorstIsFirstLongest(parts: seq<string>, sec: real, pauseSec: real)
    requires Estimates(parts, sec, pauseSec) != []
    ensures FirstLongest(parts, WorstIndex(Estimates(parts, sec, pauseSec)))
  {
    hide CountChars, TotalChars;
    var total, speech := TotalChars(parts), SpeechSec(|parts|, sec, pauseSec);
    var seconds := Estimates(parts, sec, pauseSec);
    var w := WorstIndex(seconds);
    assert speech > 0.0;
    forall i | 0 <= i < |parts|
      ensures CountChars(parts[i]) <= CountChars(parts[w])
      ensures i < w ==> CountChars(parts[i]) < CountChars(parts[w])
    {
      assert seconds[i] == PartSeconds(CountChars(parts[i]), total, speech);
      assert seconds[w] == PartSeconds(CountChars(parts[w]), total, speech);
      SharesAreOrdered(CountChars(parts[w]), CountChars(parts[i]), total, speech);
      SharesAreOrdered(CountChars(parts[i]), CountChars(parts[w]), total, speech);
    }
  }

  // ---------------------------------------------------------------- splitting one part

  function HalfChars(text: string): nat { Max(1, CeilDiv(CountChars(text), 2)) }

  /** `split_part_once`: two packed halves, or else the cut run of half the length. */
  ghost function SplitOnce(text: string, args: PlanArgs): seq<string> {
    if CountChars(text) <= 1 then [text]
    else
      var groups := PackShort(BreathGroups(text, args.maxPartChars, args.tables), args.minPartChars);
      if |groups| > 1 && |PackCount(groups, 2)| > 1 then PackCount(groups, 2)
      else SplitRun(text, HalfChars(text), args.tables)
  }

  method SplitPartOnce(text: string, args: PlanArgs) returns (result: seq<string>)
    ensures result == SplitOnce(text, args)
  {
    var chars := CountChars(text);
    if chars <= 1 { return [text]; }
    var breath := SplitBreathGroups(text, args.maxPartChars, args.tables);
    var groups := PackShortGroups(breath, args.minPartChars);
    if |groups| > 1 {
      var split := PackToPartCount(groups, 2);
      if |split| > 1 { return split; }
    }
    result := SplitLongRun(text, Max(1, CeilDiv(chars, 2)), args.tables);
  }

  /** Splitting a part loses nothing, and it really splits exactly the parts that have
      at least two visible characters. */
  lemma SplitOnceFacts(text: string, args: PlanArgs)
    ensures Conserves(SplitOnce(text, args), text)
    ensures |SplitOnce(text, args)| >= 2 <==> CountChars(text) >= 2
    ensures CountChars(text) >= 2 ==> Clean(SplitOnce(text, args))
  {
    hide Squeeze, Join, Strip, PackShort, PackCount, BreathGroups, SplitRun;
    JoinOne(text);
    var breath := BreathGroups(text, args.maxPartChars, args.tables);
    BreathGroupsFacts(text, args.maxPartChars, args.tables);
    PackShortFacts(breath, args.minPartChars);
    PackCountFacts(PackShort(breath, args.minPartChars), 2);
    SplitRunFacts(text, HalfChars(text), args.tables);
    StripFacts(text);
    SqueezeLength(Strip(text));
  }

  lemma PrefixesGrow(groups: seq<string>, a: nat, b: nat)
    requires a <= b <= |groups|
    ensures TotalChars(groups[..a]) <= TotalChars(groups[..b])
  {
    hide TotalChars;
    assert groups[..b] == groups[..a] + groups[a..b];
    TotalCharsConcat(groups[..a], groups[a..b]);
  }

  lemma TwoBlocks(blocks: seq<seq<string>>)
    requires |blocks| == 2
    ensures Flatten(blocks) == blocks[0] + blocks[1]
  {
    assert blocks == [blocks[0]] + [blocks[1]];
    FlattenSnoc([blocks[0]], blocks[1]);
    OneBlock([blocks[0]]);
  }

  lemma OneBlock(blocks: seq<seq<string>>)
    requires |blocks| == 1
    ensures Flatten(blocks) == blocks[0]
  {
    assert Init(blocks) == [];
  }

  lemma FirstBlockIs(groups: seq<string>, first: seq<string>, second: seq<string>, n: nat)
    requires first + second == groups && first != [] && second != [] && 0 < n <= |groups|
    requires 2 * TotalChars(groups[..n]) >= TotalChars(groups) > 2 * TotalChars(groups[..n - 1])
    requires 2 * TotalChars(first) >= TotalChars(groups) > 2 * TotalChars(Init(first))
    ensures n == |first| && first == groups[..n] && second == groups[n..]
  {
    hide TotalChars;
    var m := |first|;
    assert first == groups[..m] && second == groups[m..] && Init(first) == groups[..m - 1];
    if m < n { PrefixesGrow(groups, m, n - 1); }
    if n < m { PrefixesGrow(groups, n, m - 1); }
  }

  /** Packing in two cuts where half the characters are reached first, unless that takes
      the last group. */
  lemma PackTwoAt(groups: seq<string>, n: nat)
    requires |groups| > 2 && Clean(groups) && 0 < n <= |groups|
    requires 2 * TotalChars(groups[..n]) >= TotalChars(groups) > 2 * TotalChars(groups[..n - 1])
    ensures PackCount(groups, 2) == if n < |groups| then [Glue(groups[..n]), Glue(groups[n..])] else [Glue(groups)]
  {
    hide Glue, TotalChars, Flatten, PackCount, Clean, Conserves;
    var blocks := PackCountIsGreedy(groups, 2);
    PackCountFacts(groups, 2);
    if |blocks| == 2 {
      TwoBlocks(blocks);
      FirstBlockIs(groups, blocks[0], blocks[1], n);
    } else {
      OneBlock(blocks);
      assert Init(groups) == groups[..|groups| - 1];
      if n < |groups| { PrefixesGrow(groups, n, |groups| - 1); }
      assert groups[..|groups|] == groups;
    }
  }

  /** The halves of a part. Two packed groups are the halves; more groups are parted where
      half the characters are reached first. A part without two groups, or whose last group
      is needed to reach the half, is cut as a run at half its characters. */
  lemma SplitOnceHalves(text: string, args: PlanArgs, n: nat)
    requires CountChars(text) >= 2
    ensures var groups := PackShort(BreathGroups(text, args.maxPartChars, args.tables), args.minPartChars);
            var run := SplitRun(text, (CountChars(text) + 1) / 2, args.tables);
            && (|groups| <= 1 ==> SplitOnce(text, args) == run)
            && (|groups| == 2 ==> SplitOnce(text, args) == groups)
            && (|groups| > 2 && 0 < n <= |groups|
                && 2 * TotalChars(groups[..n]) >= TotalChars(groups) > 2 * TotalChars(groups[..n - 1])
                ==> SplitOnce(text, args) == if n < |groups| then [Glue(groups[..n]), Glue(groups[n..])] else run)
  {
    hide PackShort, BreathGroups, SplitRun, Glue, CountChars, TotalChars, PackCountState;
    var breath := BreathGroups(text, args.maxPartChars, args.tables);
    var groups := PackShort(breath, args.minPartChars);
    BreathGroupsFacts(text, args.maxPartChars, args.tables);
    PackShortFacts(breath, args.minPartChars);
    if |groups| > 2 && 0 < n <= |groups|
       && 2 * TotalChars(groups[..n]) >= TotalChars(groups) > 2 * TotalChars(groups[..n - 1]) {
      PackTwoAt(groups, n);
    }
  }

  // ---------------------------------------------------------------- the re-split loop

  function MaxPartCount(args: PlanArgs): nat { Max(1, args.maxParts) }

  /** The parts a turn may still add. */
  function FreeSlots(parts: seq<string>, args: PlanArgs): int { MaxPartCount(args) - |parts| }

  /** The slowest part, the one a turn splits. */
  ghost function Worst(parts: seq<string>, sec: real, args: PlanArgs): (w: nat)
    requires Estimates(parts, sec, args.pauseSec) != []
    ensures w < |parts|
  {
    WorstIndex(Estimates(parts, sec, args.pauseSec))
  }

  ghost function Pieces(parts: seq<string>, sec: real, args: PlanArgs): seq<string>
    requires Estimates(parts, sec, args.pauseSec) != []
  {
    SplitOnce(parts[Worst(parts, sec, args)], args)
  }

  /** Another turn is taken: there is room, and the slowest part is too slow and can be split. */
  ghost predicate Resplits(parts: seq<string>, sec: real, args: PlanArgs) {
    && |parts| < MaxPartCount(args)
    && var seconds := Estimates(parts, sec, args.pauseSec);
       && seconds != []
       && seconds[WorstIndex(seconds)] > args.maxPartSec + 0.000001
       && |Pieces(parts, sec, args)| >= 2
  }

  /** The slice that fires when a split yields more pieces than there are free slots. */
  ghost predicate SliceFires(parts: seq<string>, sec: real, args: PlanArgs)
    requires Estimates(parts, sec, args.pauseSec) != []
  {
    |Pieces(parts, sec, args)| - 1 > FreeSlots(parts, args)
  }

  ghost function KeptPieces(parts: seq<string>, sec: real, args: PlanArgs): seq<string>
    requires Estimates(parts, sec, args.pauseSec) != [] && |parts| < MaxPartCount(args)
  {
    var pieces := Pieces(parts, sec, args);
    if SliceFires(parts, sec, args) then pieces[..FreeSlots(parts, args) + 1] else pieces
  }

  ghost function NextParts(parts: seq<string>, sec: real, args: PlanArgs): (next: seq<string>)
    requires Resplits(parts, sec, args)
    ensures |parts| < |next| <= MaxPartCount(args)
  {
    var w := Worst(parts, sec, args);
    parts[..w] + KeptPieces(parts, sec, args) + parts[w + 1..]
  }

  /** The parts when the loop ends. */
  ghost function ResplitLoop(parts: seq<string>, sec: real, args: PlanArgs): seq<string>
    decreases FreeSlots(parts, args)
  {
    if Resplits(parts, sec, args) then ResplitLoop(NextParts(parts, sec, args), sec, args) else parts
  }

  /** Some turn of the loop slices pieces off. */
  ghost predicate LoopSlices(parts: seq<string>, sec: real, args: PlanArgs)
    decreases FreeSlots(parts, args)
  {
    Resplits(parts, sec, args) &&
    (SliceFires(parts, sec, args) || LoopSlices(NextParts(parts, sec, args), sec, args))
  }

  ghost predicate EnforceApplies(parts: seq<string>, args: PlanArgs) {
    |parts| >= 2 && args.maxPartSec > 0.0
  }

  ghost function Enforce(parts: seq<string>, sec: real, args: PlanArgs): seq<string> {
    if EnforceApplies(parts, args) then MergeTiny(ResplitLoop(parts, sec, args), args.isAlnum) else parts
  }

  method EnforceMaxPartSeconds(input: seq<string>, sec: real, args: PlanArgs) returns (parts: seq<string>)
    ensures parts == Enforce(input, sec, args)
  {
    hide SplitOnce, MergeTiny, WorstIndex, Estimates;
    parts := input;
    if |parts| < 2 || args.maxPartSec <= 0.0 { return; }
    var maxParts := Max(1, args.maxParts);
    while |parts| < maxParts
      invariant ResplitLoop(parts, sec, args) == ResplitLoop(input, sec, args)
      decreases maxParts - |parts|
    {
      var seconds := Estimates(parts, sec, args.pauseSec);
      if seconds == [] { break; }
      var worstIndex := WorstIndex(seconds);
      EstimatesLength(parts, sec, args.pauseSec);
      WorstInRange(seconds);
      if seconds[worstIndex] <= args.maxPartSec + 0.000001 { break; }
      var split := SplitPartOnce(parts[worstIndex], args);
      if |split| < 2 { break; }
      var available := maxParts - |parts|;
      if |split| - 1 > available {
        split := split[..available + 1];
      }
      parts := parts[..worstIndex] + split + parts[worstIndex + 1..];
    }
    parts := MergeTinyIslands(parts, args.isAlnum);
  }

  lemma EstimatesLength(parts: seq<string>, sec: real, pauseSec: real)
    ensures Estimates(parts, sec, pauseSec) == [] || |Estimates(parts, sec, pauseSec)| == |parts|
  {
  }

  lemma EstimatesEmpty(parts: seq<string>, sec: real, pauseSec: real)
    ensures Estimates(parts, sec, pauseSec) == [] ==> TotalChars(parts) == 0
  {
  }

  lemma WorstInRange(seconds: seq<real>)
    requires seconds != []
    ensures WorstIndex(seconds) < |seconds|
  {
  }

  /** When the loop is over: the part limit is reached, or every estimate is within the
      limit, or no part has more than one visible character, so that none can be split. */
  lemma {:induction false} ResplitLoopStops(parts: seq<string>, sec: real, args: PlanArgs)
    ensures var r := ResplitLoop(parts, sec, args);
            var seconds := Estimates(r, sec, args.pauseSec);
            || |r| >= Max(1, args.maxParts)
            || (seconds != [] && forall i :: 0 <= i < |seconds| ==> seconds[i] <= args.maxPartSec + 0.000001)
            || (forall i :: 0 <= i < |r| ==> CountChars(r[i]) <= 1)
    decreases FreeSlots(parts, args)
  {
    hide CountChars, Estimates, SplitOnce;
    if Resplits(parts, sec, args) {
      ResplitLoopStops(NextParts(parts, sec, args), sec, args);
    } else {
      var seconds := Estimates(parts, sec, args.pauseSec);
      EstimatesLength(parts, sec, args.pauseSec);
      if |parts| < MaxPartCount(args) && seconds != [] {
        var w := WorstIndex(seconds);
        SplitOnceFacts(parts[w], args);
        WorstIsFirstLongest(parts, sec, args.pauseSec);
      }
      CharsBound(parts);
      EstimatesEmpty(parts, sec, args.pauseSec);
    }
  }

  lemma FirstLongestIsOne(parts: seq<string>, v: nat, w: nat)
    requires FirstLongest(parts, v) && FirstLongest(parts, w)
    ensures v == w
  {
    hide CountChars;
    assert CountChars(parts[v]) == CountChars(parts[w]);
  }

  /** A turn replaces the first part with the most characters by the pieces it splits into,
      as many of them as fit the limit. */
  lemma TurnSplitsLongest(parts: seq<string>, sec: real, args: PlanArgs, w: nat)
    requires Resplits(parts, sec, args) && FirstLongest(parts, w)
    ensures var pieces := SplitOnce(parts[w], args);
            && |pieces| >= 2
            && NextParts(parts, sec, args)
               == parts[..w] + pieces[..Min(|pieces|, Max(1, args.maxParts) - |parts| + 1)] + parts[w + 1..]
  {
    hide CountChars, Estimates, SplitOnce;
    WorstIsFirstLongest(parts, sec, args.pauseSec);
    EstimatesLength(parts, sec, args.pauseSec);
    var v := Worst(parts, sec, args);
    FirstLongestIsOne(parts, w, v);
    var pieces := SplitOnce(parts[w], args);
    assert pieces[..|pieces|] == pieces;
  }

  /** Parts that are all fast enough stay as they are, and so does a list without room. */
  lemma FastPartsStay(parts: seq<string>, sec: real, args: PlanArgs)
    requires |parts| >= Max(1, args.maxParts)
             || forall x :: x in Estimates(parts, sec, args.pauseSec) ==> x <= args.maxPartSec + 0.000001
    ensures ResplitLoop(parts, sec, args) == parts
  {
    hide Estimates, SplitOnce;
    var seconds := Estimates(parts, sec, args.pauseSec);
    if seconds != [] { assert seconds[WorstIndex(seconds)] in seconds; }
  }

  /** The loop never drops below the parts it was given and never exceeds the limit. */
  lemma {:induction false} ResplitLoopSize(parts: seq<string>, sec: real, args: PlanArgs)
    ensures |parts| <= |ResplitLoop(parts, sec, args)| <= Max(|parts|, Max(1, args.maxParts))
    decreases FreeSlots(parts, args)
  {
    hide Estimates, SplitOnce;
    if Resplits(parts, sec, args) {
      ResplitLoopSize(NextParts(parts, sec, args), sec, args);
    }
  }

  /** Pieces that were cut off carried visible characters. */
  lemma SlicedPieces(pieces: seq<string>, keep: nat)
    requires Clean(pieces) && keep < |pieces|
    ensures IsSubseq(Squeeze(Join(pieces[..keep])), Squeeze(Join(pieces)))
    ensures |Squeeze(Join(pieces[..keep]))| < |Squeeze(Join(pieces))|
  {
    hide Squeeze, Join, IsSpace;
    var kept, lost := pieces[..keep], pieces[keep..];
    assert pieces == kept + lost;
    SqueezeJoinConcat(kept, lost);
    CleanConcat(kept, lost);
    CleanTotal(lost);
    TotalCharsJoin(lost);
    SubseqPrefix(Squeeze(Join(kept)), Squeeze(Join(lost)));
  }

  lemma SubseqPrefix<T>(a: seq<T>, b: seq<T>)
    ensures IsSubseq(a, a + b)
  {
    SubseqRefl(a);
    assert IsSubseq<T>([], b);
    SubseqConcat(a, a, [], b);
    assert a + [] == a;
  }

  lemma SubseqInside<T>(a: seq<T>, b: seq<T>, b': seq<T>, c: seq<T>)
    requires IsSubseq(b, b')
    ensures IsSubseq(a + b + c, a + b' + c)
  {
    SubseqRefl(a);
    SubseqRefl(c);
    SubseqConcat(a, a, b, b');
    SubseqConcat(a + b, a + b', c, c);
  }

  /** The slice can fire only after the long-run cutter: packed halves are two at most. */
  lemma SliceOnlyAfterRunCut(parts: seq<string>, sec: real, args: PlanArgs)
    requires Resplits(parts, sec, args) && SliceFires(parts, sec, args)
    ensures |Pieces(parts, sec, args)| >= 3
    ensures var part := parts[Worst(parts, sec, args)];
            Pieces(parts, sec, args) == SplitRun(part, HalfChars(part), args.tables)
  {
    hide PackShort, PackCount, BreathGroups, SplitRun, Estimates;
    var part := parts[Worst(parts, sec, args)];
    var breath := BreathGroups(part, args.maxPartChars, args.tables);
    BreathGroupsFacts(part, args.maxPartChars, args.tables);
    PackShortFacts(breath, args.minPartChars);
    PackCountFacts(PackShort(breath, args.minPartChars), 2);
  }

  /** One turn keeps the text, or loses the tail of one part when the slice fires. */
  lemma TurnKeepsText(parts: seq<string>, sec: real, args: PlanArgs)
    requires Resplits(parts, sec, args)
    ensures var before := Squeeze(Join(parts)); var after := Squeeze(Join(NextParts(parts, sec, args)));
            && IsSubseq(after, before)
            && (SliceFires(parts, sec, args) ==> |after| < |before|)
            && (!SliceFires(parts, sec, args) ==> after == before)
  {
    hide Squeeze, Join, SplitOnce, Resplits;
    PiecesAreSeveral(parts, sec, args);
    var w := Worst(parts, sec, args);
    var pieces, kept := Pieces(parts, sec, args), KeptPieces(parts, sec, args);
    SplitOnceFacts(parts[w], args);
    AroundOne(parts, w);
    JoinOne(parts[w]);
    SqueezeJoinConcat(parts[..w] + [parts[w]], parts[w + 1..]);
    SqueezeJoinConcat(parts[..w], [parts[w]]);
    SqueezeJoinConcat(parts[..w] + kept, parts[w + 1..]);
    SqueezeJoinConcat(parts[..w], kept);
    if SliceFires(parts, sec, args) {
      SlicedPieces(pieces, FreeSlots(parts, args) + 1);
      SubseqInside(Squeeze(Join(parts[..w])), Squeeze(Join(kept)), Squeeze(Join(pieces)),
                   Squeeze(Join(parts[w + 1..])));
    } else {
      SubseqRefl(Squeeze(Join(parts)));
    }
  }

  lemma PiecesAreSeveral(parts: seq<string>, sec: real, args: PlanArgs)
    requires Resplits(parts, sec, args)
    ensures Estimates(parts, sec, args.pauseSec) != [] && |parts| < MaxPartCount(args)
    ensures |Pieces(parts, sec, args)| >= 2 && FreeSlots(parts, args) >= 1
  {
  }

  /** The loop keeps the visible text in order, all of it exactly when no turn slices. */
  lemma {:induction false} ResplitLoopText(parts: seq<string>, sec: real, args: PlanArgs)
    ensures var before := Squeeze(Join(parts)); var after := Squeeze(Join(ResplitLoop(parts, sec, args)));
            IsSubseq(after, before) && (after == before <==> !LoopSlices(parts, sec, args))
    decreases FreeSlots(parts, args)
  {
    hide Squeeze, Join, SplitOnce, Estimates, KeptPieces, IsSubseq;
    var before := Squeeze(Join(parts));
    if Resplits(parts, sec, args) {
      var next := NextParts(parts, sec, args);
      TurnKeepsText(parts, sec, args);
      ResplitLoopText(next, sec, args);
      var after := Squeeze(Join(ResplitLoop(parts, sec, args)));
      SubseqTrans(after, Squeeze(Join(next)), before);
      SubseqLength(after, Squeeze(Join(next)));
    } else {
      SubseqRefl(before);
    }
  }

  lemma {:induction false} ResplitLoopClean(parts: seq<string>, sec: real, args: PlanArgs)
    requires Clean(parts)
    ensures Clean(ResplitLoop(parts, sec, args))
    decreases FreeSlots(parts, args)
  {
    hide Squeeze, Join, SplitOnce, Estimates, Clean;
    if Resplits(parts, sec, args) {
      var w := Worst(parts, sec, args);
      var pieces, kept := Pieces(parts, sec, args), KeptPieces(parts, sec, args);
      SplitOnceFacts(parts[w], args);
      PiecesAreSeveral(parts, sec, args);
      AroundOne(parts, w);
      CleanConcat(parts[..w] + [parts[w]], parts[w + 1..]);
      CleanConcat(parts[..w], [parts[w]]);
      if SliceFires(parts, sec, args) {
        var n := FreeSlots(parts, args) + 1;
        assert pieces == pieces[..n] + pieces[n..];
        CleanConcat(pieces[..n], pieces[n..]);
      }
      CleanConcat(parts[..w], kept);
      CleanConcat(parts[..w] + kept, parts[w + 1..]);
      ResplitLoopClean(NextParts(parts, sec, args), sec, args);
    }
  }

  // ---------------------------------------------------------------- the whole pipeline

  /** The packed groups of a text. */
  ghost function PackedParts(input: string, sec: real, args: PlanArgs): seq<string> {
    var text := Strip(input);
    var groups := BreathGroups(text, args.maxPartChars, args.tables);
    if args.forceBreaks != [] then PackForced(groups, args)
    else PackCount(PackShort(groups, args.minPartChars), PartCountFor(CountChars(text), sec, args))
  }

  /** The whole text cut as a run at half its characters. */
  ghost function HalvedRun(input: string, args: PlanArgs): seq<string> {
    SplitRun(Strip(input), HalfChars(Strip(input)), args.tables)
  }

  /** The parts before re-splitting: packed groups, or the halved run if that gave one part. */
  ghost function FirstParts(input: string, sec: real, args: PlanArgs): seq<string> {
    var parts := PackedParts(input, sec, args);
    if |parts| < 2 && Strip(input) != "" then HalvedRun(input, args) else parts
  }

  /** The part texts of `planned_parts`. */
  ghost function PlannedTexts(input: string, sec: real, args: PlanArgs): seq<string> {
    MergeTiny(Enforce(FirstParts(input, sec, args), sec, args), args.isAlnum)
  }

  /** The run of the planner drops text: the slice fires in some turn. */
  ghost predicate PlanSlices(input: string, sec: real, args: PlanArgs) {
    var parts := FirstParts(input, sec, args);
    EnforceApplies(parts, args) && LoopSlices(parts, sec, args)
  }

  method PlanTexts(input: string, sec: real, args: PlanArgs) returns (parts: seq<string>)
    ensures parts == PlannedTexts(input, sec, args)
  {
    hide Strip, CountChars, PackForced, PackCount, PackShort, BreathGroups, SplitRun, Enforce, MergeTiny;
    var text := Strip(input);
    var chars := CountChars(text);
    var groups := SplitBreathGroups(text, args.maxPartChars, args.tables);
    if args.forceBreaks != [] {
      parts := PackWithForcedBoundaries(groups, args);
    } else {
      groups := PackShortGroups(groups, args.minPartChars);
      parts := PackToPartCount(groups, PartCountFor(chars, sec, args));
    }
    if |parts| < 2 && text != "" {
      parts := SplitLongRun(text, Max(1, CeilDiv(chars, 2)), args.tables);
    }
    parts := EnforceMaxPartSeconds(parts, sec, args);
    parts := MergeTinyIslands(parts, args.isAlnum);
  }

  lemma FirstPartsFacts(input: string, sec: real, args: PlanArgs)
    ensures Clean(FirstParts(input, sec, args)) && Conserves(FirstParts(input, sec, args), input)
  {
    hide Squeeze, Join, Strip, PackForced, PackCount, PackShort, BreathGroups, SplitRun, CountChars;
    var text := Strip(input);
    StripFacts(input);
    var groups := BreathGroups(text, args.maxPartChars, args.tables);
    BreathGroupsFacts(text, args.maxPartChars, args.tables);
    PackForcedFacts(groups, args);
    PackShortFacts(groups, args.minPartChars);
    PackCountFacts(PackShort(groups, args.minPartChars), PartCountFor(CountChars(text), sec, args));
    SplitRunFacts(text, HalfChars(text), args.tables);
  }

  lemma EnforceFacts(parts: seq<string>, sec: real, args: PlanArgs)
    requires Clean(parts)
    ensures var r := Enforce(parts, sec, args);
            && Clean(r)
            && IsSubseq(Squeeze(Join(r)), Squeeze(Join(parts)))
            && (Conserves(r, Join(parts)) <==> !(EnforceApplies(parts, args) && LoopSlices(parts, sec, args)))
            && |r| <= Max(|parts|, Max(1, args.maxParts))
  {
    hide Squeeze, Join, Clean, MergeTiny, ResplitLoop, LoopSlices, IsSubseq;
    SubseqRefl(Squeeze(Join(parts)));
    ResplitLoopText(parts, sec, args);
    ResplitLoopClean(parts, sec, args);
    ResplitLoopSize(parts, sec, args);
    MergeTinyFacts(ResplitLoop(parts, sec, args), args.isAlnum);
  }

  /** Text conservation through the whole planner: whitespace aside, the planned parts
      always carry an in-order sub-sequence of the source text, and they carry all of it
      if and only if the slice of the re-split loop never fires. */
  lemma PlanConservesText(input: string, sec: real, args: PlanArgs)
    ensures var parts := PlannedTexts(input, sec, args);
            && IsSubseq(Squeeze(Join(parts)), Squeeze(input))
            && (Conserves(parts, input) <==> !PlanSlices(input, sec, args))
  {
    hide Squeeze, Join, Clean, MergeTiny, FirstParts, Enforce, LoopSlices, IsSubseq;
    var first := FirstParts(input, sec, args);
    FirstPartsFacts(input, sec, args);
    EnforceFacts(first, sec, args);
    MergeTinyFacts(Enforce(first, sec, args), args.isAlnum);
  }

  /** The shape of a plan: stripped, non-empty parts, and no island left when several
      parts remain. */
  lemma PlanShape(input: string, sec: real, args: PlanArgs)
    ensures var parts := PlannedTexts(input, sec, args);
            && Clean(parts)
            && |parts| <= Max(|FirstParts(input, sec, args)|, Max(1, args.maxParts))
            && (|parts| > 1 ==> AllStand(parts, args.isAlnum))
  {
    hide Squeeze, Join, Clean, MergeTiny, FirstParts, Enforce, AllStand, IsSubseq, Conserves, LoopSlices;
    var first := FirstParts(input, sec, args);
    FirstPartsFacts(input, sec, args);
    EnforceFacts(first, sec, args);
    MergeTinyFacts(Enforce(first, sec, args), args.isAlnum);
  }

  lemma PackedFacts(input: string, sec: real, args: PlanArgs)
    requires args.forceBreaks == []
    ensures |PackedParts(input, sec, args)| <= Max(2, args.maxParts)
  {
    hide Squeeze, Join, Strip, PackCount, PackShort, BreathGroups, CountChars, PartCountFor;
    var groups := BreathGroups(Strip(input), args.maxPartChars, args.tables);
    BreathGroupsFacts(Strip(input), args.maxPartChars, args.tables);
    PackShortFacts(groups, args.minPartChars);
    PartCountSuffices(CountChars(Strip(input)), sec, args);
    PackCountFacts(PackShort(groups, args.minPartChars), PartCountFor(CountChars(Strip(input)), sec, args));
  }

  /** A list that fills the limit already is not re-split. */
  lemma FullListStays(parts: seq<string>, sec: real, args: PlanArgs)
    requires |parts| >= MaxPartCount(args)
    ensures MergeTiny(Enforce(parts, sec, args), args.isAlnum) == MergeTiny(parts, args.isAlnum)
  {
    MergeTinyIdempotent(parts, args.isAlnum);
  }

  /** The part limit, for all settings: a plan exceeds it if and only if the parts before
      re-splitting, islands folded, already do, and then these are the plan. */
  lemma PlanSizeIff(input: string, sec: real, args: PlanArgs)
    ensures var folded := MergeTiny(FirstParts(input, sec, args), args.isAlnum);
            && (|PlannedTexts(input, sec, args)| > Max(1, args.maxParts) <==> |folded| > Max(1, args.maxParts))
            && (|folded| > Max(1, args.maxParts) ==> PlannedTexts(input, sec, args) == folded)
  {
    hide Squeeze, Join, Clean, MergeTiny, FirstParts, Enforce, AllStand;
    var first := FirstParts(input, sec, args);
    PlanShape(input, sec, args);
    MergeTinyFacts(first, args.isAlnum);
    if |first| >= MaxPartCount(args) { FullListStays(first, sec, args); }
  }

  /** Without forced breaks that leaves one case: the packer leaves a single part, and the
      run cut of the whole text yields more pieces than `max(2, max_parts)`. */
  lemma UnforcedPlanSizeIff(input: string, sec: real, args: PlanArgs)
    requires args.forceBreaks == []
    ensures |PlannedTexts(input, sec, args)| > Max(2, args.maxParts) <==>
              |PackedParts(input, sec, args)| < 2
              && |MergeTiny(HalvedRun(input, args), args.isAlnum)| > Max(2, args.maxParts)
  {
    hide Squeeze, Join, Strip, Clean, MergeTiny, PackedParts, HalvedRun, Enforce, AllStand;
    var packed := PackedParts(input, sec, args);
    PackedFacts(input, sec, args);
    PlanShape(input, sec, args);
    PlanSizeIff(input, sec, args);
    MergeTinyFacts(packed, args.isAlnum);
    if Strip(input) == "" {
      BlankRun(input, args);
      MergeTinyFacts([], args.isAlnum);
    }
  }

  lemma BlankRun(input: string, args: PlanArgs)
    requires Strip(input) == ""
    ensures HalvedRun(input, args) == []
  {
    hide Strip, CountChars;
    StripTrimmed("");
  }

  /** With forced breaks the packer gives every block a part and one more for every
      `max_part_chars` characters. A plan packed in several parts has no more parts than
      that or than the limit; one packed in a single part no more than its run cut, islands
      folded, or than the limit. */
  lemma ForcedPlanSize(input: string, sec: real, args: PlanArgs)
    requires args.forceBreaks != []
    ensures var groups := BreathGroups(Strip(input), args.maxPartChars, args.tables);
            var most :=
              if |PackedParts(input, sec, args)| < 2 then |MergeTiny(HalvedRun(input, args), args.isAlnum)|
              else |Blocks(groups, args.forceBreaks)| + CountChars(input) / Max(args.maxPartChars, 1);
            |PlannedTexts(input, sec, args)| <= Max(most, Max(1, args.maxParts))
  {
    hide Squeeze, Join, Strip, PackForced, PackShort, BreathGroups, CountChars, Blocks, PlannedTexts, HalvedRun,
         MergeTiny;
    var groups := BreathGroups(Strip(input), args.maxPartChars, args.tables);
    BreathGroupsFacts(Strip(input), args.maxPartChars, args.tables);
    PlanShape(input, sec, args);
    PlanSizeIff(input, sec, args);
    MergeTinyFacts(PackedParts(input, sec, args), args.isAlnum);
    ForcedPackSize(groups, args);
    TotalCharsJoin(groups);
    SameSqueeze(input, groups);
  }

  lemma SameSqueeze(input: string, groups: seq<string>)
    requires Conserves(groups, Strip(input))
    ensures CountChars(Join(groups)) == CountChars(input)
  {
    StripFacts(input);
  }

  /** After a re-split of any parts, as in a plan, the second island pass of the pipeline
      has nothing left to do. */
  lemma SecondMergeRedundant(parts: seq<string>, sec: real, args: PlanArgs)
    requires EnforceApplies(parts, args)
    ensures MergeTiny(Enforce(parts, sec, args), args.isAlnum) == Enforce(parts, sec, args)
  {
    MergeTinyIdempotent(ResplitLoop(parts, sec, args), args.isAlnum);
  }
}
