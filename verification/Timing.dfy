/** Milliseconds for the planned parts, and the audio cuts derived from them. */
module Timing {
  import opened Numbers
  import opened Sequences
  import opened Text
  import opened Packing
  import opened PartPlan

  function Sum(xs: seq<int>): int {
    if xs == [] then 0 else Sum(Init(xs)) + Last(xs)
  }

  lemma SumNext(xs: seq<int>, k: nat)
    requires k < |xs|
    ensures Sum(xs[..k + 1]) == Sum(xs[..k]) + xs[k]
  {
    assert Init(xs[..k + 1]) == xs[..k];
  }

  lemma SumWhole(xs: seq<int>)
    ensures Sum(xs[..|xs|]) == Sum(xs)
  {
    assert xs[..|xs|] == xs;
  }

  lemma {:induction false} SumMonotone(xs: seq<int>, low: nat, k: nat)
    requires k <= |xs| && forall i :: 0 <= i < |xs| ==> xs[i] >= low
    ensures Sum(xs[..k]) + (|xs| - k) * low <= Sum(xs)
    decreases |xs| - k
  {
    if k == |xs| {
      SumWhole(xs);
    } else {
      SumNext(xs, k);
      SumMonotone(xs, low, k + 1);
      assert (|xs| - k) * low == (|xs| - (k + 1)) * low + low;
    }
  }

  // ---------------------------------------------------------------- allotting milliseconds

  function PartMs(chars: int, total: int, speech: real): int {
    Max(50, PyRound(speech * 1000.0 * chars as real / Max(total, 1) as real))
  }

  function TotalMs(speech: real): int { PyRound(speech * 1000.0) }

  lemma TotalIsNear(speech: real)
    ensures speech * 1000.0 - 0.5 <= TotalMs(speech) as real <= speech * 1000.0 + 0.5
  {
    RoundIsNear(speech * 1000.0);
  }

  /** All parts but the last get their share; the last gets what remains. */
  function Allot(chars: seq<int>, speech: real): (ms: seq<int>)
    ensures |ms| == |chars|
  {
    if chars == [] then []
    else
      var shares := seq(|chars| - 1, i requires 0 <= i < |chars| - 1 => PartMs(chars[i], Sum(chars), speech));
      shares + [Max(50, TotalMs(speech) - Sum(shares))]
  }

  method AllotMs(chars: seq<int>, speech: real) returns (ms: seq<int>)
    ensures ms == Allot(chars, speech)
  {
    hide PartMs, TotalMs;
    ms := [];
    var handedOut := 0;
    ghost var goal := Allot(chars, speech);
    for index := 0 to |chars|
      invariant |ms| == index && ms == goal[..index]
      invariant index < |chars| ==> handedOut == Sum(ms)
    {
      var partMs;
      if index + 1 == |chars| {
        assert ms == Init(goal);
        partMs := Max(50, TotalMs(speech) - handedOut);
      } else {
        partMs := PartMs(chars[index], Sum(chars), speech);
        handedOut := handedOut + partMs;
        assert Init(ms + [partMs]) == ms;
      }
      ms := ms + [partMs];
    }
  }

  /** A floor of 50 ms adds at most 50 ms to a share. */
  lemma PartMsBounds(chars: int, total: int, speech: real, u: real)
    requires chars >= 0 && u >= 0.0 && u == speech * 1000.0 / Max(total, 1) as real
    ensures PartMs(chars, total, speech) >= 50
    ensures PartMs(chars, total, speech) as real <= u * chars as real + 50.0
  {
    var x := speech * 1000.0 * chars as real / Max(total, 1) as real;
    assert x == u * chars as real;
    assert x >= 0.0;
    RoundIsNear(x);
  }

  lemma Distribute(u: real, a: int, b: int)
    ensures u * (a + b) as real == u * a as real + u * b as real
  {
  }

  lemma AllotShape(chars: seq<int>, speech: real)
    requires chars != []
    ensures var ms := Allot(chars, speech);
            && (forall i :: 0 <= i < |ms| - 1 ==> ms[i] == PartMs(chars[i], Sum(chars), speech))
            && Last(ms) == Max(50, LastOffer(chars, speech))
            && Sum(ms) == Sum(ms[..|ms| - 1]) + Last(ms)
            && LastOffer(chars, speech) == TotalMs(speech) - Sum(ms[..|ms| - 1])
  {
  }

  lemma {:induction false} SharesBound(chars: seq<int>, ms: seq<int>, speech: real, u: real, k: nat)
    requires k < |chars| && ms == Allot(chars, speech)
    requires forall i :: 0 <= i < |chars| ==> chars[i] >= 0
    requires u >= 0.0 && u == speech * 1000.0 / Max(Sum(chars), 1) as real
    ensures Sum(ms[..k]) as real <= u * Sum(chars[..k]) as real + 50.0 * k as real
    decreases k
  {
    hide Sum, PartMs, Allot, LastOffer;
    if k == 0 {
      SumEmpty(ms[..0]);
      SumEmpty(chars[..0]);
    } else {
      SharesBound(chars, ms, speech, u, k - 1);
      AllotShape(chars, speech);
      SumNext(ms, k - 1);
      SumNext(chars, k - 1);
      PartMsBounds(chars[k - 1], Sum(chars), speech, u);
      Distribute(u, Sum(chars[..k - 1]), chars[k - 1]);
    }
  }

  lemma SumEmpty(xs: seq<int>)
    requires xs == []
    ensures Sum(xs) == 0
  {
  }

  lemma RateTimesTotal(speech: real, total: int, part: int, u: real)
    requires speech >= 0.0 && 0 <= part <= total && u == speech * 1000.0 / Max(total, 1) as real
    ensures u >= 0.0 && u * part as real <= speech * 1000.0
  {
    var d := Max(total, 1) as real;
    assert u * d == speech * 1000.0;
    assert u * (d - part as real) >= 0.0;
  }

  /** What the last part is offered before its floor of 50 ms applies. */
  function LastOffer(chars: seq<int>, speech: real): int
    requires chars != []
  {
    TotalMs(speech) - Sum(Init(Allot(chars, speech)))
  }

  /** Every part gets at least 50 ms. The total is never below the speech time, exceeds
      it by at most 50 ms a part, and equals it exactly when at least 50 ms were left
      for the last part. */
  lemma AllotTotal(chars: seq<int>, speech: real)
    requires chars != [] && speech >= 0.0
    requires forall i :: 0 <= i < |chars| ==> chars[i] >= 0
    ensures var ms := Allot(chars, speech);
            && (forall i :: 0 <= i < |ms| ==> ms[i] >= 50)
            && TotalMs(speech) <= Sum(ms) <= TotalMs(speech) + 50 * |chars|
            && (Sum(ms) == TotalMs(speech) <==> LastOffer(chars, speech) >= 50)
            && speech * 1000.0 - 0.5 <= TotalMs(speech) as real <= speech * 1000.0 + 0.5
  {
    hide PartMs, PyRound, Allot, Sum, LastOffer, TotalMs;
    AllotShape(chars, speech);
    TotalIsNear(speech);
    SharesWithin(chars, speech);
    var ms := Allot(chars, speech);
    forall i | 0 <= i < |chars| - 1 ensures ms[i] >= 50 { PartMsFloor(chars[i], Sum(chars), speech); }
  }

  lemma PartMsFloor(chars: int, total: int, speech: real)
    ensures PartMs(chars, total, speech) >= 50
  {
  }

  /** The shares before the last come to at most the speech time and 50 ms each. */
  lemma SharesWithin(chars: seq<int>, speech: real)
    requires chars != [] && speech >= 0.0
    requires forall i :: 0 <= i < |chars| ==> chars[i] >= 0
    ensures var last := |chars| - 1; Sum(Allot(chars, speech)[..last]) <= TotalMs(speech) + 50 * last
  {
    hide PartMs, PyRound, Allot, Sum, TotalMs;
    var last, total := |chars| - 1, Sum(chars);
    var u := speech * 1000.0 / Max(total, 1) as real;
    SumMonotone(chars, 0, last);
    SumNonNegative(chars, last);
    RateTimesTotal(speech, total, Sum(chars[..last]), u);
    SharesBound(chars, Allot(chars, speech), speech, u, last);
    TotalIsNear(speech);
  }

  lemma {:induction false} SumNonNegative(xs: seq<int>, k: nat)
    requires k <= |xs| && forall i :: 0 <= i < |xs| ==> xs[i] >= 0
    ensures Sum(xs[..k]) >= 0
  {
    if k > 0 {
      SumNonNegative(xs, k - 1);
      SumNext(xs, k - 1);
    }
  }

  lemma RoundIsMonotone(x: real, y: real)
    requires x <= y
    ensures PyRound(x) <= PyRound(y)
  {
  }

  /** Shares before the last part: above the floor within half a millisecond of the exact
      share, otherwise the floor, and never smaller for more characters. */
  lemma ShareFacts(a: int, b: int, total: int, speech: real)
    requires 0 <= a <= b && speech >= 0.0
    ensures PyRound(Exact(a, total, speech)) >= 50 ==>
              Exact(a, total, speech) - 0.5 <= PartMs(a, total, speech) as real <= Exact(a, total, speech) + 0.5
    ensures PyRound(Exact(a, total, speech)) <= 50 ==> PartMs(a, total, speech) == 50
    ensures PartMs(a, total, speech) <= PartMs(b, total, speech)
  {
    hide PyRound, Exact;
    PartMsIs(a, total, speech);
    PartMsIs(b, total, speech);
    RoundIsNear(Exact(a, total, speech));
    ExactIsMonotone(a, b, total, speech);
    RoundIsMonotone(Exact(a, total, speech), Exact(b, total, speech));
  }

  lemma PartMsIs(chars: int, total: int, speech: real)
    ensures PartMs(chars, total, speech) == Max(50, PyRound(Exact(chars, total, speech)))
  {
    hide PyRound;
  }

  lemma ExactIsMonotone(a: int, b: int, total: int, speech: real)
    requires 0 <= a <= b && speech >= 0.0
    ensures Exact(a, total, speech) <= Exact(b, total, speech)
  {
    var d := Max(total, 1) as real;
    var p, q := speech * 1000.0 * a as real, speech * 1000.0 * b as real;
    assert q - p == speech * 1000.0 * (b - a) as real;
    assert p <= q;
    assert p / d <= q / d by { assert (q - p) / d >= 0.0 && (q - p) / d == q / d - p / d; }
  }

  /** The share of the speech time that a part deserves, in milliseconds. */
  function Exact(chars: int, total: int, speech: real): real {
    speech * 1000.0 * chars as real / Max(total, 1) as real
  }

  /** Two parts get their time in the order of their characters. */
  ghost predicate InOrder(chars: seq<int>, ms: seq<int>, i: nat, j: nat)
    requires i < |chars| == |ms| && j < |ms|
  {
    chars[i] <= chars[j] ==> ms[i] <= ms[j]
  }

  /** The largest element that is at most c. */
  function LargestUpTo(xs: seq<int>, c: int): (r: Option<int>)
    ensures r.Some? ==> r.value in xs && r.value <= c
    ensures forall i :: 0 <= i < |xs| && xs[i] <= c ==> r.Some? && xs[i] <= r.value
  {
    if xs == [] then None
    else
      var r := LargestUpTo(Init(xs), c);
      if Last(xs) <= c && (r.None? || r.value < Last(xs)) then Some(Last(xs)) else r
  }

  /** The smallest element that is at least c. */
  function SmallestFrom(xs: seq<int>, c: int): (r: Option<int>)
    ensures r.Some? ==> r.value in xs && c <= r.value
    ensures forall i :: 0 <= i < |xs| && c <= xs[i] ==> r.Some? && r.value <= xs[i]
  {
    if xs == [] then None
    else
      var r := SmallestFrom(Init(xs), c);
      if c <= Last(xs) && (r.None? || Last(xs) < r.value) then Some(Last(xs)) else r
  }

  /** What is left for the last part lies between the shares of its two neighbours in size:
      the longest part that is not longer and the shortest that is not shorter. */
  predicate RemainderFits(chars: seq<int>, speech: real)
    requires chars != []
  {
    var total, rest := Sum(chars), Max(50, LastOffer(chars, speech));
    var below, above := LargestUpTo(Init(chars), Last(chars)), SmallestFrom(Init(chars), Last(chars));
    && (below.Some? ==> PartMs(below.value, total, speech) <= rest)
    && (above.Some? ==> rest <= PartMs(above.value, total, speech))
  }

  /** All parts but the last are served in the order of their characters. All parts are if
      and only if the remainder lies between the shares of two neighbours of the last part. */
  lemma TimeFollowsCharsIff(chars: seq<int>, speech: real)
    requires chars != [] && speech >= 0.0
    requires forall i :: 0 <= i < |chars| ==> chars[i] >= 0
    ensures forall i, j :: 0 <= i < |chars| - 1 && 0 <= j < |chars| - 1 ==>
              InOrder(chars, Allot(chars, speech), i, j)
    ensures (forall i, j :: 0 <= i < |chars| && 0 <= j < |chars| ==> InOrder(chars, Allot(chars, speech), i, j))
            <==> RemainderFits(chars, speech)
  {
    hide PartMs, Sum, Allot, LastOffer, PyRound, LargestUpTo, SmallestFrom;
    var n, ms, total, c := |chars|, Allot(chars, speech), Sum(chars), Last(chars);
    var below, above := LargestUpTo(Init(chars), c), SmallestFrom(Init(chars), c);
    AllotShape(chars, speech);
    AllotLength(chars, speech);
    forall i, j | 0 <= i < n - 1 && 0 <= j < n - 1 ensures InOrder(chars, ms, i, j) {
      if chars[i] <= chars[j] { ShareFacts(chars[i], chars[j], total, speech); }
    }
    if forall i, j :: 0 <= i < n && 0 <= j < n ==> InOrder(chars, ms, i, j) {
      if below.Some? {
        var k :| 0 <= k < n - 1 && Init(chars)[k] == below.value;
        assert InOrder(chars, ms, k, n - 1);
      }
      if above.Some? {
        var k :| 0 <= k < n - 1 && Init(chars)[k] == above.value;
        assert InOrder(chars, ms, n - 1, k);
      }
    }
    if RemainderFits(chars, speech) {
      var last := n - 1;
      forall i | 0 <= i < last ensures InOrder(chars, ms, i, last) && InOrder(chars, ms, last, i) {
        assert Init(chars)[i] == chars[i];
        if chars[i] <= c { ShareFacts(chars[i], below.value, total, speech); }
        if c <= chars[i] { ShareFacts(above.value, chars[i], total, speech); }
      }
    }
  }

  /** A last part with more characters than another can get less time. */
  lemma LastPartCanLose()
    ensures Allot([40, 1, 1, 41], 0.2) == [96, 50, 50, 50]
  {
    var chars := [40, 1, 1, 41];
    assert Init(chars) == [40, 1, 1] && Init([40, 1, 1]) == [40, 1] && Init([40, 1]) == [40] && Init([40]) == [];
    assert Sum([40]) == 40 && Sum([40, 1]) == 41 && Sum([40, 1, 1]) == 42 && Sum(chars) == 83;
    assert PartMs(40, 83, 0.2) == 96 && PartMs(1, 83, 0.2) == 50;
    assert TotalMs(0.2) == 200;
    hide PartMs, TotalMs;
    var ms := Allot(chars, 0.2);
    AllotShape(chars, 0.2);
    AllotLength(chars, 0.2);
    assert ms[0] == 96 && ms[1] == 50 && ms[2] == 50;
    var shares := ms[..3];
    assert shares == [96, 50, 50];
    assert Init(shares) == [96, 50] && Init([96, 50]) == [96] && Init([96]) == [];
    assert Sum([96]) == 96 && Sum([96, 50]) == 146 && Sum(shares) == 196;
    assert LastOffer(chars, 0.2) == 4;
    assert ms[3] == Last(ms) == 50;
  }

  /** Nobody was lifted to the floor of 50 ms. */
  ghost predicate NothingLifted(chars: seq<int>, speech: real)
    requires chars != []
  {
    && (forall i :: 0 <= i < |chars| - 1 ==> PyRound(Exact(chars[i], Sum(chars), speech)) >= 50)
    && LastOffer(chars, speech) >= 50
  }

  lemma ExactAdds(a: int, b: int, total: int, speech: real)
    ensures Exact(a + b, total, speech) == Exact(a, total, speech) + Exact(b, total, speech)
  {
    Distribute(speech * 1000.0 / Max(total, 1) as real, a, b);
  }

  lemma {:induction false} SharesNear(chars: seq<int>, speech: real, k: nat)
    requires k < |chars| && speech >= 0.0 && NothingLifted(chars, speech)
    requires forall i :: 0 <= i < |chars| ==> chars[i] >= 0
    ensures var given := Sum(Allot(chars, speech)[..k]) as real;
            var exact := Exact(Sum(chars[..k]), Sum(chars), speech);
            exact - 0.5 * k as real <= given <= exact + 0.5 * k as real
    decreases k
  {
    hide Sum, PartMs, Allot, LastOffer, PyRound, Exact;
    var ms := Allot(chars, speech);
    AllotLength(chars, speech);
    if k == 0 {
      SumEmpty(ms[..0]);
      SumEmpty(chars[..0]);
      NoChars(Sum(chars), speech);
    } else {
      SharesNear(chars, speech, k - 1);
      AllotShape(chars, speech);
      SumNext(ms, k - 1);
      SumNext(chars, k - 1);
      ShareFacts(chars[k - 1], chars[k - 1], Sum(chars), speech);
      ExactAdds(Sum(chars[..k - 1]), chars[k - 1], Sum(chars), speech);
    }
  }

  lemma NoChars(total: int, speech: real)
    ensures Exact(0, total, speech) == 0.0
    ensures total > 0 ==> Exact(total, total, speech) == speech * 1000.0
  {
  }

  /** When nobody was lifted to the floor, the last part, too, is close to its exact share:
      within half a millisecond for every part. So it never gets less than a part whose
      exact share is smaller by that much and another half. */
  lemma LastShareNear(chars: seq<int>, speech: real)
    requires chars != [] && speech >= 0.0 && Sum(chars) > 0 && NothingLifted(chars, speech)
    requires forall i :: 0 <= i < |chars| ==> chars[i] >= 0
    ensures var ms, exact := Last(Allot(chars, speech)) as real, Exact(Last(chars), Sum(chars), speech);
            exact - 0.5 * |chars| as real <= ms <= exact + 0.5 * |chars| as real
    ensures forall i :: 0 <= i < |chars| - 1 ==>
              Exact(chars[i], Sum(chars), speech) + 0.5 * (|chars| + 1) as real
              <= Exact(Last(chars), Sum(chars), speech) ==>
                Allot(chars, speech)[i] <= Last(Allot(chars, speech))
  {
    hide Sum, PartMs, Allot, PyRound, Exact;
    var n, ms, total := |chars|, Allot(chars, speech), Sum(chars);
    AllotShape(chars, speech);
    AllotLength(chars, speech);
    SharesNear(chars, speech, n - 1);
    SumNext(chars, n - 1);
    SumWhole(chars);
    ExactAdds(Sum(chars[..n - 1]), Last(chars), total, speech);
    NoChars(total, speech);
    RoundIsNear(speech * 1000.0);
    forall i | 0 <= i < n - 1
      ensures ms[i] as real <= Exact(chars[i], total, speech) + 0.5
    {
      ShareFacts(chars[i], chars[i], total, speech);
    }
  }

  // ---------------------------------------------------------------- planned rows

  datatype PlannedPart = PlannedPart(index: nat, count: nat, text: string, targetMs: int)

  ghost function CharsOf(parts: seq<string>): seq<int> {
    seq(|parts|, i requires 0 <= i < |parts| => CountChars(parts[i]))
  }

  /** `planned_parts`: part texts with their numbers and durations. */
  method PlannedParts(input: string, sec: real, args: PlanArgs) returns (rows: seq<PlannedPart>)
    ensures var texts := PlannedTexts(input, sec, args);
            var ms := Allot(CharsOf(texts), SpeechSec(|texts|, sec, args.pauseSec));
            && |rows| == |texts|
            && forall i :: 0 <= i < |rows| ==> rows[i] == PlannedPart(i + 1, |texts|, texts[i], ms[i])
  {
    hide PlannedTexts, Allot, CountChars;
    var texts := PlanTexts(input, sec, args);
    var chars := [];
    for i := 0 to |texts|
      invariant chars == CharsOf(texts)[..i]
    {
      chars := chars + [CountChars(texts[i])];
    }
    var ms := AllotMs(chars, SpeechSec(|texts|, sec, args.pauseSec));
    assert chars == CharsOf(texts);
    rows := [];
    for i := 0 to |texts|
      invariant |rows| == i
      invariant forall k :: 0 <= k < i ==> rows[k] == PlannedPart(k + 1, |texts|, texts[k], ms[k])
    {
      rows := rows + [PlannedPart(i + 1, |texts|, texts[i], ms[i])];
    }
  }

  /** The durations of a whole plan: they cover the speech time, exceed it by at most
      50 ms a part, and never come to more than twice the speech time. */
  lemma PlanDurations(input: string, sec: real, args: PlanArgs)
    requires PlannedTexts(input, sec, args) != []
    ensures var texts := PlannedTexts(input, sec, args);
            var speech := SpeechSec(|texts|, sec, args.pauseSec);
            var ms := Allot(CharsOf(texts), speech);
            && TotalMs(speech) <= Sum(ms) <= TotalMs(speech) + 50 * |texts|
            && Sum(ms) <= 2 * TotalMs(speech)
            && speech * 1000.0 - 0.5 <= TotalMs(speech) as real <= speech * 1000.0 + 0.5
  {
    hide PlannedTexts, Allot, CountChars, Sum, PyRound;
    var texts := PlannedTexts(input, sec, args);
    var speech := SpeechSec(|texts|, sec, args.pauseSec);
    AllotTotal(CharsOf(texts), speech);
    RoundIsNear(speech * 1000.0);
    assert speech * 1000.0 >= 50.0 * |texts| as real;
  }

  // ---------------------------------------------------------------- audio cuts

  datatype Cut = Cut(start: int, duration: int) {
    function End(): int { start + duration }
  }

  function CutAt(cursor: int, partMs: int, audioMs: int): Cut {
    var start := Min(cursor, Max(0, audioMs - 50));
    Cut(start, Min(partMs, Max(50, audioMs - start)))
  }

  /** Where the cursor stands after some parts: parts without a duration are skipped. */
  function Cursor(parts: seq<int>): int {
    if parts == [] then 0 else Cursor(Init(parts)) + Max(0, Last(parts))
  }

  function Cuts(parts: seq<int>, audioMs: int): seq<Cut> {
    if parts == [] then []
    else Cuts(Init(parts), audioMs)
         + if Last(parts) <= 0 then [] else [CutAt(Cursor(Init(parts)), Last(parts), audioMs)]
  }

  /** The cut loop of `build_augmented_rows`. */
  method CutAudio(parts: seq<int>, audioMs: int) returns (cuts: seq<Cut>)
    ensures cuts == Cuts(parts, audioMs)
  {
    cuts := [];
    var cursor := 0;
    for k := 0 to |parts|
      invariant cursor == Cursor(parts[..k]) && cuts == Cuts(parts[..k], audioMs)
    {
      assert Init(parts[..k + 1]) == parts[..k];
      var partMs := parts[k];
      if partMs <= 0 { continue; }
      var start := Min(cursor, Max(0, audioMs - 50));
      var duration := Min(partMs, Max(50, audioMs - start));
      cuts := cuts + [Cut(start, duration)];
      cursor := cursor + partMs;
    }
    assert parts[..|parts|] == parts;
  }

  ghost predicate AllAtLeast50(parts: seq<int>) {
    forall i :: 0 <= i < |parts| ==> parts[i] >= 50
  }

  lemma {:induction false} CutsOfFullParts(parts: seq<int>, audioMs: int)
    requires AllAtLeast50(parts)
    ensures Cursor(parts) == Sum(parts)
    ensures |Cuts(parts, audioMs)| == |parts|
    ensures forall k :: 0 <= k < |parts| ==> Cuts(parts, audioMs)[k] == CutAt(Sum(parts[..k]), parts[k], audioMs)
  {
    hide CutAt;
    if parts != [] {
      var front := Init(parts);
      CutsOfFullParts(front, audioMs);
      var cuts := Cuts(parts, audioMs);
      forall k | 0 <= k < |parts| ensures cuts[k] == CutAt(Sum(parts[..k]), parts[k], audioMs) {
        assert front[..k] == parts[..k];
        if k < |front| { assert cuts[k] == Cuts(front, audioMs)[k]; }
        else { assert parts[..k] == front; }
      }
    }
  }

  /** The cuts cover [0, total) without gap or overlap. */
  ghost predicate Tiles(cuts: seq<Cut>, total: int) {
    && cuts != []
    && cuts[0].start == 0 && Last(cuts).End() == total
    && (forall k :: 0 < k < |cuts| ==> cuts[k].start == cuts[k - 1].End())
    && (forall k :: 0 <= k < |cuts| ==> cuts[k].duration > 0)
  }

  /** With at least 50 ms of audio every cut stays inside the audio. */
  lemma CutsStayInside(parts: seq<int>, audioMs: int)
    requires AllAtLeast50(parts) && audioMs >= 50
    ensures forall k :: 0 <= k < |Cuts(parts, audioMs)| ==>
              var cut := Cuts(parts, audioMs)[k]; 0 <= cut.start && cut.duration >= 50 && cut.End() <= audioMs
  {
    CutsOfFullParts(parts, audioMs);
    forall k | 0 <= k < |parts|
      ensures var cut := Cuts(parts, audioMs)[k]; 0 <= cut.start && cut.duration >= 50 && cut.End() <= audioMs
    {
      SumNonNegative(parts, k);
    }
  }

  /** A cut starts where the parts before it end, or 50 ms before the end of the audio when
      they run past that; it has its part's length, or what is left of the audio. */
  lemma CutsGiveWay(parts: seq<int>, audioMs: int, k: nat)
    requires AllAtLeast50(parts) && audioMs >= 50 && k < |parts|
    ensures |Cuts(parts, audioMs)| == |parts|
    ensures var cut, before := Cuts(parts, audioMs)[k], Sum(parts[..k]);
            && cut.start == (if before + 50 <= audioMs then before else audioMs - 50)
            && cut.End() == (if cut.start + parts[k] <= audioMs then cut.start + parts[k] else audioMs)
  {
    CutsOfFullParts(parts, audioMs);
  }

  /** Parts without a duration are as if they were not there. */
  lemma {:induction false} EmptyPartsSkipped(a: seq<int>, p: int, b: seq<int>, audioMs: int)
    requires p <= 0
    ensures Cursor(a + [p] + b) == Cursor(a + b)
    ensures Cuts(a + [p] + b, audioMs) == Cuts(a + b, audioMs)
  {
    hide CutAt;
    if b == [] {
      assert Init(a + [p] + b) == a && a + b == a;
    } else {
      EmptyPartsSkipped(a, p, Init(b), audioMs);
      assert Init(a + [p] + b) == a + [p] + Init(b) && Init(a + b) == a + Init(b);
      assert Last(a + [p] + b) == Last(b) == Last(a + b);
    }
  }

  /** A plan that fits is cut at its own running totals. */
  lemma FittingCut(parts: seq<int>, audioMs: int, k: nat)
    requires AllAtLeast50(parts) && k < |parts| && Sum(parts) <= audioMs
    ensures CutAt(Sum(parts[..k]), parts[k], audioMs) == Cut(Sum(parts[..k]), parts[k])
    ensures Sum(parts[..k]) + parts[k] == Sum(parts[..k + 1])
  {
    hide Sum;
    SumNonNegative(parts, k);
    SumNext(parts, k);
    SumMonotone(parts, 50, k + 1);
    FloorTimes50(|parts| - (k + 1));
  }

  /** The cuts tile the planned time if and only if the plan fits into the audio. */
  lemma CutsTileIffPlanFits(parts: seq<int>, audioMs: int)
    requires AllAtLeast50(parts) && parts != [] && audioMs >= 50
    ensures Tiles(Cuts(parts, audioMs), Sum(parts)) <==> Sum(parts) <= audioMs
    ensures Sum(parts) <= audioMs ==>
              Cuts(parts, audioMs) == seq(|parts|, k requires 0 <= k < |parts| => Cut(Sum(parts[..k]), parts[k]))
  {
    hide Sum, Cuts, CutAt;
    var cuts := Cuts(parts, audioMs);
    CutsOfFullParts(parts, audioMs);
    if Sum(parts) <= audioMs {
      forall k | 0 <= k < |parts|
        ensures cuts[k] == Cut(Sum(parts[..k]), parts[k]) && cuts[k].End() == Sum(parts[..k + 1])
      {
        FittingCut(parts, audioMs, k);
      }
      SumWhole(parts);
      SumEmpty(parts[..0]);
    } else {
      CutsStayInside(parts, audioMs);
    }
  }

  lemma FloorTimes50(n: nat)
    ensures n * 50 >= 0
  {
  }

  /** From text to audio: when the audio has room for the speech time and 50 ms a part,
      cutting it by the planned durations tiles exactly the planned time. */
  lemma PlannedCutsTile(chars: seq<int>, speech: real, audioMs: int)
    requires chars != [] && speech >= 0.0
    requires forall i :: 0 <= i < |chars| ==> chars[i] >= 0
    requires TotalMs(speech) + 50 * |chars| <= audioMs
    ensures var ms := Allot(chars, speech); Tiles(Cuts(ms, audioMs), Sum(ms))
  {
    hide Tiles, Cuts, Allot;
    var ms := Allot(chars, speech);
    AllotTotal(chars, speech);
    SumMonotone(ms, 50, 0);
    AllotLength(chars, speech);
    CutsTileIffPlanFits(ms, audioMs);
  }

  /** The composite that the augmentation relies on: a plan of several parts, pauses of at
      least 101 ms (the default is 180), a target with room for the pauses and 50 ms a
      part, and audio at least as long as the target. Then the plan fits into the audio
      and its cuts tile the planned time. */
  lemma PlanFitsAudio(input: string, sec: real, args: PlanArgs, audioMs: int)
    requires |PlannedTexts(input, sec, args)| >= 2
    requires args.pauseSec >= 0.101
    requires sec >= args.pauseSec * (|PlannedTexts(input, sec, args)| - 1) as real
                    + 0.05 * |PlannedTexts(input, sec, args)| as real
    requires audioMs >= Trunc(sec * 1000.0)
    ensures var texts := PlannedTexts(input, sec, args);
            var ms := Allot(CharsOf(texts), SpeechSec(|texts|, sec, args.pauseSec));
            Sum(ms) <= audioMs && Tiles(Cuts(ms, audioMs), Sum(ms))
  {
    hide PlannedTexts, Allot, CountChars, Sum, PyRound, Tiles, Cuts, LastOffer;
    var n := |PlannedTexts(input, sec, args)|;
    var chars := CharsOf(PlannedTexts(input, sec, args));
    var speech := SpeechSec(n, sec, args.pauseSec);
    var ms := Allot(chars, speech);
    AllotTotal(chars, speech);
    AllotLength(chars, speech);
    RoundIsNear(speech * 1000.0);
    PausesPay(n, sec, args.pauseSec);
    SumMonotone(ms, 50, 0);
    SumEmpty(ms[..0]);
    CutsTileIffPlanFits(ms, audioMs);
  }

  /** The pauses of 101 ms or more pay for the floors of 50 ms. */
  lemma PausesPay(n: nat, sec: real, pauseSec: real)
    requires n >= 2 && pauseSec >= 0.101 && sec >= pauseSec * (n - 1) as real + 0.05 * n as real
    ensures SpeechSec(n, sec, pauseSec) == sec - pauseSec * (n - 1) as real
    ensures SpeechSec(n, sec, pauseSec) * 1000.0 + 0.5 + (50 * n) as real <= sec * 1000.0
  {
    assert (pauseSec - 0.101) * (n - 1) as real >= 0.0;
  }

  lemma AllotLength(chars: seq<int>, speech: real)
    ensures |Allot(chars, speech)| == |chars|
  {
  }
}
