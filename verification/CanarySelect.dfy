/** Apportioning a canary set over duration buckets (`lora_canary_select.py`). */
module CanarySelect {
  import opened Numbers
  import opened Sequences

  datatype Bucket = Short | Medium | Long

  /** One number for each bucket. */
  datatype Quotas = Quotas(short: int, medium: int, long: int) {
    function At(b: Bucket): int {
      match b case Short => short case Medium => medium case Long => long
    }

    function Set(b: Bucket, n: int): Quotas {
      match b
      case Short => this.(short := n)
      case Medium => this.(medium := n)
      case Long => this.(long := n)
    }

    function Sum(): int { short + medium + long }
  }

  datatype Shares = Shares(short: real, medium: real, long: real) {
    function At(b: Bucket): real {
      match b case Short => short case Medium => medium case Long => long
    }

    function Sum(): real { short + medium + long }

    /** The exact, fractional share of the count. */
    function Raw(b: Bucket, count: int): real { count as real * At(b) }
  }

  /** `max(raw, key=...)`: the first bucket with the largest remaining share. */
  function MostOwed(shares: Shares, count: int, out: Quotas): Bucket {
    var s := shares.Raw(Short, count) - out.short as real;
    var m := shares.Raw(Medium, count) - out.medium as real;
    var l := shares.Raw(Long, count) - out.long as real;
    if s >= m && s >= l then Short else if m >= l then Medium else Long
  }

  /** `max(out, key=...)`: the first of the largest buckets. */
  function Largest(out: Quotas): Bucket {
    if out.short >= out.medium && out.short >= out.long then Short
    else if out.medium >= out.long then Medium else Long
  }

  ghost predicate ProperShares(shares: Shares) {
    shares.Sum() == 1.0 && shares.short >= 0.0 && shares.medium >= 0.0 && shares.long >= 0.0
  }

  /** Strictly less than one away from the exact share, and never below its floor. */
  ghost predicate Near(out: Quotas, shares: Shares, count: int) {
    && Close(out.short, count as real * shares.short)
    && Close(out.medium, count as real * shares.medium)
    && Close(out.long, count as real * shares.long)
  }

  predicate Close(n: int, exact: real) { exact - 1.0 < n as real < exact + 1.0 && n >= exact.Floor }

  /** A bucket that was rounded up had at least the remainder of any that was not. */
  ghost predicate LargestRemainders(out: Quotas, shares: Shares, count: int) {
    forall a: Bucket, b: Bucket ::
      out.At(a) > shares.Raw(a, count).Floor && out.At(b) == shares.Raw(b, count).Floor ==>
        Remainder(shares, a, count) >= Remainder(shares, b, count)
  }

  function Remainder(shares: Shares, b: Bucket, count: int): real {
    shares.Raw(b, count) - shares.Raw(b, count).Floor as real
  }

  lemma RawSum(shares: Shares, count: int)
    requires ProperShares(shares) && count >= 0
    ensures shares.Raw(Short, count) + shares.Raw(Medium, count) + shares.Raw(Long, count) == count as real
    ensures forall b: Bucket :: shares.Raw(b, count) >= 0.0
  {
    var c := count as real;
    assert c * shares.short + c * shares.medium + c * shares.long == c * shares.Sum();
    forall b: Bucket ensures shares.Raw(b, count) >= 0.0 { NonNegative(c, shares.At(b)); }
  }

  lemma NonNegative(x: real, y: real)
    requires x >= 0.0 && y >= 0.0
    ensures x * y >= 0.0
  {
  }

  lemma NearAt(out: Quotas, shares: Shares, count: int)
    ensures Near(out, shares, count) <==> forall b: Bucket :: Close(out.At(b), shares.Raw(b, count))
  {
    forall b: Bucket | Near(out, shares, count) ensures Close(out.At(b), shares.Raw(b, count)) {
      match b
      case Short =>
      case Medium =>
      case Long =>
    }
    if forall b: Bucket :: Close(out.At(b), shares.Raw(b, count)) {
      assert Close(out.At(Short), shares.Raw(Short, count)) && Close(out.At(Medium), shares.Raw(Medium, count))
             && Close(out.At(Long), shares.Raw(Long, count));
    }
  }

  /** The bucket that is owed most is owed something while the sum is short. */
  lemma MostOwedIsOwed(shares: Shares, count: int, out: Quotas)
    requires ProperShares(shares) && count >= 0 && out.Sum() < count
    ensures var b := MostOwed(shares, count, out);
            && shares.Raw(b, count) - out.At(b) as real > 0.0
            && forall a: Bucket :: shares.Raw(a, count) - out.At(a) as real <= shares.Raw(b, count) - out.At(b) as real
  {
    RawSum(shares, count);
  }

  /** Both choices take the first of several equal ones, and the largest is the largest. */
  lemma FirstIsTaken(shares: Shares, count: int, out: Quotas)
    ensures var b := MostOwed(shares, count, out);
            && (b != Short ==> Owed(shares, Short, count, out) < Owed(shares, b, count, out))
            && (b == Long ==> Owed(shares, Medium, count, out) < Owed(shares, b, count, out))
    ensures var b := Largest(out);
            && (forall a: Bucket :: out.At(a) <= out.At(b))
            && (b != Short ==> out.short < out.At(b)) && (b == Long ==> out.medium < out.At(b))
  {
  }

  /** What is missing from the exact share of a bucket. */
  function Owed(shares: Shares, b: Bucket, count: int, out: Quotas): real {
    count as real * shares.At(b) - out.At(b) as real
  }

  /** Quotas that were only lowered, and nowhere by more than it takes to level the largest. */
  ghost predicate Levelled(out: Quotas, shares: Shares, count: int) {
    && (forall b: Bucket :: out.At(b) <= Trunc(shares.Raw(b, count)))
    && (forall a: Bucket, b: Bucket :: out.At(b) < Trunc(shares.Raw(b, count)) ==> out.At(b) + 1 >= out.At(a))
  }

  lemma TakeOne(shares: Shares, count: int, out: Quotas)
    requires Levelled(out, shares, count)
    ensures var b := Largest(out); Levelled(out.Set(b, out.At(b) - 1), shares, count)
  {
    hide Trunc, Largest;
    var b := Largest(out);
    FirstIsTaken(shares, count, out);
    var next := out.Set(b, out.At(b) - 1);
    forall a: Bucket ensures next.At(a) == if a == b then out.At(b) - 1 else out.At(a) {}
  }

  lemma GiveOne(shares: Shares, count: int, out: Quotas)
    requires ProperShares(shares) && count >= 0 && out.Sum() < count
    requires Near(out, shares, count) && LargestRemainders(out, shares, count)
    ensures var b := MostOwed(shares, count, out); var next := out.Set(b, out.At(b) + 1);
            Near(next, shares, count) && LargestRemainders(next, shares, count)
  {
    var b := MostOwed(shares, count, out);
    var next := out.Set(b, out.At(b) + 1);
    MostOwedIsOwed(shares, count, out);
    NearAt(out, shares, count);
    NearAt(next, shares, count);
    hide MostOwed, Near;
    assert Close(out.At(b), shares.Raw(b, count));
    assert shares.Raw(b, count) > out.At(b) as real;
    assert out.At(b) == shares.Raw(b, count).Floor;
    forall a: Bucket | a != b ensures next.At(a) == out.At(a) {}
    assert next.At(b) == out.At(b) + 1;
  }

  lemma TruncIsNear(shares: Shares, count: int, out: Quotas)
    requires ProperShares(shares) && count >= 0
    requires forall b: Bucket :: out.At(b) == Trunc(shares.Raw(b, count))
    ensures Near(out, shares, count) && LargestRemainders(out, shares, count) && out.Sum() <= count
  {
    RawSum(shares, count);
    NearAt(out, shares, count);
    hide Near;
    forall b: Bucket ensures out.At(b) == shares.Raw(b, count).Floor {}
    assert out.short as real <= shares.Raw(Short, count);
    assert out.medium as real <= shares.Raw(Medium, count);
    assert out.long as real <= shares.Raw(Long, count);
  }

  lemma TruncsLevelled(shares: Shares, count: int)
    ensures Levelled(Quotas(Trunc(shares.Raw(Short, count)), Trunc(shares.Raw(Medium, count)),
                            Trunc(shares.Raw(Long, count))), shares, count)
  {
    hide Trunc;
  }

  /** The quotas always add up to the count, whatever the shares. With shares that are
      not negative and sum to 1 every bucket stays strictly within one of its exact share
      and never falls below its floor, and seats go to the largest remainders. Shares that
      come to too much are taken from the largest buckets. */
  method ComputeQuotas(count: int, shares: Shares) returns (out: Quotas)
    ensures out.Sum() == count
    ensures ProperShares(shares) && count >= 0 ==> Near(out, shares, count) && LargestRemainders(out, shares, count)
    ensures Trunc(shares.Raw(Short, count)) + Trunc(shares.Raw(Medium, count)) + Trunc(shares.Raw(Long, count)) > count
            ==> Levelled(out, shares, count)
  {
    hide MostOwed, Near, LargestRemainders, ProperShares, Trunc, Levelled, Largest;
    TruncsLevelled(shares, count);
    out := Quotas(Trunc(shares.Raw(Short, count)), Trunc(shares.Raw(Medium, count)), Trunc(shares.Raw(Long, count)));
    if ProperShares(shares) && count >= 0 { TruncIsNear(shares, count, out); }
    ghost var over := out.Sum() > count;
    while out.Sum() < count
      invariant over ==> out.Sum() > count && Levelled(out, shares, count)
      invariant ProperShares(shares) && count >= 0 ==>
                  Near(out, shares, count) && LargestRemainders(out, shares, count) && out.Sum() <= count
      decreases count - out.Sum()
    {
      if ProperShares(shares) && count >= 0 { GiveOne(shares, count, out); }
      var key := MostOwed(shares, count, out);
      out := out.Set(key, out.At(key) + 1);
    }
    while out.Sum() > count
      invariant out.Sum() >= count
      invariant over ==> Levelled(out, shares, count)
      invariant ProperShares(shares) && count >= 0 ==>
                  out.Sum() == count && Near(out, shares, count) && LargestRemainders(out, shares, count)
      decreases out.Sum() - count
    {
      if over { TakeOne(shares, count, out); }
      var key := Largest(out);
      out := out.Set(key, out.At(key) - 1);
    }
  }

  // ---------------------------------------------------------------- selecting rows

  /** A feature row: its id, its bucket, its split and its risk. */
  datatype Row = Row(sampleId: string, bucket: Bucket, splitRank: int, risk: real)

  /** Lower split rank first, then higher risk. */
  predicate RankLe(a: Row, b: Row) {
    a.splitRank < b.splitRank || (a.splitRank == b.splitRank && a.risk >= b.risk)
  }

  /** The other ranks strictly better: a lower split rank, or the same and more risk. */
  predicate RanksAbove(other: Row, row: Row) {
    other.splitRank < row.splitRank || (other.splitRank == row.splitRank && other.risk > row.risk)
  }

  /** A shuffle hands back the same rows in some order. */
  ghost predicate IsShuffle(shuffle: (seq<Row>, nat) -> seq<Row>) {
    forall rows, n :: multiset(shuffle(rows, n)) == multiset(rows)
  }

  function InBucket(rows: seq<Row>, b: Bucket): seq<Row> { Filter(rows, (r: Row) => r.bucket == b) }

  /** `select_bucket`: the first `want` rows of the shuffled, sorted bucket. */
  function BucketChoice(rows: seq<Row>, want: int, shuffled: seq<Row>): seq<Row> {
    if want <= 0 || rows == [] then []
    else
      var sorted := StableSort(shuffled, RankLe);
      if want < |sorted| then sorted[..want] else sorted
  }

  /** The best-ranked rows of a bucket: as many as asked for or all of them, and none left
      out that ranks strictly before one that was taken. */
  lemma BucketChoiceIsTop(rows: seq<Row>, want: int, shuffled: seq<Row>)
    requires multiset(shuffled) == multiset(rows)
    ensures var r := BucketChoice(rows, want, shuffled);
            && |r| == Min(Max(want, 0), |rows|)
            && multiset(r) <= multiset(rows)
            && forall x, y :: x in r && y in multiset(rows) - multiset(r) ==> !RanksAbove(y, x)
  {
    hide StableSort, RanksAbove, RankLe;
    MultisetLength(shuffled, rows);
    if want > 0 && rows != [] {
      var sorted := StableSort(shuffled, RankLe);
      SortPermutes(shuffled, RankLe);
      RankOrders();
      SortSorts(shuffled, RankLe);
      var n := Min(want, |sorted|);
      PrefixIsTop(sorted, n);
      assert BucketChoice(rows, want, shuffled) == sorted[..n] by { assert sorted[..|sorted|] == sorted; }
    }
  }

  lemma RankOrders()
    ensures TotalPreorder(RankLe)
  {
  }

  lemma PrefixIsTop(sorted: seq<Row>, n: nat)
    requires IsSorted(sorted, RankLe) && n <= |sorted|
    ensures multiset(sorted[..n]) <= multiset(sorted)
    ensures forall x, y :: x in sorted[..n] && y in multiset(sorted) - multiset(sorted[..n]) ==> !RanksAbove(y, x)
  {
    assert sorted == sorted[..n] + sorted[n..];
    assert multiset(sorted) == multiset(sorted[..n]) + multiset(sorted[n..]);
    forall x, y | x in sorted[..n] && y in multiset(sorted) - multiset(sorted[..n]) ensures !RanksAbove(y, x) {
      assert y in sorted[n..] && RankLe(x, y);
    }
  }

  lemma MultisetLength(a: seq<Row>, b: seq<Row>)
    requires multiset(a) == multiset(b)
    ensures |a| == |b|
  {
    assert |multiset(a)| == |a| && |multiset(b)| == |b|;
  }

  method SelectBucket(rows: seq<Row>, want: int, shuffle: (seq<Row>, nat) -> seq<Row>, turn: nat)
    returns (result: seq<Row>)
    ensures result == BucketChoice(rows, want, shuffle(rows, turn))
  {
    if want <= 0 || rows == [] { return []; }
    var shuffled := shuffle(rows, turn);
    var sorted := StableSort(shuffled, RankLe);
    result := if want < |sorted| then sorted[..want] else sorted;
  }

  function Ids(rows: seq<Row>): set<string> { set r | r in rows :: r.sampleId }

  ghost predicate UniqueIds(rows: seq<Row>) {
    forall i, j :: 0 <= i < j < |rows| ==> rows[i].sampleId != rows[j].sampleId
  }

  /** Rows drawn without repetition: every row at most once, all from `rows`. */
  ghost predicate Drawn(selected: seq<Row>, rows: seq<Row>) {
    multiset(selected) <= multiset(rows)
  }

  lemma DrawnIsUnique(selected: seq<Row>, rows: seq<Row>)
    requires UniqueIds(rows) && Drawn(selected, rows)
    ensures UniqueIds(selected) && forall r :: r in selected ==> r in rows
  {
    assert Distinct(rows);
    DistinctCounts(rows);
    forall x ensures multiset(selected)[x] <= 1 { assert multiset(rows)[x] <= 1; }
    DistinctCounts(selected);
    forall r | r in selected ensures r in rows { assert multiset(selected)[r] >= 1; }
    forall i, j | 0 <= i < j < |selected| ensures selected[i].sampleId != selected[j].sampleId {
      assert selected[i] in rows && selected[j] in rows && selected[i] != selected[j];
      var a :| 0 <= a < |rows| && rows[a] == selected[i];
      var b :| 0 <= b < |rows| && rows[b] == selected[j];
    }
  }

  /** `rebalance`: fill up with the best-ranked rows that are not selected yet. */
  function Rebalanced(selected: seq<Row>, candidates: seq<Row>, count: nat): seq<Row> {
    if |selected| >= count then selected[..count]
    else
      var sorted := StableSort(candidates, RankLe);
      var missing := count - |selected|;
      selected + if missing < |sorted| then sorted[..missing] else sorted
  }

  function NotIn(rows: seq<Row>, ids: set<string>): seq<Row> { Filter(rows, (r: Row) => r.sampleId !in ids) }

  lemma {:induction false} FilterCounts(rows: seq<Row>, keep: Row -> bool, x: Row)
    ensures multiset(Filter(rows, keep))[x] == if keep(x) then multiset(rows)[x] else 0
  {
    if rows != [] {
      FilterCounts(Init(rows), keep, x);
      assert rows == Init(rows) + [Last(rows)];
    }
  }

  /** With unique ids, the rows that are not selected are all the others. */
  lemma RestCount(rows: seq<Row>, selected: seq<Row>)
    requires UniqueIds(rows) && Drawn(selected, rows)
    ensures |NotIn(rows, Ids(selected))| + |selected| == |rows|
    ensures Drawn(selected + NotIn(rows, Ids(selected)), rows)
  {
    var ids := Ids(selected);
    var isNew := (r: Row) => r.sampleId !in ids;
    var rest := Filter(rows, isNew);
    DrawnIsUnique(selected, rows);
    assert Distinct(rows);
    DistinctCounts(rows);
    forall x ensures multiset(selected)[x] + multiset(rest)[x] == multiset(rows)[x] {
      FilterCounts(rows, isNew, x);
      if x in rows && x.sampleId in ids {
        var y :| y in selected && y.sampleId == x.sampleId;
        SameIdSameRow(rows, x, y);
        assert multiset(selected)[x] >= 1 && multiset(rows)[x] <= 1;
      }
      if x in selected {
        assert x.sampleId in ids && multiset(rows)[x] >= multiset(selected)[x];
      }
    }
    assert multiset(selected) + multiset(rest) == multiset(rows);
    assert |multiset(selected) + multiset(rest)| == |selected| + |rest| && |multiset(rows)| == |rows|;
    assert multiset(selected + rest) == multiset(selected) + multiset(rest);
  }

  lemma SameIdSameRow(rows: seq<Row>, x: Row, y: Row)
    requires UniqueIds(rows) && x in rows && y in rows && x.sampleId == y.sampleId
    ensures x == y
  {
    var i :| 0 <= i < |rows| && rows[i] == x;
    var j :| 0 <= j < |rows| && rows[j] == y;
  }

  lemma RebalanceCompletes(rows: seq<Row>, selected: seq<Row>, candidates: seq<Row>, count: nat)
    requires UniqueIds(rows) && Drawn(selected, rows)
    requires multiset(candidates) == multiset(NotIn(rows, Ids(selected)))
    ensures var r := Rebalanced(selected, candidates, count);
            |r| == Min(count, |rows|) && Drawn(r, rows)
    ensures |selected| > count ==> Rebalanced(selected, candidates, count) == selected[..count]
  {
    hide UniqueIds, StableSort, NotIn, Ids, RankLe;
    RestCount(rows, selected);
    var rest := NotIn(rows, Ids(selected));
    MultisetLength(candidates, rest);
    if |selected| >= count {
      PrefixDrawn(selected, count);
      DrawnLength(selected, rows);
    } else {
      var sorted := StableSort(candidates, RankLe);
      SortPermutes(candidates, RankLe);
      var n := Min(count - |selected|, |sorted|);
      PrefixDrawn(sorted, n);
      assert Rebalanced(selected, candidates, count) == selected + sorted[..n];
      assert multiset(selected + rest) == multiset(selected) + multiset(rest);
      assert multiset(selected + sorted[..n]) == multiset(selected) + multiset(sorted[..n]);
    }
  }

  /** Every selected row stays, and no row left out ranks above one that filled up. */
  lemma BestRowsFillUp(rows: seq<Row>, selected: seq<Row>, candidates: seq<Row>, count: nat)
    requires UniqueIds(rows) && Drawn(selected, rows) && |selected| <= count
    requires multiset(candidates) == multiset(NotIn(rows, Ids(selected)))
    ensures var r := Rebalanced(selected, candidates, count);
            && selected <= r
            && forall x, y :: x in r[|selected|..] && y in rows && y !in r ==> !RanksAbove(y, x)
  {
    hide UniqueIds, StableSort, NotIn, Ids, RanksAbove, RankLe;
    var rest := NotIn(rows, Ids(selected));
    var r, filled := Rebalanced(selected, candidates, count), BucketChoice(rest, count - |selected|, candidates);
    BucketChoiceIsTop(rest, count - |selected|, candidates);
    MultisetLength(candidates, rest);
    SortPermutes(candidates, RankLe);
    assert r == selected + filled && r[|selected|..] == filled;
    forall x, y | x in filled && y in rows && y !in r ensures !RanksAbove(y, x) {
      LeftOutIsCandidate(rows, selected, y);
      assert y in multiset(rest) - multiset(filled);
    }
  }

  lemma LeftOutIsCandidate(rows: seq<Row>, selected: seq<Row>, y: Row)
    requires UniqueIds(rows) && Drawn(selected, rows) && y in rows && y !in selected
    ensures y in multiset(NotIn(rows, Ids(selected)))
  {
    DrawnIsUnique(selected, rows);
    if y.sampleId in Ids(selected) {
      var x :| x in selected && x.sampleId == y.sampleId;
      SameIdSameRow(rows, x, y);
    }
    var ids := Ids(selected);
    FilterMembers(rows, (r: Row) => r.sampleId !in ids);
  }

  lemma PrefixDrawn(rows: seq<Row>, n: nat)
    requires n <= |rows|
    ensures multiset(rows[..n]) <= multiset(rows)
  {
    assert rows == rows[..n] + rows[n..];
    assert multiset(rows) == multiset(rows[..n]) + multiset(rows[n..]);
  }

  lemma DrawnLength(selected: seq<Row>, rows: seq<Row>)
    requires Drawn(selected, rows)
    ensures |selected| <= |rows|
  {
    var gap := multiset(rows) - multiset(selected);
    assert multiset(selected) + gap == multiset(rows);
    assert |multiset(selected)| == |selected| && |multiset(rows)| == |rows|;
  }

  /** Choices from different buckets never share a row. */
  lemma BucketsDrawn(rows: seq<Row>, s: seq<Row>, m: seq<Row>, l: seq<Row>)
    requires multiset(s) <= multiset(InBucket(rows, Short))
    requires multiset(m) <= multiset(InBucket(rows, Medium))
    requires multiset(l) <= multiset(InBucket(rows, Long))
    ensures Drawn(s + m + l, rows)
  {
    assert multiset(s + m + l) == multiset(s) + multiset(m) + multiset(l);
    forall x ensures multiset(s + m + l)[x] <= multiset(rows)[x] {
      FilterCounts(rows, (r: Row) => r.bucket == Short, x);
      FilterCounts(rows, (r: Row) => r.bucket == Medium, x);
      FilterCounts(rows, (r: Row) => r.bucket == Long, x);
    }
  }

  /** The selection of `main`: quotas, one choice per bucket, rebalancing. With unique ids
      the result has min(count, rows) rows, each of them once, and contains the chosen
      rows of every bucket; no row left out ranks above a selected one of its bucket. */
  method SelectCanary(rows: seq<Row>, count: nat, shares: Shares, shuffle: (seq<Row>, nat) -> seq<Row>)
    returns (selected: seq<Row>, quotas: Quotas)
    requires IsShuffle(shuffle) && UniqueIds(rows)
    ensures quotas.Sum() == count
    ensures |selected| == Min(count, |rows|)
    ensures UniqueIds(selected) && forall r :: r in selected ==> r in rows
    ensures ProperShares(shares) ==>
              Near(quotas, shares, count)
              && (forall b: Bucket :: Min(quotas.At(b), |InBucket(rows, b)|) <= |InBucket(selected, b)|)
              && forall x, y :: x in selected && y in rows && y !in selected && x.bucket == y.bucket ==>
                   !RanksAbove(y, x)
  {
    hide Near, LargestRemainders, ProperShares, BucketChoice, StableSort, Rebalanced, UniqueIds, Drawn, InBucket,
         RanksAbove;
    quotas := ComputeQuotas(count, shares);
    var chosen := [];
    var s := SelectBucket(InBucket(rows, Short), quotas.short, shuffle, 0);
    BucketChoiceIsTop(InBucket(rows, Short), quotas.short, shuffle(InBucket(rows, Short), 0));
    var m := SelectBucket(InBucket(rows, Medium), quotas.medium, shuffle, 1);
    BucketChoiceIsTop(InBucket(rows, Medium), quotas.medium, shuffle(InBucket(rows, Medium), 1));
    var l := SelectBucket(InBucket(rows, Long), quotas.long, shuffle, 2);
    BucketChoiceIsTop(InBucket(rows, Long), quotas.long, shuffle(InBucket(rows, Long), 2));
    chosen := s + m + l;
    BucketsDrawn(rows, s, m, l);
    var candidates := shuffle(NotIn(rows, Ids(chosen)), 3);
    RebalanceCompletes(rows, chosen, candidates, count);
    selected := Rebalanced(chosen, candidates, count);
    DrawnIsUnique(selected, rows);
    if ProperShares(shares) {
      QuotasMet(rows, s, m, l, selected, candidates, quotas, shares, count);
      QuotasNonNegative(quotas, shares, count);
      assert quotas.At(Short) >= 0 && quotas.At(Medium) >= 0 && quotas.At(Long) >= 0;
      BestRowsFillUp(rows, chosen, candidates, count);
      BehindPrefix(chosen, selected);
      forall x, y | x in selected && y in rows && y !in selected && x.bucket == y.bucket ensures !RanksAbove(y, x) {
        if x !in selected[|chosen|..] {
          assert x in s + m + l;
          ChosenIsTop(rows, s, Short, x, y);
          ChosenIsTop(rows, m, Medium, x, y);
          ChosenIsTop(rows, l, Long, x, y);
        }
      }
    }
  }

  lemma ChosenIsTop(rows: seq<Row>, chosen: seq<Row>, b: Bucket, x: Row, y: Row)
    requires multiset(chosen) <= multiset(InBucket(rows, b))
    requires forall x, y :: x in chosen && y in multiset(InBucket(rows, b)) - multiset(chosen) ==> !RanksAbove(y, x)
    requires x.bucket == y.bucket && y in rows && y !in chosen
    ensures x in chosen ==> !RanksAbove(y, x)
  {
    hide RanksAbove;
    if x in chosen {
      assert multiset(InBucket(rows, b))[x] >= 1;
      assert x in InBucket(rows, b);
      FilterMembers(rows, (r: Row) => r.bucket == b);
      assert x.bucket == b && y in InBucket(rows, b);
      assert y in multiset(InBucket(rows, b)) - multiset(chosen);
    }
  }

  lemma {:induction false} FilterConcat(a: seq<Row>, b: seq<Row>, keep: Row -> bool)
    ensures Filter(a + b, keep) == Filter(a, keep) + Filter(b, keep)
  {
    if b == [] {
      assert a + b == a && Filter(a, keep) + [] == Filter(a, keep);
    } else {
      var front, last := Init(b), Last(b);
      assert Init(a + b) == a + front && Last(a + b) == last;
      FilterConcat(a, front, keep);
      var one := if keep(last) then [last] else [];
      assert Filter(a, keep) + Filter(front, keep) + one == Filter(a, keep) + (Filter(front, keep) + one);
    }
  }

  lemma {:induction false} FilterAll(a: seq<Row>, keep: Row -> bool)
    requires forall i :: 0 <= i < |a| ==> keep(a[i])
    ensures Filter(a, keep) == a
  {
    if a != [] {
      var front, last := Init(a), a[|a| - 1];
      FilterAll(front, keep);
      assert a == front + [last];
    }
  }

  /** A bucket's choice lies in that bucket. */
  lemma ChoiceInBucket(rows: seq<Row>, c: seq<Row>, b: Bucket)
    requires multiset(c) <= multiset(InBucket(rows, b))
    ensures InBucket(c, b) == c
  {
    var keep := (r: Row) => r.bucket == b;
    forall i | 0 <= i < |c| ensures keep(c[i]) {
      assert c[i] in multiset(c);
      FilterCounts(rows, keep, c[i]);
    }
    FilterAll(c, keep);
  }

  /** With proper shares nothing is cut off again, so every bucket keeps its choice. */
  lemma QuotasMet(rows: seq<Row>, s: seq<Row>, m: seq<Row>, l: seq<Row>, selected: seq<Row>,
                  candidates: seq<Row>, quotas: Quotas, shares: Shares, count: nat)
    requires ProperShares(shares) && Near(quotas, shares, count) && quotas.Sum() == count
    requires multiset(s) <= multiset(InBucket(rows, Short)) && |s| == Min(Max(quotas.short, 0), |InBucket(rows, Short)|)
    requires multiset(m) <= multiset(InBucket(rows, Medium))
    requires |m| == Min(Max(quotas.medium, 0), |InBucket(rows, Medium)|)
    requires multiset(l) <= multiset(InBucket(rows, Long)) && |l| == Min(Max(quotas.long, 0), |InBucket(rows, Long)|)
    requires selected == Rebalanced(s + m + l, candidates, count)
    ensures forall b: Bucket :: Min(quotas.At(b), |InBucket(rows, b)|) <= |InBucket(selected, b)|
  {
    hide Near, ProperShares, Rebalanced, Filter, InBucket;
    QuotasNonNegative(quotas, shares, count);
    assert quotas.At(Short) >= 0 && quotas.At(Medium) >= 0 && quotas.At(Long) >= 0;
    ChosenKept(s + m + l, candidates, count);
    ChoiceInBucket(rows, s, Short);
    ChoiceInBucket(rows, m, Medium);
    ChoiceInBucket(rows, l, Long);
    var rest := selected[|s + m + l|..];
    assert selected == s + m + l + rest;
    forall b: Bucket ensures Min(quotas.At(b), |InBucket(rows, b)|) <= |InBucket(selected, b)| {
      InBucketConcat(s, m, l, rest, b);
    }
  }

  lemma ChosenKept(chosen: seq<Row>, candidates: seq<Row>, count: nat)
    requires |chosen| <= count
    ensures chosen <= Rebalanced(chosen, candidates, count)
  {
  }

  lemma InBucketConcat(s: seq<Row>, m: seq<Row>, l: seq<Row>, rest: seq<Row>, b: Bucket)
    ensures |InBucket(s + m + l + rest, b)|
            == |InBucket(s, b)| + |InBucket(m, b)| + |InBucket(l, b)| + |InBucket(rest, b)|
  {
    var keep := (r: Row) => r.bucket == b;
    FilterConcat(s + m + l, rest, keep);
    FilterConcat(s + m, l, keep);
    FilterConcat(s, m, keep);
  }

  lemma QuotasNonNegative(quotas: Quotas, shares: Shares, count: nat)
    requires ProperShares(shares) && Near(quotas, shares, count)
    ensures forall b: Bucket :: quotas.At(b) >= 0
  {
    RawSum(shares, count);
    NearAt(quotas, shares, count);
    hide Near;
    assert forall b: Bucket :: Close(quotas.At(b), shares.Raw(b, count));
  }
}
