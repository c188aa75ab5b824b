/** Order-preserving sub-sequences and stable sorting, shared by the other modules. */
module Sequences {

  datatype Option<+T> = None | Some(value: T)

  function Init<T>(s: seq<T>): seq<T>
    requires s != []
  {
    s[..|s| - 1]
  }

  function Last<T>(s: seq<T>): T
    requires s != []
  {
    s[|s| - 1]
  }

  lemma SliceOfSlice<T>(s: seq<T>, off: int, sub: seq<T>, a: int, b: int)
    requires 0 <= off && off + |sub| <= |s| && sub == s[off..off + |sub|]
    requires 0 <= a <= b <= |sub|
    ensures sub[a..b] == s[a + off..b + off]
  {
    var here, there := sub[a..b], s[a + off..b + off];
    forall k | 0 <= k < |here| ensures here[k] == there[k] {
      assert here[k] == sub[a + k] == s[off..off + |sub|][a + k];
    }
  }

  lemma Regroup<T>(a: seq<T>, b: seq<T>, c: seq<T>)
    ensures a + (b + c) == (a + b) + c
  {
  }

  lemma AroundPair<T>(s: seq<T>, k: nat)
    requires k + 1 < |s|
    ensures s == s[..k] + [s[k], s[k + 1]] + s[k + 2..]
  {
  }

  /** A sequence as its first element, one later element and what lies around that. */
  lemma AroundFirstAnd<T>(s: seq<T>, j: nat)
    requires 0 < j < |s|
    ensures s == [s[0]] + s[1..j] + [s[j]] + s[j + 1..]
  {
  }

  /** The first of three sequences without its first element. */
  lemma FrontOfThree<T>(a: seq<T>, b: seq<T>, c: seq<T>)
    requires a != []
    ensures (a + b + c)[0] == a[0] && (a + b + c)[1..] == a[1..] + b + c
  {
  }

  lemma BehindPrefix<T>(a: seq<T>, s: seq<T>)
    requires a <= s
    ensures s == a + s[|a|..]
  {
  }

  lemma AroundOne<T>(s: seq<T>, k: nat)
    requires k < |s|
    ensures s == s[..k] + [s[k]] + s[k + 1..]
  {
  }

  /** a can be obtained from b by deleting elements, keeping the order of the rest. */
  ghost predicate IsSubseq<T>(a: seq<T>, b: seq<T>)
    decreases |b|
  {
    a == [] ||
    (b != [] &&
     ((Last(a) == Last(b) && IsSubseq(Init(a), Init(b))) || IsSubseq(a, Init(b))))
  }

  lemma {:induction false} SubseqRefl<T>(a: seq<T>)
    ensures IsSubseq(a, a)
  {
    if a != [] { SubseqRefl(Init(a)); }
  }

  /** Dropping the last element of the smaller sequence keeps it a sub-sequence. */
  lemma {:induction false} SubseqInit<T>(a: seq<T>, b: seq<T>)
    requires a != [] && IsSubseq(a, b)
    ensures IsSubseq(Init(a), b)
    decreases |b|
  {
    if IsSubseq(a, Init(b)) {
      SubseqInit(a, Init(b));
    }
  }

  lemma {:induction false} SubseqConcat<T>(a: seq<T>, a': seq<T>, b: seq<T>, b': seq<T>)
    requires IsSubseq(a, a') && IsSubseq(b, b')
    ensures IsSubseq(a + b, a' + b')
    decreases |b'|
  {
    if b' == [] {
      assert a + b == a && a' + b' == a';
    } else {
      assert Init(a' + b') == a' + Init(b');
      if IsSubseq(b, Init(b')) {
        SubseqConcat(a, a', b, Init(b'));
      } else {
        SubseqConcat(a, a', Init(b), Init(b'));
        assert Init(a + b) == a + Init(b);
      }
    }
  }

  lemma {:induction false} SubseqTrans<T>(a: seq<T>, b: seq<T>, c: seq<T>)
    requires IsSubseq(a, b) && IsSubseq(b, c)
    ensures IsSubseq(a, c)
    decreases |c|
  {
    if a == [] {
    } else if IsSubseq(b, Init(c)) {
      SubseqTrans(a, b, Init(c));
    } else if IsSubseq(a, Init(b)) {
      SubseqTrans(a, Init(b), Init(c));
    } else {
      SubseqTrans(Init(a), Init(b), Init(c));
    }
  }

  lemma {:induction false} SubseqLength<T>(a: seq<T>, b: seq<T>)
    requires IsSubseq(a, b)
    ensures |a| <= |b|
    ensures |a| == |b| ==> a == b
    decreases |b|
  {
    if a == [] {
    } else if IsSubseq(a, Init(b)) {
      SubseqLength(a, Init(b));
    } else {
      SubseqLength(Init(a), Init(b));
      if |a| == |b| { assert a == Init(a) + [Last(a)] && b == Init(b) + [Last(b)]; }
    }
  }

  /** Insertion after every element that is not greater: the step of a stable sort. */
  function Insert<T>(x: T, s: seq<T>, le: (T, T) -> bool): seq<T> {
    if s == [] then [x]
    else if le(Last(s), x) then s + [x]
    else Insert(x, Init(s), le) + [Last(s)]
  }

  /** Python's `sorted`/`list.sort`: a stable sort. */
  function StableSort<T>(s: seq<T>, le: (T, T) -> bool): seq<T> {
    if s == [] then [] else Insert(Last(s), StableSort(Init(s), le), le)
  }

  ghost predicate IsSorted<T>(s: seq<T>, le: (T, T) -> bool) {
    forall i, j :: 0 <= i < j < |s| ==> le(s[i], s[j])
  }

  ghost predicate TotalPreorder<T(!new)>(le: (T, T) -> bool) {
    && (forall x, y :: le(x, y) || le(y, x))
    && (forall x, y, z :: le(x, y) && le(y, z) ==> le(x, z))
  }

  lemma {:induction false} InsertPermutes<T>(x: T, s: seq<T>, le: (T, T) -> bool)
    ensures multiset(Insert(x, s, le)) == multiset(s) + multiset{x}
    ensures |Insert(x, s, le)| == |s| + 1
  {
    if s != [] && !le(Last(s), x) {
      InsertPermutes(x, Init(s), le);
      assert s == Init(s) + [Last(s)];
    }
  }

  lemma {:induction false} SortPermutes<T>(s: seq<T>, le: (T, T) -> bool)
    ensures multiset(StableSort(s, le)) == multiset(s)
    ensures |StableSort(s, le)| == |s|
  {
    if s != [] {
      var front, x := Init(s), Last(s);
      SortPermutes(front, le);
      var sorted := StableSort(front, le);
      InsertPermutes(x, sorted, le);
      assert s == front + [x];
      hide StableSort, Insert, Init, Last;
      assert multiset(s) == multiset(front) + multiset{x};
    }
  }

  lemma {:induction false} InsertSorted<T(!new)>(x: T, s: seq<T>, le: (T, T) -> bool)
    requires TotalPreorder(le) && IsSorted(s, le)
    ensures IsSorted(Insert(x, s, le), le)
  {
    if s != [] && !le(Last(s), x) {
      InsertSorted(x, Init(s), le);
      InsertPermutes(x, Init(s), le);
      var r := Insert(x, Init(s), le);
      forall i | 0 <= i < |r| ensures le(r[i], Last(s)) {
        assert r[i] in multiset(r);
        assert r[i] in multiset(Init(s)) || r[i] == x;
        if r[i] in Init(s) {
          var k :| 0 <= k < |s| - 1 && s[k] == r[i];
        }
      }
    }
  }

  lemma {:induction false} SortSorts<T(!new)>(s: seq<T>, le: (T, T) -> bool)
    requires TotalPreorder(le)
    ensures IsSorted(StableSort(s, le), le)
  {
    if s != [] {
      SortSorts(Init(s), le);
      InsertSorted(Last(s), StableSort(Init(s), le), le);
    }
  }

  /** Sorting neither invents nor loses members. */
  lemma SortMembers<T>(s: seq<T>, le: (T, T) -> bool)
    ensures forall x :: x in StableSort(s, le) <==> x in s
  {
    SortPermutes(s, le);
    forall x ensures x in StableSort(s, le) <==> x in s {
      assert x in StableSort(s, le) <==> x in multiset(StableSort(s, le));
      assert x in s <==> x in multiset(s);
    }
  }

  ghost predicate Distinct<T>(s: seq<T>) {
    forall i, j :: 0 <= i < j < |s| ==> s[i] != s[j]
  }

  lemma {:induction false} DistinctCounts<T>(s: seq<T>)
    ensures Distinct(s) <==> forall x :: multiset(s)[x] <= 1
  {
    if s != [] {
      DistinctCounts(Init(s));
      assert s == Init(s) + [Last(s)];
      assert multiset(s) == multiset(Init(s)) + multiset{Last(s)};
      if Last(s) in Init(s) {
        assert multiset(Init(s))[Last(s)] >= 1;
        var k :| 0 <= k < |s| - 1 && s[k] == Last(s);
        assert !Distinct(s);
        assert multiset(s)[Last(s)] >= 2;
      } else {
        assert multiset(Init(s))[Last(s)] == 0;
        if Distinct(s) {
          assert Distinct(Init(s));
        }
        if forall x :: multiset(s)[x] <= 1 {
          forall x ensures multiset(Init(s))[x] <= 1 { assert multiset(s)[x] <= 1; }
          assert Distinct(Init(s));
          forall i, j | 0 <= i < j < |s| ensures s[i] != s[j] {
            if j == |s| - 1 { assert Init(s)[i] in Init(s); }
            else { assert Init(s)[i] != Init(s)[j]; }
          }
        }
      }
    }
  }

  lemma PermutationDistinct<T>(a: seq<T>, b: seq<T>)
    requires multiset(a) == multiset(b) && Distinct(a)
    ensures Distinct(b)
  {
    DistinctCounts(a);
    DistinctCounts(b);
  }

  function Filter<T>(s: seq<T>, keep: T -> bool): seq<T> {
    if s == [] then [] else Filter(Init(s), keep) + if keep(Last(s)) then [Last(s)] else []
  }

  lemma {:induction false} FilterMembers<T>(s: seq<T>, keep: T -> bool)
    ensures forall x :: x in Filter(s, keep) <==> x in s && keep(x)
  {
    if s != [] {
      FilterMembers(Init(s), keep);
      assert s == Init(s) + [Last(s)];
    }
  }

  /** Python's `max`: the first element that no other exceeds. */
  function FirstMax<T>(s: seq<T>, less: (T, T) -> bool): T
    requires s != []
  {
    if |s| == 1 then s[0]
    else
      var best := FirstMax(Init(s), less);
      if less(best, Last(s)) then Last(s) else best
  }

  /** "Not less" is transitive, as for any comparison of keys. */
  ghost predicate ComparesKeys<T(!new)>(less: (T, T) -> bool) {
    && (forall x :: !less(x, x))
    && (forall x, y, z :: !less(x, y) && !less(y, z) ==> !less(x, z))
    && (forall x, y :: less(x, y) ==> !less(y, x))
  }

  lemma {:induction false} FirstMaxIsMax<T(!new)>(s: seq<T>, less: (T, T) -> bool)
    requires s != [] && ComparesKeys(less)
    ensures FirstMax(s, less) in s
    ensures forall x :: x in s ==> !less(FirstMax(s, less), x)
  {
    if |s| > 1 {
      FirstMaxIsMax(Init(s), less);
      assert s == Init(s) + [Last(s)];
    }
  }

  /** Of several largest elements that are kept, the first is taken. */
  lemma {:induction false} FirstMaxIsFirst<T(!new)>(s: seq<T>, keep: T -> bool, less: (T, T) -> bool) returns (i: nat)
    requires ComparesKeys(less) && Filter(s, keep) != []
    ensures i < |s| && keep(s[i]) && s[i] == FirstMax(Filter(s, keep), less)
    ensures forall j :: 0 <= j < i && keep(s[j]) ==> less(s[j], s[i])
  {
    var front, last := Init(s), Last(s);
    FilterMembers(front, keep);
    if Filter(front, keep) == [] {
      i := |s| - 1;
      forall j | 0 <= j < i ensures !keep(s[j]) { assert front[j] == s[j]; }
    } else {
      FirstMaxIsMax(Filter(front, keep), less);
      var k := FirstMaxIsFirst(front, keep, less);
      var best := front[k];
      forall j | 0 <= j < |front| && keep(s[j]) ensures !less(best, s[j]) { assert front[j] in front; }
      if keep(last) && less(best, last) {
        i := |s| - 1;
        assert Init(Filter(s, keep)) == Filter(front, keep);
      } else {
        i := k;
        assert keep(last) ==> Init(Filter(s, keep)) == Filter(front, keep);
        assert !keep(last) ==> Filter(s, keep) == Filter(front, keep);
      }
    }
  }

  // ---------------------------------------------------------------- the sort is stable

  function Alike<T>(x: T, le: (T, T) -> bool): T -> bool { y => le(x, y) && le(y, x) }

  lemma FilterSnoc<T>(s: seq<T>, x: T, keep: T -> bool)
    ensures Filter(s + [x], keep) == if keep(x) then Filter(s, keep) + [x] else Filter(s, keep)
  {
    assert Init(s + [x]) == s && Last(s + [x]) == x;
  }

  lemma {:induction false} InsertKeepsOrder<T(!new)>(x: T, s: seq<T>, le: (T, T) -> bool, y: T)
    requires TotalPreorder(le)
    ensures Filter(Insert(x, s, le), Alike(y, le)) == Filter(s + [x], Alike(y, le))
  {
    var keep := Alike(y, le);
    FilterSnoc(s, x, keep);
    if s != [] && !le(Last(s), x) {
      var front, last := Init(s), Last(s);
      assert s == front + [last];
      InsertKeepsOrder(x, front, le, y);
      FilterSnoc(front, x, keep);
      FilterSnoc(front, last, keep);
      FilterSnoc(Insert(x, front, le), last, keep);
      assert !(le(last, y) && le(y, x));
    }
  }

  /** Elements that compare equal keep their order. */
  lemma {:induction false} SortIsStable<T(!new)>(s: seq<T>, le: (T, T) -> bool, y: T)
    requires TotalPreorder(le)
    ensures Filter(StableSort(s, le), Alike(y, le)) == Filter(s, Alike(y, le))
  {
    hide Filter, Insert, Alike;
    if s != [] {
      var front, last, keep := Init(s), Last(s), Alike(y, le);
      SortIsStable(front, le, y);
      InsertKeepsOrder(last, StableSort(front, le), le, y);
      FilterSnoc(StableSort(front, le), last, keep);
      FilterSnoc(front, last, keep);
      assert s == front + [last];
    }
  }
}
