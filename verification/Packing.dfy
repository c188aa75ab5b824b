/** Packing breath groups into parts: minimum size, part count, forced boundaries. */
module Packing {
  import opened Numbers
  import opened Sequences
  import opened Text
  import opened LongRun

  /** The planner's settings. A force-break pattern is a predicate: does it match a group? */
  datatype PlanArgs = PlanArgs(
    maxPartSec: real,
    maxPartChars: int,
    minPartChars: int,
    maxParts: int,
    pauseSec: real,
    forceBreaks: seq<string -> bool>,
    isAlnum: char -> bool,
    tables: Tables)

  /** Loop state of a packer: closed parts and the groups collected since. */
  datatype Packed = Packed(done: seq<string>, current: seq<string>)

  /** `"".join(current).strip()`. */
  function Glue(groups: seq<string>): string { Strip(Join(groups)) }

  lemma GlueFacts(groups: seq<string>)
    ensures Squeeze(Glue(groups)) == Squeeze(Join(groups))
    ensures CountChars(Glue(groups)) == TotalChars(groups)
    ensures TotalChars(groups) >= 1 ==> Glue(groups) != ""
    ensures Trimmed(Glue(groups))
  {
    StripFacts(Join(groups));
    StripEmpty(Join(groups));
    TotalCharsJoin(groups);
  }

  /** Closing the collected groups as one more part. */
  lemma CloseConserves(done: seq<string>, current: seq<string>)
    ensures Squeeze(Join(done + [Glue(current)])) == Squeeze(Join(done)) + Squeeze(Join(current))
  {
    GlueFacts(current);
    SqueezeJoinSnoc(done, Glue(current));
  }

  /** The visible text held by a packer state. */
  ghost function Held(p: Packed): string { Squeeze(Join(p.done)) + Squeeze(Join(p.current)) }

  // ---------------------------------------------------------------- pack_short_groups

  /** After reading `groups`: a part is closed as soon as it has `min` characters. */
  function PackShortState(groups: seq<string>, min: int): Packed {
    if groups == [] then Packed([], [])
    else PackShortStep(PackShortState(Init(groups), min), Last(groups), min)
  }

  function PackShortStep(p: Packed, group: string, min: int): Packed {
    var current := p.current + [group];
    if TotalChars(current) >= min then Packed(p.done + [Glue(current)], [])
    else Packed(p.done, current)
  }

  lemma PackShortStateNext(groups: seq<string>, k: nat, min: int)
    requires k < |groups|
    ensures PackShortState(groups[..k + 1], min) == PackShortStep(PackShortState(groups[..k], min), groups[k], min)
  {
    assert Init(groups[..k + 1]) == groups[..k];
  }

  /** What is left over joins the last part, or is the only part. */
  function PackShort(groups: seq<string>, min: int): seq<string> {
    if |groups| <= 1 || min <= 0 then groups
    else
      var p := PackShortState(groups, min);
      if p.current == [] then p.done
      else if p.done != [] then Init(p.done) + [Strip(Last(p.done) + Join(p.current))]
      else [Glue(p.current)]
  }

  method PackShortGroups(groups: seq<string>, min: int) returns (packed: seq<string>)
    ensures packed == PackShort(groups, min)
  {
    hide Strip, Glue, CountChars, PackShortState;
    if |groups| <= 1 || min <= 0 { return groups; }
    packed := [];
    var current: seq<string> := [];
    NothingPacked(groups[..0], min);
    var currentChars := 0;
    for k := 0 to |groups|
      invariant PackShortState(groups[..k], min) == Packed(packed, current)
      invariant currentChars == TotalChars(current)
      invariant current != [] ==> currentChars < min
    {
      PackShortStateNext(groups, k, min);
      TotalCharsSnoc(current, groups[k]);
      current := current + [groups[k]];
      currentChars := currentChars + CountChars(groups[k]);
      if currentChars >= min {
        packed := packed + [Glue(current)];
        current, currentChars := [], 0;
      }
    }
    assert groups[..|groups|] == groups;
    if current != [] {
      if packed != [] && currentChars < min {
        packed := packed[|packed| - 1 := Strip(Last(packed) + Join(current))];
      } else {
        packed := packed + [Glue(current)];
      }
    }
  }

  lemma NothingPacked(groups: seq<string>, min: int)
    requires groups == []
    ensures PackShortState(groups, min) == Packed([], [])
  {
  }

  lemma {:induction false} PackShortStateFacts(groups: seq<string>, min: int)
    requires min > 0
    ensures var p := PackShortState(groups, min);
            && Held(p) == Squeeze(Join(groups))
            && (forall i :: 0 <= i < |p.done| ==> CountChars(p.done[i]) >= min)
            && Clean(p.done)
            && |p.done| + |p.current| <= |groups|
            && (groups != [] ==> p.done != [] || p.current != [])
  {
    hide Strip, Squeeze, Join, CountChars, IsSpace, Trimmed, Glue, TotalChars;
    if groups != [] {
      var front, last := Init(groups), Last(groups);
      assert groups == front + [last];
      PackShortStateFacts(front, min);
      var p := PackShortState(front, min);
      SqueezeJoinSnoc(front, last);
      SqueezeJoinSnoc(p.current, last);
      assert Held(p) + Squeeze(last) == Squeeze(Join(p.done)) + (Squeeze(Join(p.current)) + Squeeze(last));
      if TotalChars(p.current + [last]) >= min {
        var part := Glue(p.current + [last]);
        GlueFacts(p.current + [last]);
        CloseConserves(p.done, p.current + [last]);
        NothingHeld(p.done + [part]);
        CleanOne(part);
        CleanConcat(p.done, [part]);
      }
    } else {
      NothingHeld([]);
    }
  }

  lemma NothingHeld(done: seq<string>)
    ensures Held(Packed(done, [])) == Squeeze(Join(done))
  {
    assert Squeeze(Join(done)) + "" == Squeeze(Join(done));
  }

  /** Folding the leftover into the last part. */
  lemma AbsorbLeftover(done: seq<string>, current: seq<string>)
    requires done != [] && Clean(done)
    ensures var part := Strip(Last(done) + Join(current));
            && Squeeze(Join(Init(done) + [part])) == Squeeze(Join(done)) + Squeeze(Join(current))
            && CountChars(part) >= CountChars(Last(done))
            && Clean(Init(done) + [part])
  {
    hide Join, IsSpace;
    var last := Last(done);
    var part := Strip(last + Join(current));
    StripFacts(last + Join(current));
    SqueezeConcat(last, Join(current));
    assert done == Init(done) + [last];
    SqueezeJoinSnoc(Init(done), last);
    SqueezeJoinSnoc(Init(done), part);
    CleanHasChars(last);
    StripEmpty(last + Join(current));
    CleanOne(part);
    CleanConcat(Init(done), [last]);
    CleanConcat(Init(done), [part]);
  }

  /** Packing short groups loses nothing and keeps parts clean. With a positive minimum
      and several groups the result is one part, or every part has the minimum size. */
  lemma PackShortFacts(groups: seq<string>, min: int)
    requires Clean(groups)
    ensures var r := PackShort(groups, min);
            && Conserves(r, Join(groups))
            && Clean(r)
            && |r| <= |groups| && (groups != [] ==> r != [])
            && (min > 0 && |groups| > 1 ==>
                  |r| == 1 || forall i :: 0 <= i < |r| ==> CountChars(r[i]) >= min)
  {
    hide Strip, Squeeze, Join, CountChars, IsSpace, Trimmed, Glue, PackShortState;
    if |groups| > 1 && min > 0 {
      var p := PackShortState(groups, min);
      PackShortStateFacts(groups, min);
      if p.current == [] {
        NothingHeld(p.done);
      } else if p.done != [] {
        AbsorbLeftover(p.done, p.current);
      } else {
        LoneLeftover(groups, p.current);
      }
    }
  }

  lemma {:induction false} PackShortStateTight(groups: seq<string>, min: nat, g: nat)
    requires min > 0 && AllAtMost(groups, g)
    ensures var p := PackShortState(groups, min);
            AllAtMost(p.done, min - 1 + g) && TotalChars(p.current) < min
  {
    hide CountChars, Glue;
    if groups != [] {
      var front, last := Init(groups), Last(groups);
      PackShortStateTight(front, min, g);
      var p := PackShortState(front, min);
      assert CountChars(groups[|groups| - 1]) <= g;
      TotalCharsSnoc(p.current, last);
      GlueFacts(p.current + [last]);
    }
  }

  /** Parts are closed as early as possible: every part but the last has less than the
      minimum plus the longest group, and the last one less than the minimum more. */
  lemma PackShortTight(groups: seq<string>, min: nat, g: nat)
    requires min > 0 && |groups| > 1 && Clean(groups) && AllAtMost(groups, g)
    ensures var r := PackShort(groups, min);
            && r != []
            && AllAtMost(Init(r), min - 1 + g)
            && CountChars(Last(r)) <= 2 * (min - 1) + g
  {
    hide Squeeze, CountChars, Glue, Join, PackShortState, Clean;
    PackShortFacts(groups, min);
    PackShortStateTight(groups, min, g);
    var p := PackShortState(groups, min);
    GlueFacts(p.current);
    if p.done != [] {
      LeftoverCount(Last(p.done), p.current);
      assert Init(Init(p.done) + [Strip(Last(p.done) + Join(p.current))]) == Init(p.done);
    }
  }

  lemma LeftoverCount(last: string, current: seq<string>)
    ensures CountChars(Strip(last + Join(current))) == CountChars(last) + TotalChars(current)
  {
    StripFacts(last + Join(current));
    SqueezeConcat(last, Join(current));
    TotalCharsJoin(current);
  }

  lemma LoneLeftover(groups: seq<string>, current: seq<string>)
    requires Clean(groups) && groups != []
    requires Held(Packed([], current)) == Squeeze(Join(groups))
    ensures Conserves([Glue(current)], Join(groups)) && Clean([Glue(current)])
  {
    GlueFacts(current);
    JoinOne(Glue(current));
    CleanTotal(groups);
    TotalCharsJoin(groups);
    assert Squeeze(Join(current)) == Squeeze(Join(groups));
    TotalCharsJoin(current);
    CleanOne(Glue(current));
  }

  // ---------------------------------------------------------------- pack_to_part_count

  function PartTarget(groups: seq<string>, k: nat): nat
    requires k >= 1
  {
    Max(1, CeilDiv(TotalChars(groups), k))
  }

  /** After reading `groups`: a part is closed before the next group once it has
      `target` characters, as long as it is not the last of the k parts. */
  function PackCountState(groups: seq<string>, k: nat, target: nat): Packed {
    if groups == [] then Packed([], [])
    else PackCountStep(PackCountState(Init(groups), k, target), Last(groups), k, target)
  }

  function PackCountStep(p: Packed, group: string, k: nat, target: nat): Packed {
    if p.current != [] && TotalChars(p.current) >= target && |p.done| < k - 1
    then Packed(p.done + [Glue(p.current)], [group])
    else Packed(p.done, p.current + [group])
  }

  lemma PackCountStateNext(groups: seq<string>, n: nat, k: nat, target: nat)
    requires n < |groups|
    ensures PackCountState([], k, target) == Packed([], [])
    ensures PackCountState(groups[..n + 1], k, target)
            == PackCountStep(PackCountState(groups[..n], k, target), groups[n], k, target)
  {
    assert Init(groups[..n + 1]) == groups[..n];
  }

  function PackCount(groups: seq<string>, k: nat): seq<string>
    requires k >= 1
  {
    if |groups| <= k then groups
    else
      var p := PackCountState(groups, k, PartTarget(groups, k));
      if p.current != [] then p.done + [Glue(p.current)] else p.done
  }

  method SumChars(parts: seq<string>) returns (total: nat)
    ensures total == TotalChars(parts)
  {
    hide CountChars;
    total := 0;
    for n := 0 to |parts|
      invariant total == TotalChars(parts[..n])
    {
      assert Init(parts[..n + 1]) == parts[..n];
      total := total + CountChars(parts[n]);
    }
    assert parts[..|parts|] == parts;
  }

  method PackToPartCount(groups: seq<string>, k: nat) returns (packed: seq<string>)
    requires k >= 1
    ensures packed == PackCount(groups, k)
  {
    hide Glue, CountChars, PackCountState, CeilDiv;
    if |groups| <= k { return groups; }
    var total := SumChars(groups);
    var target := Max(1, CeilDiv(total, k));
    packed := [];
    var current: seq<string> := [];
    PackCountStateNext(groups, 0, k, target);
    assert groups[..0] == [];
    var currentChars := 0;
    for n := 0 to |groups|
      invariant PackCountState(groups[..n], k, target) == Packed(packed, current)
      invariant currentChars == TotalChars(current)
    {
      PackCountStateNext(groups, n, k, target);
      if current != [] && currentChars >= target && |packed| < k - 1 {
        packed := packed + [Glue(current)];
        current, currentChars := [], 0;
      }
      TotalCharsSnoc(current, groups[n]);
      assert [] + [groups[n]] == [groups[n]];
      current := current + [groups[n]];
      currentChars := currentChars + CountChars(groups[n]);
    }
    assert groups[..|groups|] == groups;
    if current != [] { packed := packed + [Glue(current)]; }
  }

  ghost predicate AllAtLeast(parts: seq<string>, n: int) {
    forall i :: 0 <= i < |parts| ==> CountChars(parts[i]) >= n
  }

  ghost predicate AllAtMost(parts: seq<string>, n: int) {
    forall i :: 0 <= i < |parts| ==> CountChars(parts[i]) <= n
  }

  lemma {:induction false} PackCountStateConserves(groups: seq<string>, k: nat, target: nat)
    requires Clean(groups)
    ensures var p := PackCountState(groups, k, target);
            && Held(p) == Squeeze(Join(groups))
            && Clean(p.done) && Clean(p.current)
            && (groups != [] ==> p.current != [])
  {
    hide Strip, Squeeze, Join, CountChars, IsSpace, Trimmed, Glue, TotalChars;
    if groups != [] {
      var front, last := Init(groups), Last(groups);
      assert groups == front + [last];
      CleanConcat(front, [last]);
      PackCountStateConserves(front, k, target);
      var p := PackCountState(front, k, target);
      SqueezeJoinSnoc(front, last);
      SqueezeJoinSnoc(p.current, last);
      CleanConcat(p.current, [last]);
      assert Held(p) + Squeeze(last) == Squeeze(Join(p.done)) + (Squeeze(Join(p.current)) + Squeeze(last));
      if p.current != [] && TotalChars(p.current) >= target && |p.done| < k - 1 {
        var part := Glue(p.current);
        GlueFacts(p.current);
        CleanTotal(p.current);
        CloseConserves(p.done, p.current);
        CleanOne(part);
        CleanConcat(p.done, [part]);
        JoinOne(last);
      }
    } else {
      NothingHeld([]);
    }
  }

  /** While packing: closed parts have at least the target and at most target - 1 + g
      characters, and so does the open part unless it is the last one allowed. */
  lemma {:induction false} PackCountStateBounds(groups: seq<string>, k: nat, target: nat, g: nat)
    requires AllAtMost(groups, g) && target >= 1 && k >= 1
    ensures var p := PackCountState(groups, k, target);
            && |p.done| <= k - 1
            && AllAtLeast(p.done, target) && AllAtMost(p.done, target - 1 + g)
            && (|p.done| < k - 1 ==> TotalChars(p.current) <= target - 1 + g)
            && TotalChars(p.done) + TotalChars(p.current) == TotalChars(groups)
  {
    hide Strip, Squeeze, Join, CountChars, IsSpace, Glue;
    if groups != [] {
      var front, last := Init(groups), Last(groups);
      PackCountStateBounds(front, k, target, g);
      var p := PackCountState(front, k, target);
      assert CountChars(groups[|groups| - 1]) <= g;
      TotalCharsSnoc(p.current, last);
      TotalCharsSnoc([], last);
      assert [] + [last] == [last];
      GlueFacts(p.current);
      TotalCharsSnoc(p.done, Glue(p.current));
    }
  }

  lemma {:induction false} TotalAtLeast(parts: seq<string>, n: nat)
    requires AllAtLeast(parts, n)
    ensures TotalChars(parts) >= |parts| * n
  {
    hide CountChars;
    if parts != [] {
      assert CountChars(parts[|parts| - 1]) >= n;
      TotalAtLeast(Init(parts), n);
      assert |parts| * n == |Init(parts)| * n + n;
    }
  }

  lemma TargetCovers(total: nat, k: nat)
    requires k >= 1
    ensures k * Max(1, CeilDiv(total, k)) >= total
  {
    var q := CeilDiv(total, k);
    assert (total + k - 1) / k * k + (total + k - 1) % k == total + k - 1;
    assert q * k >= total;
  }

  /** The balance bound of the greedy packer: between 1 and k parts, in order and
      complete; every part but the last reaches ceil(total/k) characters, and no part
      exceeds that by more than the longest group less one character. */
  lemma PackCountBalanced(groups: seq<string>, k: nat, g: nat)
    requires k >= 1 && |groups| > k && Clean(groups) && AllAtMost(groups, g)
    ensures var r := PackCount(groups, k); var c := (TotalChars(groups) + k - 1) / k;
            && 1 <= |r| <= k
            && Conserves(r, Join(groups)) && Clean(r)
            && (forall i :: 0 <= i < |r| - 1 ==> CountChars(r[i]) >= c)
            && (forall i :: 0 <= i < |r| ==> CountChars(r[i]) <= c - 1 + g)
  {
    hide Strip, Squeeze, Join, CountChars, IsSpace, Trimmed, Glue, PackCountState, TotalChars;
    var target := PartTarget(groups, k);
    var p := PackCountState(groups, k, target);
    CleanTotal(groups);
    TargetIsShare(TotalChars(groups), k);
    PackCountStateConserves(groups, k, target);
    PackCountStateBounds(groups, k, target, g);
    GlueFacts(p.current);
    CloseConserves(p.done, p.current);
    CleanTotal(p.current);
    CleanOne(Glue(p.current));
    CleanConcat(p.done, [Glue(p.current)]);
    assert Init(p.done + [Glue(p.current)]) == p.done;
    if |p.done| == k - 1 {
      TotalAtLeast(p.done, target);
      TargetCovers(TotalChars(groups), k);
      assert (k - 1) * target + target == k * target;
      assert TotalChars(p.current) <= target;
      SomeGroupHasChars(groups, g);
    }
  }

  lemma TargetIsShare(total: nat, k: nat)
    requires k >= 1 && total >= 1
    ensures Max(1, CeilDiv(total, k)) == (total + k - 1) / k
  {
    assert (total + k - 1) / k >= 1 by { DivisionBounds(total + k - 1, k); }
  }

  /** One block of groups for every part. A block is closed as soon as it has c characters:
      it has them, and without its last group it would not. Only when k - 1 parts are closed
      does the last block take all the rest. */
  ghost predicate GreedyBlocks(blocks: seq<seq<string>>, parts: seq<string>, groups: seq<string>, k: nat, c: int) {
    && |blocks| == |parts| && Flatten(blocks) == groups
    && (forall i :: 0 <= i < |blocks| ==> blocks[i] != [] && parts[i] == Glue(blocks[i]))
    && (forall i :: 0 <= i < |blocks| - 1 ==> TotalChars(blocks[i]) >= c)
    && (forall i :: 0 <= i < |blocks| && i < k - 1 ==> TotalChars(Init(blocks[i])) < c)
  }

  /** The same of a packer state: its closed parts, and the groups collected since. */
  ghost predicate GreedyState(blocks: seq<seq<string>>, p: Packed, groups: seq<string>, k: nat, c: int) {
    && |blocks| == |p.done| <= k - 1 && Flatten(blocks) + p.current == groups
    && (groups != [] ==> p.current != [])
    && (forall i :: 0 <= i < |blocks| ==>
          && blocks[i] != [] && p.done[i] == Glue(blocks[i])
          && TotalChars(blocks[i]) >= c && TotalChars(Init(blocks[i])) < c)
    && (p.current != [] && |p.done| < k - 1 ==> TotalChars(Init(p.current)) < c)
  }

  lemma GreedyStep(blocks: seq<seq<string>>, p: Packed, groups: seq<string>, group: string, k: nat, c: nat)
    returns (next: seq<seq<string>>)
    requires k >= 1 && c >= 1 && GreedyState(blocks, p, groups, k, c)
    ensures GreedyState(next, PackCountStep(p, group, k, c), groups + [group], k, c)
  {
    hide CountChars, Glue, TotalChars, Flatten;
    NothingTotal();
    Regroup(Flatten(blocks), p.current, [group]);
    assert Init(p.current + [group]) == p.current && Init([group]) == [];
    if p.current != [] && TotalChars(p.current) >= c && |p.done| < k - 1 {
      next := blocks + [p.current];
      FlattenSnoc(blocks, p.current);
    } else {
      next := blocks;
    }
  }

  lemma {:induction false} StateIsGreedy(groups: seq<string>, k: nat, c: nat) returns (blocks: seq<seq<string>>)
    requires k >= 1 && c >= 1
    ensures GreedyState(blocks, PackCountState(groups, k, c), groups, k, c)
  {
    hide CountChars, Glue, TotalChars, Flatten, GreedyState, PackCountStep;
    if groups == [] {
      blocks := [];
      EmptyIsGreedy(k, c);
    } else {
      var before := StateIsGreedy(Init(groups), k, c);
      assert groups == Init(groups) + [Last(groups)];
      blocks := GreedyStep(before, PackCountState(Init(groups), k, c), Init(groups), Last(groups), k, c);
    }
  }

  lemma EmptyIsGreedy(k: nat, c: nat)
    requires k >= 1
    ensures GreedyState([], Packed([], []), [], k, c)
  {
    NothingFlat();
  }

  lemma NothingTotal()
    ensures TotalChars([]) == 0
  {
  }

  /** The greedy packer, told without its loop: which groups make up each part. */
  lemma PackCountIsGreedy(groups: seq<string>, k: nat) returns (blocks: seq<seq<string>>)
    requires k >= 1 && |groups| > k && Clean(groups)
    ensures GreedyBlocks(blocks, PackCount(groups, k), groups, k, (TotalChars(groups) + k - 1) / k)
  {
    hide CountChars, Glue, TotalChars, Flatten, PackCountState, PackCountStep;
    var target := PartTarget(groups, k);
    CleanTotal(groups);
    TargetIsShare(TotalChars(groups), k);
    var closed := StateIsGreedy(groups, k, target);
    var p := PackCountState(groups, k, target);
    blocks := closed + [p.current];
    FlattenSnoc(closed, p.current);
  }

  lemma SomeGroupHasChars(groups: seq<string>, g: nat)
    requires Clean(groups) && groups != [] && AllAtMost(groups, g)
    ensures g >= 1
  {
    CleanHasChars(groups[0]);
  }

  lemma PackCountFacts(groups: seq<string>, k: nat)
    requires k >= 1 && Clean(groups)
    ensures var r := PackCount(groups, k);
            && Conserves(r, Join(groups)) && Clean(r)
            && |r| <= k && |r| <= |groups| && (groups != [] ==> r != [])
  {
    hide Squeeze, Join;
    if |groups| > k {
      CharsBound(groups);
      PackCountBalanced(groups, k, TotalChars(groups));
    }
  }

  /** No group is longer than all groups together. */
  lemma {:induction false} CharsBound(groups: seq<string>)
    ensures AllAtMost(groups, TotalChars(groups))
  {
    hide CountChars;
    if groups != [] {
      CharsBound(Init(groups));
      forall i | 0 <= i < |groups| ensures CountChars(groups[i]) <= TotalChars(groups) {
        if i < |groups| - 1 { assert groups[i] == Init(groups)[i]; }
      }
    }
  }

  // ---------------------------------------------------------------- part count, forced boundaries

  function PartCountFor(chars: nat, sec: real, args: PlanArgs): nat {
    var byDuration := CeilReal(sec / MaxReal(args.maxPartSec, 0.1));
    var byChars := CeilDiv(chars, Max(args.maxPartChars, 1));
    Max(2, Min(Max(args.maxParts, 1), Max(byDuration, byChars)))
  }

  lemma CeilRealCovers(x: real, n: int)
    requires CeilReal(x) <= n
    ensures x <= n as real
  {
  }

  lemma CeilDivCovers(a: nat, b: nat, n: nat)
    requires b > 0 && CeilDiv(a, b) <= n
    ensures a <= n * b
  {
    var q := (a + b - 1) / b;
    assert q * b + (a + b - 1) % b == a + b - 1;
    assert (n - q) * b >= 0;
  }

  lemma CeilRealNeeded(x: real, n: int)
    ensures CeilReal(x) >= n ==> x > (n - 1) as real
  {
  }

  lemma CeilDivNeeded(a: nat, b: nat, n: nat)
    requires b > 0 && n >= 1
    ensures CeilDiv(a, b) >= n ==> a > (n - 1) * b
  {
    var c := CeilDiv(a, b);
    DivisionBounds(a + b - 1, b);
    assert (n - 1) * b + b == n * b;
    if c > n { MoreMultiples(c, n, b); }
  }

  lemma QuotientAgainst(x: real, d: real, n: real)
    requires d > 0.0
    ensures x / d <= n ==> x <= n * d
    ensures x / d > n ==> x > n * d
  {
    var q := x / d;
    assert q * d == x;
    assert q <= n ==> (n - q) * d >= 0.0;
    assert q > n ==> (q - n) * d > 0.0;
  }

  /** The part count is at least two and at most the limit; below the limit that many
      parts of full length hold all characters and all seconds; and beyond two it is the
      least that does: one part fewer would not hold them. */
  lemma PartCountSuffices(chars: nat, sec: real, args: PlanArgs)
    ensures var k := PartCountFor(chars, sec, args);
            && 2 <= k <= Max(2, args.maxParts)
            && (k < args.maxParts ==>
                  && chars <= k * Max(args.maxPartChars, 1)
                  && sec <= k as real * MaxReal(args.maxPartSec, 0.1))
            && (k > 2 ==>
                  || chars > (k - 1) * Max(args.maxPartChars, 1)
                  || sec > (k - 1) as real * MaxReal(args.maxPartSec, 0.1))
  {
    hide CeilReal, CeilDiv;
    var k, longest, most := PartCountFor(chars, sec, args), MaxReal(args.maxPartSec, 0.1), Max(args.maxPartChars, 1);
    var bySec, byChars := CeilReal(sec / longest), CeilDiv(chars, most);
    if k < args.maxParts {
      CeilRealCovers(sec / longest, k);
      QuotientAgainst(sec, longest, k as real);
      CeilDivCovers(chars, most, k);
    }
    if k > 2 {
      assert bySec >= k || byChars >= k;
      CeilRealNeeded(sec / longest, k);
      QuotientAgainst(sec, longest, (k - 1) as real);
      CeilDivNeeded(chars, most, k);
    }
  }

  predicate EndsForcedBlock(group: string, patterns: seq<string -> bool>) {
    exists k :: 0 <= k < |patterns| && patterns[k](group)
  }

  /** Loop state of `force_break_blocks`. */
  datatype BlockState = BlockState(blocks: seq<seq<string>>, current: seq<string>)

  function BlocksState(groups: seq<string>, patterns: seq<string -> bool>): BlockState {
    if groups == [] then BlockState([], [])
    else
      var b := BlocksState(Init(groups), patterns);
      var current := b.current + [Last(groups)];
      if EndsForcedBlock(Last(groups), patterns) then BlockState(b.blocks + [current], [])
      else BlockState(b.blocks, current)
  }

  function Blocks(groups: seq<string>, patterns: seq<string -> bool>): seq<seq<string>> {
    var b := BlocksState(groups, patterns);
    if b.current != [] then b.blocks + [b.current] else b.blocks
  }

  function PackBlock(block: seq<string>, args: PlanArgs): seq<string> {
    var packed := PackShort(block, args.minPartChars);
    PackCount(packed, Max(1, CeilDiv(TotalChars(packed), Max(args.maxPartChars, 1))))
  }

  function PackBlocks(blocks: seq<seq<string>>, args: PlanArgs): seq<string> {
    if blocks == [] then [] else PackBlocks(Init(blocks), args) + PackBlock(Last(blocks), args)
  }

  function PackForced(groups: seq<string>, args: PlanArgs): seq<string> {
    if args.forceBreaks == [] then
      var packed := PackShort(groups, args.minPartChars);
      PackCount(packed, PartCountFor(TotalChars(packed), 0.0, args))
    else PackBlocks(Blocks(groups, args.forceBreaks), args)
  }

  method ForceBreakBlocks(groups: seq<string>, patterns: seq<string -> bool>) returns (blocks: seq<seq<string>>)
    ensures blocks == Blocks(groups, patterns)
  {
    blocks := [];
    var current: seq<string> := [];
    for k := 0 to |groups|
      invariant BlocksState(groups[..k], patterns) == BlockState(blocks, current)
    {
      assert Init(groups[..k + 1]) == groups[..k];
      current := current + [groups[k]];
      if EndsForcedBlock(groups[k], patterns) {
        blocks := blocks + [current];
        current := [];
      }
    }
    assert groups[..|groups|] == groups;
    if current != [] { blocks := blocks + [current]; }
  }

  method PackWithForcedBoundaries(groups: seq<string>, args: PlanArgs) returns (parts: seq<string>)
    ensures parts == PackForced(groups, args)
  {
    hide TotalChars, CountChars, PackShort, PackCount;
    if args.forceBreaks == [] {
      var short := PackShortGroups(groups, args.minPartChars);
      parts := PackToPartCount(short, PartCountFor(TotalChars(short), 0.0, args));
      return;
    }
    parts := [];
    var blocks := ForceBreakBlocks(groups, args.forceBreaks);
    for k := 0 to |blocks|
      invariant parts == PackBlocks(blocks[..k], args)
    {
      assert Init(blocks[..k + 1]) == blocks[..k];
      var packed := PackShortGroups(blocks[k], args.minPartChars);
      var blockParts := Max(1, CeilDiv(TotalChars(packed), Max(args.maxPartChars, 1)));
      var more := PackToPartCount(packed, blockParts);
      parts := parts + more;
    }
    assert blocks[..|blocks|] == blocks;
  }

  lemma PackBlockFacts(block: seq<string>, args: PlanArgs)
    requires Clean(block)
    ensures Clean(PackBlock(block, args)) && Conserves(PackBlock(block, args), Join(block))
    ensures block != [] ==> PackBlock(block, args) != []
  {
    hide Squeeze, Join, PackShort, PackCount;
    PackShortFacts(block, args.minPartChars);
    var packed := PackShort(block, args.minPartChars);
    PackCountFacts(packed, Max(1, CeilDiv(TotalChars(packed), Max(args.maxPartChars, 1))));
  }

  /** No part of a block is longer than the part limit by a whole longest group. */
  lemma BlockPartsBounded(block: seq<string>, args: PlanArgs, g: nat)
    requires Clean(block) && AllAtMost(PackShort(block, args.minPartChars), g)
    ensures forall i :: 0 <= i < |PackBlock(block, args)| ==>
              CountChars(PackBlock(block, args)[i]) <= Max(args.maxPartChars, 1) - 1 + g
  {
    hide CountChars, PackShort, PackCount, TotalChars, CeilDiv;
    var packed := PackShort(block, args.minPartChars);
    var m := Max(args.maxPartChars, 1);
    var k := Max(1, CeilDiv(TotalChars(packed), m));
    PackShortFacts(block, args.minPartChars);
    if |packed| > k {
      PackCountBalanced(packed, k, g);
      CeilDivCovers(TotalChars(packed), m, k);
      ShareWithin(TotalChars(packed), k, m);
    } else {
      FewStay(packed, k);
    }
  }

  lemma FewStay(groups: seq<string>, k: nat)
    requires k >= 1 && |groups| <= k
    ensures PackCount(groups, k) == groups
  {
  }

  lemma ShareWithin(total: nat, k: nat, m: nat)
    requires k >= 1 && total <= k * m
    ensures (total + k - 1) / k <= m
  {
    DivisionBounds(total + k - 1, k);
    var c := (total + k - 1) / k;
    assert c * k <= k * m + k - 1;
    FewerMultiples(c, m, k);
  }

  /** All groups of a list of blocks, in order. */
  ghost function Flatten(blocks: seq<seq<string>>): seq<string> {
    if blocks == [] then [] else Flatten(Init(blocks)) + Last(blocks)
  }

  lemma FlattenSnoc(blocks: seq<seq<string>>, block: seq<string>)
    ensures Flatten(blocks + [block]) == Flatten(blocks) + block
  {
    assert Init(blocks + [block]) == blocks;
  }

  lemma {:induction false} BlocksStateFlatten(groups: seq<string>, patterns: seq<string -> bool>)
    ensures var b := BlocksState(groups, patterns); Flatten(b.blocks) + b.current == groups
  {
    hide EndsForcedBlock, Flatten;
    if groups == [] {
      NothingFlat();
    } else {
      var front, last := Init(groups), Last(groups);
      BlocksStateFlatten(front, patterns);
      assert groups == front + [last];
      var b := BlocksState(front, patterns);
      FlattenSnoc(b.blocks, b.current + [last]);
      Regroup(Flatten(b.blocks), b.current, [last]);
      assert Flatten(b.blocks + [b.current + [last]]) + [] == Flatten(b.blocks + [b.current + [last]]);
    }
  }

  lemma NothingFlat()
    ensures Flatten([]) == []
  {
  }

  /** The blocks partition the groups in order. */
  lemma BlocksFlatten(groups: seq<string>, patterns: seq<string -> bool>)
    ensures Flatten(Blocks(groups, patterns)) == groups
  {
    BlocksStateFlatten(groups, patterns);
    var b := BlocksState(groups, patterns);
    assert Init(b.blocks + [b.current]) == b.blocks;
  }

  lemma {:induction false} PackBlocksFacts(blocks: seq<seq<string>>, args: PlanArgs)
    requires Clean(Flatten(blocks))
    ensures Clean(PackBlocks(blocks, args)) && Conserves(PackBlocks(blocks, args), Join(Flatten(blocks)))
  {
    hide Squeeze, Join, PackBlock, Trimmed, IsSpace;
    if blocks != [] {
      var front, last := Init(blocks), Last(blocks);
      CleanConcat(Flatten(front), last);
      PackBlocksFacts(front, args);
      PackBlockFacts(last, args);
      CleanConcat(PackBlocks(front, args), PackBlock(last, args));
      SqueezeJoinConcat(PackBlocks(front, args), PackBlock(last, args));
      SqueezeJoinConcat(Flatten(front), last);
    }
  }

  lemma PackForcedFacts(groups: seq<string>, args: PlanArgs)
    requires Clean(groups)
    ensures Clean(PackForced(groups, args)) && Conserves(PackForced(groups, args), Join(groups))
  {
    hide Squeeze, Join, PackShort, PackCount;
    if args.forceBreaks == [] {
      PackShortFacts(groups, args.minPartChars);
      var packed := PackShort(groups, args.minPartChars);
      PackCountFacts(packed, PartCountFor(TotalChars(packed), 0.0, args));
    } else {
      BlocksFlatten(groups, args.forceBreaks);
      PackBlocksFacts(Blocks(groups, args.forceBreaks), args);
    }
  }

  lemma {:induction false} TotalCharsConcat(a: seq<string>, b: seq<string>)
    ensures TotalChars(a + b) == TotalChars(a) + TotalChars(b)
  {
    hide CountChars;
    if b == [] {
      assert a + b == a;
    } else {
      assert Init(a + b) == a + Init(b) && Last(a + b) == Last(b);
      TotalCharsConcat(a, Init(b));
    }
  }

  lemma DivisionBounds(a: nat, d: nat)
    requires d > 0
    ensures a / d * d <= a < a / d * d + d
  {
    assert a == a / d * d + a % d;
  }

  lemma MoreMultiples(p: int, r: int, d: nat)
    requires p > r
    ensures p * d >= r * d + d
  {
    assert p * d == r * d + d + (p - r - 1) * d;
    assert (p - r - 1) * d >= 0;
  }

  lemma FewerMultiples(p: int, r: int, d: nat)
    requires p * d < r * d + d
    ensures p <= r
  {
    if p > r { MoreMultiples(p, r, d); }
  }

  lemma QuotientsAdd(a: nat, b: nat, d: nat)
    requires d > 0
    ensures a / d + b / d <= (a + b) / d
  {
    DivisionBounds(a, d);
    DivisionBounds(b, d);
    DivisionBounds(a + b, d);
    var p, q, r := a / d, b / d, (a + b) / d;
    assert (p + q) * d == p * d + q * d;
    FewerMultiples(p + q, r, d);
  }

  lemma CeilQuotient(a: nat, d: nat)
    requires d > 0
    ensures Max(1, CeilDiv(a, d)) <= 1 + a / d
  {
    DivisionBounds(a, d);
    DivisionBounds(a + d - 1, d);
    var p, c := a / d, CeilDiv(a, d);
    assert (1 + p) * d == d + p * d;
    FewerMultiples(c, 1 + p, d);
  }

  /** A block is packed into one part and at most one more for every full length. */
  lemma {:induction false} PackBlocksSize(blocks: seq<seq<string>>, args: PlanArgs)
    requires Clean(Flatten(blocks))
    ensures |PackBlocks(blocks, args)| <= |blocks| + TotalChars(Flatten(blocks)) / Max(args.maxPartChars, 1)
  {
    hide CountChars, PackShort, PackCount, Join, Squeeze, Trimmed;
    if blocks != [] {
      var front, last := Init(blocks), Last(blocks);
      CleanConcat(Flatten(front), last);
      PackBlocksSize(front, args);
      TotalCharsConcat(Flatten(front), last);
      QuotientsAdd(TotalChars(Flatten(front)), TotalChars(last), Max(args.maxPartChars, 1));
      var short := PackShort(last, args.minPartChars);
      PackShortFacts(last, args.minPartChars);
      TotalCharsJoin(short);
      TotalCharsJoin(last);
      CeilQuotient(TotalChars(last), Max(args.maxPartChars, 1));
      SameCount(short, last);
      PackCountFacts(short, Max(1, CeilDiv(TotalChars(short), Max(args.maxPartChars, 1))));
    }
  }

  lemma SameCount(a: seq<string>, b: seq<string>)
    requires Conserves(a, Join(b))
    ensures TotalChars(a) == TotalChars(b)
  {
    TotalCharsJoin(a);
    TotalCharsJoin(b);
  }

  lemma ForcedPackSize(groups: seq<string>, args: PlanArgs)
    requires Clean(groups) && args.forceBreaks != []
    ensures |PackForced(groups, args)|
            <= |Blocks(groups, args.forceBreaks)| + TotalChars(groups) / Max(args.maxPartChars, 1)
  {
    hide PackBlocks, TotalChars, Blocks;
    BlocksFlatten(groups, args.forceBreaks);
    PackBlocksSize(Blocks(groups, args.forceBreaks), args);
  }

  lemma {:induction false} BlocksStateAppend(a: seq<string>, b: seq<string>, patterns: seq<string -> bool>)
    requires a != [] && EndsForcedBlock(Last(a), patterns)
    ensures var sa := BlocksState(a, patterns); var sb := BlocksState(b, patterns);
            BlocksState(a + b, patterns) == BlockState(sa.blocks + sb.blocks, sb.current)
  {
    hide EndsForcedBlock;
    if b == [] {
      assert a + b == a;
      assert BlocksState(a, patterns).blocks + [] == BlocksState(a, patterns).blocks;
    } else {
      assert Init(a + b) == a + Init(b) && Last(a + b) == Last(b);
      BlocksStateAppend(a, Init(b), patterns);
      var sa, sb := BlocksState(a, patterns), BlocksState(Init(b), patterns);
      assert sa.blocks + sb.blocks + [sb.current + [Last(b)]] == sa.blocks + (sb.blocks + [sb.current + [Last(b)]]);
    }
  }

  lemma {:induction false} PackBlocksConcat(a: seq<seq<string>>, b: seq<seq<string>>, args: PlanArgs)
    ensures PackBlocks(a + b, args) == PackBlocks(a, args) + PackBlocks(b, args)
  {
    hide PackBlock;
    if b == [] {
      assert a + b == a;
    } else {
      assert Init(a + b) == a + Init(b) && Last(a + b) == Last(b);
      PackBlocksConcat(a, Init(b), args);
    }
  }

  /** A force-break match always ends a part: packing a list of groups is packing up to
      and including the match, followed by packing the rest on its own, and the first
      half carries exactly the text up to the match. */
  lemma ForcedBreakEndsPart(a: seq<string>, b: seq<string>, args: PlanArgs)
    requires a != [] && Clean(a + b)
    requires exists k :: 0 <= k < |args.forceBreaks| && args.forceBreaks[k](Last(a))
    ensures PackForced(a + b, args) == PackForced(a, args) + PackForced(b, args)
    ensures PackForced(a, args) != [] && Conserves(PackForced(a, args), Join(a))
  {
    hide PackBlock, Squeeze, Join, Trimmed, IsSpace;
    assert EndsForcedBlock(Last(a), args.forceBreaks);
    hide EndsForcedBlock;
    BlocksStateAppend(a, b, args.forceBreaks);
    assert BlocksState(a, args.forceBreaks).current == [];
    var ba, bb := Blocks(a, args.forceBreaks), Blocks(b, args.forceBreaks);
    assert Blocks(a + b, args.forceBreaks) == ba + bb;
    PackBlocksConcat(ba, bb, args);
    CleanConcat(a, b);
    PackForcedFacts(a, args);
    NonEmptyParts(PackForced(a, args), a);
  }

  lemma BlocksNext(front: seq<string>, last: string, patterns: seq<string -> bool>)
    requires BlocksState(front, patterns) == BlockState([], front)
    ensures BlocksState(front + [last], patterns)
            == if EndsForcedBlock(last, patterns) then BlockState([front + [last]], [])
               else BlockState([], front + [last])
  {
    hide EndsForcedBlock;
    assert Init(front + [last]) == front && Last(front + [last]) == last;
  }

  ghost predicate NoneEndsBlock(groups: seq<string>, patterns: seq<string -> bool>) {
    forall i :: 0 <= i < |groups| ==> !EndsForcedBlock(groups[i], patterns)
  }

  lemma NoneInFront(groups: seq<string>, patterns: seq<string -> bool>)
    requires groups != [] && NoneEndsBlock(groups, patterns)
    ensures NoneEndsBlock(Init(groups), patterns) && !EndsForcedBlock(Last(groups), patterns)
  {
    hide EndsForcedBlock;
  }

  lemma {:induction false} NoBreakInside(groups: seq<string>, patterns: seq<string -> bool>)
    requires NoneEndsBlock(groups, patterns)
    ensures BlocksState(groups, patterns) == BlockState([], groups)
  {
    hide EndsForcedBlock, NoneEndsBlock, BlocksState;
    NoBlocks(patterns);
    if groups != [] {
      NoneInFront(groups, patterns);
      NoBreakInside(Init(groups), patterns);
      BlocksNext(Init(groups), Last(groups), patterns);
      assert groups == Init(groups) + [Last(groups)];
    }
  }

  lemma NoBlocks(patterns: seq<string -> bool>)
    ensures BlocksState([], patterns) == BlockState([], [])
  {
  }

  lemma OneUnbrokenBlock(groups: seq<string>, patterns: seq<string -> bool>)
    requires groups != [] && NoneEndsBlock(Init(groups), patterns)
    ensures Blocks(groups, patterns) == [groups]
  {
    hide EndsForcedBlock, NoneEndsBlock, BlocksState;
    NoBreakInside(Init(groups), patterns);
    BlocksNext(Init(groups), Last(groups), patterns);
    assert groups == Init(groups) + [Last(groups)];
  }

  /** And nothing else does: groups of which at most the last matches are packed together,
      into the least number of parts of the maximum length that holds them. */
  lemma UnbrokenGroups(groups: seq<string>, args: PlanArgs, k: nat)
    requires groups != [] && args.forceBreaks != [] && Clean(groups)
    requires forall i, n :: 0 <= i < |groups| - 1 && 0 <= n < |args.forceBreaks| ==> !args.forceBreaks[n](groups[i])
    requires k >= 1 && TotalChars(groups) <= k * Max(args.maxPartChars, 1)
    requires k == 1 || TotalChars(groups) > (k - 1) * Max(args.maxPartChars, 1)
    ensures PackForced(groups, args) == PackCount(PackShort(groups, args.minPartChars), k)
  {
    hide TotalChars, PackShort, PackCount, CeilDiv, Blocks, Squeeze, Join, Trimmed;
    var m := Max(args.maxPartChars, 1);
    assert NoneEndsBlock(Init(groups), args.forceBreaks);
    OneUnbrokenBlock(groups, args.forceBreaks);
    var packed := PackShort(groups, args.minPartChars);
    PackShortFacts(groups, args.minPartChars);
    SameCount(packed, groups);
    LeastMultiple(TotalChars(groups), m, k);
    assert Init([groups]) == [];
    assert PackBlocks([groups], args) == PackBlock(groups, args);
  }

  lemma LeastMultiple(total: nat, m: nat, k: nat)
    requires m >= 1 && k >= 1 && total <= k * m && (k == 1 || total > (k - 1) * m)
    ensures Max(1, CeilDiv(total, m)) == k
  {
    var c := (total + m - 1) / m;
    DivisionBounds(total + m - 1, m);
    FewerMultiples(c, k, m);
    if k > 1 {
      assert (k - 1) * m == k * m - m;
      FewerMultiples(k, c, m);
    }
  }

  lemma NonEmptyParts(parts: seq<string>, groups: seq<string>)
    requires Conserves(parts, Join(groups)) && Clean(groups) && groups != []
    ensures parts != []
  {
    CleanTotal(groups);
    TotalCharsJoin(groups);
  }
}
