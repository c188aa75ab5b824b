/** Folding tiny parts into their neighbours (`merge_tiny_islands`). */
module Islands {
  import opened Sequences
  import opened Text
  import opened Breath

  /** `char.isalnum()` or a CJK ideograph. No whitespace character is alphanumeric. */
  predicate IsMeaningful(c: char, isAlnum: char -> bool) {
    (isAlnum(c) && !IsSpace(c)) || '\U{4E00}' <= c <= '\U{9FFF}'
  }

  function MeaningfulChars(s: string, isAlnum: char -> bool): nat {
    if s == "" then 0
    else (if IsMeaningful(s[0], isAlnum) then 1 else 0) + MeaningfulChars(s[1..], isAlnum)
  }

  /** Long enough to stand alone: over three characters, at least one meaningful. */
  predicate StandsAlone(part: string, isAlnum: char -> bool) {
    MeaningfulChars(part, isAlnum) > 0 && CountChars(part) > 3
  }

  /** The list and the scan position after the loop has run to its end. */
  function MergeFrom(merged: seq<string>, index: nat, isAlnum: char -> bool): seq<string>
    decreases |merged|, |merged| - index
  {
    if |merged| <= 1 || index >= |merged| then merged
    else if StandsAlone(merged[index], isAlnum) then MergeFrom(merged, index + 1, isAlnum)
    else if index > 0 then MergeFrom(MergeAt(merged, index - 1), index, isAlnum)
    else MergeFrom(MergeAt(merged, 0), 0, isAlnum)
  }

  /** Parts k and k + 1 become one. */
  function MergeAt(parts: seq<string>, k: nat): (r: seq<string>)
    requires k + 1 < |parts|
    ensures |r| == |parts| - 1
  {
    parts[..k] + [Strip(parts[k] + parts[k + 1])] + parts[k + 2..]
  }

  function MergeTiny(parts: seq<string>, isAlnum: char -> bool): seq<string> {
    MergeFrom(NonBlankOnly(parts), 0, isAlnum)
  }

  method MergeTinyIslands(parts: seq<string>, isAlnum: char -> bool) returns (merged: seq<string>)
    ensures merged == MergeTiny(parts, isAlnum)
  {
    hide StandsAlone, Strip;
    merged := KeepNonBlank(parts);
    var index := 0;
    while |merged| > 1 && index < |merged|
      invariant MergeFrom(merged, index, isAlnum) == MergeTiny(parts, isAlnum)
      decreases |merged|, |merged| - index
    {
      var part := merged[index];
      if StandsAlone(part, isAlnum) {
        index := index + 1;
        continue;
      }
      if index > 0 {
        ghost var before := merged;
        merged := merged[index - 1 := Strip(merged[index - 1] + part)];
        merged := merged[..index] + merged[index + 1..];
        assert merged == MergeAt(before, index - 1);
      } else {
        ghost var before := merged;
        merged := merged[1 := Strip(part + merged[1])];
        merged := merged[1..];
        assert merged == MergeAt(before, 0);
      }
    }
  }

  lemma {:induction false} MeaningfulConcat(a: string, b: string, isAlnum: char -> bool)
    ensures MeaningfulChars(a + b, isAlnum) == MeaningfulChars(a, isAlnum) + MeaningfulChars(b, isAlnum)
  {
    if a == "" {
      assert a + b == b;
    } else {
      assert (a + b)[1..] == a[1..] + b;
      MeaningfulConcat(a[1..], b, isAlnum);
    }
  }

  /** Whitespace does not matter for the meaningful characters. */
  lemma {:induction false} MeaningfulSqueeze(s: string, isAlnum: char -> bool)
    ensures MeaningfulChars(Squeeze(s), isAlnum) == MeaningfulChars(s, isAlnum)
  {
    if s != "" {
      MeaningfulSqueeze(s[1..], isAlnum);
      if !IsSpace(s[0]) {
        assert ([s[0]] + Squeeze(s[1..]))[1..] == Squeeze(s[1..]);
      }
    }
  }

  /** A merged pair keeps its text and stands alone as soon as either half does. */
  lemma MergedPair(a: string, b: string, isAlnum: char -> bool)
    ensures Squeeze(Strip(a + b)) == Squeeze(a) + Squeeze(b)
    ensures CountChars(Strip(a + b)) == CountChars(a) + CountChars(b)
    ensures StandsAlone(a, isAlnum) || StandsAlone(b, isAlnum) ==> StandsAlone(Strip(a + b), isAlnum)
    ensures Trimmed(Strip(a + b))
  {
    StripFacts(a + b);
    SqueezeConcat(a, b);
    MeaningfulConcat(a, b, isAlnum);
    MeaningfulSqueeze(a + b, isAlnum);
    MeaningfulSqueeze(Strip(a + b), isAlnum);
  }

  lemma MergeAtConserves(parts: seq<string>, k: nat)
    requires k + 1 < |parts|
    ensures Squeeze(Join(MergeAt(parts, k))) == Squeeze(Join(parts))
  {
    hide Squeeze, Join, Strip, IsSpace;
    var a, b, front, back := parts[k], parts[k + 1], parts[..k], parts[k + 2..];
    AroundPair(parts, k);
    MergedPair(a, b, _ => true);
    SqueezeJoinConcat(front + [a, b], back);
    SqueezeJoinConcat(front, [a, b]);
    SqueezeJoinConcat(front + [Strip(a + b)], back);
    SqueezeJoinConcat(front, [Strip(a + b)]);
    JoinTwo(a, b);
    SqueezeConcat(a, b);
    JoinOne(Strip(a + b));
  }

  ghost predicate NoneBlank(parts: seq<string>) {
    forall i :: 0 <= i < |parts| ==> CountChars(parts[i]) >= 1
  }

  ghost predicate AllStand(parts: seq<string>, isAlnum: char -> bool) {
    forall i :: 0 <= i < |parts| ==> StandsAlone(parts[i], isAlnum)
  }

  lemma MergeAtNoneBlank(parts: seq<string>, k: nat, isAlnum: char -> bool)
    requires k + 1 < |parts| && NoneBlank(parts)
    ensures NoneBlank(MergeAt(parts, k))
    ensures Clean(parts) ==> Clean(MergeAt(parts, k))
    ensures AllStand(parts[..k + 1], isAlnum) ==> AllStand(MergeAt(parts, k)[..k + 1], isAlnum)
  {
    hide Squeeze, StandsAlone, CountChars, Trimmed, IsSpace;
    MergedPair(parts[k], parts[k + 1], isAlnum);
    var r := MergeAt(parts, k);
    assert CountChars(r[k]) >= 1;
    HasCharsNotEmpty(r[k]);
    forall i | 0 <= i < |r| && i != k ensures r[i] == parts[if i < k then i else i + 1] {}
    if AllStand(parts[..k + 1], isAlnum) {
      assert parts[..k + 1][k] == parts[k];
      forall i | 0 <= i < k ensures StandsAlone(r[i], isAlnum) { assert r[i] == parts[..k + 1][i]; }
    }
  }

  lemma HasCharsNotEmpty(s: string)
    ensures CountChars(s) >= 1 ==> s != ""
  {
  }

  /** The scan: everything before the index stands alone already. */
  lemma {:induction false} MergeFromFacts(merged: seq<string>, index: nat, isAlnum: char -> bool)
    requires NoneBlank(merged) && index <= |merged| && AllStand(merged[..index], isAlnum)
    ensures var r := MergeFrom(merged, index, isAlnum);
            && Squeeze(Join(r)) == Squeeze(Join(merged))
            && NoneBlank(r) && |r| <= |merged| && (merged != [] ==> r != [])
            && (Clean(merged) ==> Clean(r))
            && (|r| > 1 ==> AllStand(r, isAlnum))
    decreases |merged|, |merged| - index
  {
    hide Squeeze, Join, StandsAlone, CountChars, NoneBlank, Clean, Strip;
    if |merged| <= 1 || index >= |merged| {
      assert merged[..index] == merged || |merged| <= 1;
    } else if StandsAlone(merged[index], isAlnum) {
      assert merged[..index + 1] == merged[..index] + [merged[index]];
      MergeFromFacts(merged, index + 1, isAlnum);
    } else if index > 0 {
      MergeAtConserves(merged, index - 1);
      MergeAtNoneBlank(merged, index - 1, isAlnum);
      MergeFromFacts(MergeAt(merged, index - 1), index, isAlnum);
    } else {
      MergeAtConserves(merged, 0);
      MergeAtNoneBlank(merged, 0, isAlnum);
      assert MergeAt(merged, 0)[..0] == [];
      MergeFromFacts(MergeAt(merged, 0), 0, isAlnum);
    }
  }

  /** Merging islands loses nothing, never adds parts, and when more than one part
      remains every one has over three characters and some meaningful one. */
  lemma MergeTinyFacts(parts: seq<string>, isAlnum: char -> bool)
    ensures var r := MergeTiny(parts, isAlnum);
            && Squeeze(Join(r)) == Squeeze(Join(parts))
            && |r| <= |parts|
            && NoneBlank(r)
            && (Clean(parts) ==> Clean(r))
            && (|r| > 1 ==> AllStand(r, isAlnum))
  {
    hide Squeeze, Join, StandsAlone, CountChars, MergeFrom;
    NonBlankOnlyFacts(parts);
    if Clean(parts) {
      CleanAllHaveChars(parts);
      NonBlankOnlyKeeps(parts);
    }
    assert NonBlankOnly(parts)[..0] == [];
    MergeFromFacts(NonBlankOnly(parts), 0, isAlnum);
  }

  lemma {:induction false} MergeFromStable(parts: seq<string>, index: nat, isAlnum: char -> bool)
    requires AllStand(parts, isAlnum) && index <= |parts|
    ensures MergeFrom(parts, index, isAlnum) == parts
    decreases |parts| - index
  {
    if index < |parts| { MergeFromStable(parts, index + 1, isAlnum); }
  }

  /** A second pass changes nothing. */
  lemma MergeTinyIdempotent(parts: seq<string>, isAlnum: char -> bool)
    ensures MergeTiny(MergeTiny(parts, isAlnum), isAlnum) == MergeTiny(parts, isAlnum)
  {
    var r := MergeTiny(parts, isAlnum);
    MergeTinyFacts(parts, isAlnum);
    NonBlankOnlyKeeps(r);
    if |r| > 1 { MergeFromStable(r, 0, isAlnum); }
  }

  /** How many parts stand alone. */
  function StandCount(parts: seq<string>, isAlnum: char -> bool): nat {
    if parts == [] then 0
    else StandCount(Init(parts), isAlnum) + if StandsAlone(Last(parts), isAlnum) then 1 else 0
  }

  lemma {:induction false} StandCountConcat(a: seq<string>, b: seq<string>, isAlnum: char -> bool)
    ensures StandCount(a + b, isAlnum) == StandCount(a, isAlnum) + StandCount(b, isAlnum)
  {
    hide StandsAlone;
    if b == [] {
      assert a + b == a;
    } else {
      assert Init(a + b) == a + Init(b) && Last(a + b) == Last(b);
      StandCountConcat(a, Init(b), isAlnum);
    }
  }

  lemma StandCountOne(part: string, isAlnum: char -> bool)
    ensures StandCount([part], isAlnum) == if StandsAlone(part, isAlnum) then 1 else 0
  {
    hide StandsAlone;
    assert Init([part]) == [];
  }

  /** Merging a pair of which one is an island keeps the number of standing parts. */
  lemma MergeAtStandCount(parts: seq<string>, k: nat, isAlnum: char -> bool)
    requires k + 1 < |parts|
    requires !StandsAlone(parts[k], isAlnum) || !StandsAlone(parts[k + 1], isAlnum)
    ensures StandCount(MergeAt(parts, k), isAlnum) >= StandCount(parts, isAlnum)
  {
    hide StandsAlone, StandCount, Strip;
    var a, b, front, back := parts[k], parts[k + 1], parts[..k], parts[k + 2..];
    MergedPair(a, b, isAlnum);
    AroundPair(parts, k);
    StandCountConcat(front + [a, b], back, isAlnum);
    StandCountConcat(front, [a, b], isAlnum);
    StandCountConcat([a], [b], isAlnum);
    assert [a] + [b] == [a, b];
    StandCountOne(a, isAlnum);
    StandCountOne(b, isAlnum);
    StandCountConcat(front + [Strip(a + b)], back, isAlnum);
    StandCountConcat(front, [Strip(a + b)], isAlnum);
    StandCountOne(Strip(a + b), isAlnum);
  }

  lemma {:induction false} StandCountBound(parts: seq<string>, isAlnum: char -> bool)
    ensures StandCount(parts, isAlnum) <= |parts|
  {
    if parts != [] { StandCountBound(Init(parts), isAlnum); }
  }

  lemma {:induction false} MergeFromStandCount(merged: seq<string>, index: nat, isAlnum: char -> bool)
    ensures StandCount(MergeFrom(merged, index, isAlnum), isAlnum) >= StandCount(merged, isAlnum)
    decreases |merged|, |merged| - index
  {
    hide StandsAlone, StandCount, Strip;
    if |merged| <= 1 || index >= |merged| {
    } else if StandsAlone(merged[index], isAlnum) {
      MergeFromStandCount(merged, index + 1, isAlnum);
    } else {
      var k := if index > 0 then index - 1 else 0;
      MergeAtStandCount(merged, k, isAlnum);
      MergeFromStandCount(MergeAt(merged, k), index, isAlnum);
    }
  }

  /** Only islands are folded away: parts that stand alone are never merged with each
      other, so at least as many parts remain as stood alone before. */
  lemma OnlyIslandsMerge(parts: seq<string>, isAlnum: char -> bool)
    ensures |MergeTiny(parts, isAlnum)| >= StandCount(NonBlankOnly(parts), isAlnum)
  {
    MergeFromStandCount(NonBlankOnly(parts), 0, isAlnum);
    StandCountBound(MergeTiny(parts, isAlnum), isAlnum);
  }

  // ---------------------------------------------------------------- which neighbour takes an island

  /** A part stands alone exactly with at least four visible characters, one of them a
      letter, a digit or an ideograph. */
  lemma StandsAloneIff(part: string, isAlnum: char -> bool)
    ensures StandsAlone(part, isAlnum) <==>
              CountChars(part) >= 4
              && exists k :: 0 <= k < |part|
                   && ((isAlnum(part[k]) && !IsSpace(part[k])) || '\U{4E00}' <= part[k] <= '\U{9FFF}')
  {
    hide CountChars;
    SomeMeaningful(part, isAlnum);
  }

  lemma {:induction false} SomeMeaningful(part: string, isAlnum: char -> bool)
    ensures MeaningfulChars(part, isAlnum) > 0 <==>
              exists k :: 0 <= k < |part| && IsMeaningful(part[k], isAlnum)
  {
    if part != "" {
      var rest := part[1..];
      SomeMeaningful(rest, isAlnum);
      assert forall k :: 1 <= k < |part| ==> part[k] == rest[k - 1];
      assert forall k :: 0 <= k < |rest| ==> rest[k] == part[k + 1];
    }
  }

  /** The scan passes over parts that stand alone. */
  lemma {:induction false} ScanPasses(parts: seq<string>, from: nat, to: nat, isAlnum: char -> bool)
    requires from <= to <= |parts| && |parts| > 1
    requires forall i :: from <= i < to ==> StandsAlone(parts[i], isAlnum)
    ensures MergeFrom(parts, from, isAlnum) == MergeFrom(parts, to, isAlnum)
    decreases |parts| - from
  {
    hide StandsAlone;
    if from < to { ScanPasses(parts, from + 1, to, isAlnum); }
  }

  /** The first island joins the part before it, and the scan resumes behind the two. */
  lemma IslandJoinsPart(front: seq<string>, island: string, rest: seq<string>, isAlnum: char -> bool)
    requires front != [] && AllStand(front, isAlnum) && !StandsAlone(island, isAlnum)
    ensures MergeFrom(front + [island] + rest, 0, isAlnum)
            == MergeFrom(Init(front) + [Strip(Last(front) + island)] + rest, 0, isAlnum)
  {
    hide StandsAlone, Strip, CountChars, Squeeze;
    var before := front + [island] + rest;
    var after := Init(front) + [Strip(Last(front) + island)] + rest;
    var k := |front| - 1;
    assert before[k] == Last(front) && before[k + 1] == island && before[..k] == Init(front) && before[k + 2..] == rest;
    assert MergeAt(before, k) == after;
    ScanPasses(before, 0, |front|, isAlnum);
    assert before[|front|] == island;
    MergedPair(Last(front), island, isAlnum);
    assert StandsAlone(front[k], isAlnum);
    assert after[k] == Strip(Last(front) + island);
    forall i | 0 <= i < |front| ensures StandsAlone(after[i], isAlnum) {
      if i < k { assert after[i] == front[i]; }
    }
    if |after| > 1 { ScanPasses(after, 0, |front|, isAlnum); }
  }

  /** An island at the head of the list joins the part behind it. */
  lemma LeadingIslandJoinsNext(island: string, next: string, rest: seq<string>, isAlnum: char -> bool)
    requires !StandsAlone(island, isAlnum)
    ensures MergeFrom([island, next] + rest, 0, isAlnum) == MergeFrom([Strip(island + next)] + rest, 0, isAlnum)
  {
    hide StandsAlone, Strip;
    var before := [island, next] + rest;
    assert MergeAt(before, 0) == [Strip(island + next)] + rest;
  }
}
