/** Cutting a run without punctuation, away from protected terms (`split_long_run`). */
module LongRun {
  import opened Numbers
  import opened Sequences
  import opened Text

  /** The planner's tables. Every theorem holds for any table; `DEFAULT_TABLES`
      is the one in the source. */
  datatype Tables = Tables(
    terms: seq<string>,
    cutAfter: set<char>,
    cutBefore: seq<string>,
    weakAfter: set<char>)

  const DEFAULT_TERMS: seq<string> :=
    ["\U{65E5}\U{5FD7}\U{6761}\U{76EE}", "\U{8FFD}\U{52A0}\U{6761}\U{76EE}",
     "\U{7EBF}\U{6027}\U{4E00}\U{81F4}\U{6027}", "\U{6267}\U{884C}\U{5386}\U{53F2}",
     "\U{6301}\U{4E45}\U{5316}", "\U{6613}\U{5931}\U{6027}", "\U{5168}\U{5E8F}",
     "\U{8DDF}\U{968F}\U{8005}", "\U{9886}\U{5BFC}\U{8005}", "\U{673A}\U{68B0}\U{786C}\U{76D8}",
     "\U{65E5}\U{5FD7}", "append entries", "appendentries", "raft", "rpc", "fsync"]

  const DEFAULT_TABLES := Tables(
    DEFAULT_TERMS,
    {',', ';', ':', '\U{3001}', '\U{FF0C}', '\U{FF1B}', '\U{FF1A}', '\U{3002}', '\U{FF01}',
     '\U{FF1F}', '.', '!', '?'},
    ["\U{56E0}\U{6B64}", "\U{56E0}\U{4E3A}", "\U{6240}\U{4EE5}", "\U{4F46}\U{662F}",
     "\U{4E0D}\U{8FC7}", "\U{7136}\U{540E}", "\U{968F}\U{540E}", "\U{63A5}\U{7740}",
     "\U{90A3}\U{4E48}"],
    {'\U{7684}', '\U{5730}', '\U{5F97}', '\U{7B2C}', '\U{524D}', '\U{540E}'})

  /** `str.lower` on the characters that matter: the protected terms contain ASCII
      letters and characters without case. */
  function LowerChar(c: char): char {
    if 'A' <= c <= 'Z' then (c as int + 32) as char else c
  }

  function Lower(s: string): string { seq(|s|, i requires 0 <= i < |s| => LowerChar(s[i])) }

  /** `term` occurs at position `i` of `text`, ignoring case. */
  predicate OccursAt(text: string, term: string, i: int) {
    term != "" && 0 <= i && i + |term| <= |text| && Lower(text[i..i + |term|]) == Lower(term)
  }

  /** Equal up to the case of an ASCII letter. */
  predicate SameLetter(a: char, b: char) {
    a == b || ('A' <= a <= 'Z' && b as int == a as int + 32) || ('A' <= b <= 'Z' && a as int == b as int + 32)
  }

  lemma OccursIff(text: string, term: string, i: int)
    ensures OccursAt(text, term, i) <==>
              term != "" && 0 <= i && i + |term| <= |text|
              && forall k :: 0 <= k < |term| ==> SameLetter(text[i + k], term[k])
  {
    if 0 <= i && i + |term| <= |text| {
      var here := text[i..i + |term|];
      forall k | 0 <= k < |term|
        ensures Lower(here)[k] == Lower(term)[k] <==> SameLetter(text[i + k], term[k])
      {
        assert Lower(here)[k] == LowerChar(text[i + k]) && Lower(term)[k] == LowerChar(term[k]);
      }
    }
  }

  /** The slice [i, j) of `text` is an occurrence of a protected term. */
  ghost predicate TermSpan(text: string, terms: seq<string>, i: int, j: int) {
    exists term :: term in terms && OccursAt(text, term, i) && j == i + |term|
  }

  /** Cutting at `cut` leaves two non-empty sides and no protected term in two. */
  ghost predicate Safe(text: string, cut: int, terms: seq<string>) {
    0 < cut < |text| && forall i, j :: TermSpan(text, terms, i, j) ==> !(i < cut < j)
  }

  /** `str.find`: the first occurrence at or after `start`, or None for -1. */
  method Find(text: string, term: string, start: nat) returns (index: Option<nat>)
    requires term != ""
    ensures index == None ==> forall i :: start <= i ==> !OccursAt(text, term, i)
    ensures index.Some? ==> start <= index.value && OccursAt(text, term, index.value)
    ensures index.Some? ==> forall i :: start <= i < index.value ==> !OccursAt(text, term, i)
  {
    var i := start;
    while i + |term| <= |text|
      invariant start <= i
      invariant forall k :: start <= k < i ==> !OccursAt(text, term, k)
    {
      if OccursAt(text, term, i) { return Some(i); }
      i := i + 1;
    }
    return None;
  }

  /** `protected_spans`: all occurrences of all terms, overlapping ones included. */
  method ProtectedSpans(text: string, terms: seq<string>) returns (spans: seq<(int, int)>)
    ensures forall i, j :: (i, j) in spans <==> TermSpan(text, terms, i, j)
  {
    spans := [];
    for n := 0 to |terms|
      invariant forall i, j :: (i, j) in spans <==> TermSpan(text, terms[..n], i, j)
    {
      var needle := terms[n];
      ghost var before := spans;
      var start := 0;
      var searching := needle != "";
      while searching
        invariant 0 <= start <= |text| + 1
        invariant forall i, j :: (i, j) in spans <==>
                    (i, j) in before || (OccursAt(text, needle, i) && i < start && j == i + |needle|)
        invariant !searching ==> forall i :: start <= i ==> !OccursAt(text, needle, i)
        decreases searching, |text| + 1 - start
      {
        var index := Find(text, needle, start);
        if index == None {
          searching := false;
        } else {
          spans := spans + [(index.value, index.value + |needle|)];
          start := index.value + 1;
        }
      }
      assert terms[..n + 1] == terms[..n] + [needle];
    }
    assert terms[..|terms|] == terms;
  }

  method IsSafeSplitIndex(text: string, cut: int, terms: seq<string>) returns (ok: bool)
    ensures ok == Safe(text, cut, terms)
  {
    if cut <= 0 || cut >= |text| { return false; }
    var spans := ProtectedSpans(text, terms);
    for k := 0 to |spans|
      invariant forall m :: 0 <= m < k ==> !(spans[m].0 < cut < spans[m].1)
    {
      if spans[k].0 < cut < spans[k].1 {
        assert (spans[k].0, spans[k].1) in spans;
        return false;
      }
    }
    return true;
  }

  predicate StartsWithAny(text: string, prefixes: seq<string>) {
    exists p :: p in prefixes && p <= text
  }

  /** `split_index_score`: distance to the wanted cut, with bonuses and penalties. */
  function CutScore(text: string, cut: int, desired: int, t: Tables): int
    requires 0 <= cut <= |text|
  {
    var left := text[..cut];
    var right := text[cut..];
    (if cut < desired then desired - cut else cut - desired)
    - (if left != "" && Last(left) in t.cutAfter then 10 else 0)
    - (if StartsWithAny(right, t.cutBefore) then 6 else 0)
    + (if left != "" && Last(left) in t.weakAfter then 4 else 0)
    + (if right != "" && right[0] in t.cutAfter then 8 else 0)
  }

  /** The safe cuts in [lo, hi], in increasing order. */
  ghost function SafeCuts(text: string, lo: int, hi: int, t: Tables): seq<int>
    decreases hi - lo
  {
    if hi < lo then []
    else SafeCuts(text, lo, hi - 1, t) + if Safe(text, hi, t.terms) then [hi] else []
  }

  /** `min(candidates, key=score)`: the first candidate with the least score. */
  function FirstBest(cuts: seq<int>, text: string, desired: int, t: Tables): (best: int)
    requires cuts != [] && forall k :: 0 <= k < |cuts| ==> 0 <= cuts[k] <= |text|
    ensures exists k :: 0 <= k < |cuts| && cuts[k] == best
  {
    if |cuts| == 1 then cuts[0]
    else
      var best := FirstBest(Init(cuts), text, desired, t);
      if CutScore(text, Last(cuts), desired, t) < CutScore(text, best, desired, t) then Last(cuts) else best
  }

  function Desired(text: string, wanted: int): int { Max(1, Min(wanted, |text| - 1)) }

  function Window(text: string): int { Max(8, Min(30, CeilDiv(|text|, 4))) }

  function MinSide(text: string): int { Max(1, Min(8, |text| / 5)) }

  function WindowLow(text: string, wanted: int): int {
    Max(MinSide(text), Desired(text, wanted) - Window(text))
  }

  function WindowHigh(text: string, wanted: int): int {
    Min(|text| - MinSide(text), Desired(text, wanted) + Window(text))
  }

  ghost function Candidates(text: string, wanted: int, t: Tables): seq<int> {
    var near := SafeCuts(text, WindowLow(text, wanted), WindowHigh(text, wanted), t);
    if near != [] then near else SafeCuts(text, 1, |text| - 1, t)
  }

  /** `cuts` lists the safe cuts of [lo, hi], all of them and nothing else. */
  ghost predicate ListsSafeCuts(cuts: seq<int>, text: string, lo: int, hi: int, t: Tables) {
    && (forall k :: 0 <= k < |cuts| ==> lo <= cuts[k] <= hi && Safe(text, cuts[k], t.terms))
    && (forall c :: lo <= c <= hi && Safe(text, c, t.terms) ==> c in cuts)
  }

  lemma {:induction false} SafeCutsExact(text: string, lo: int, hi: int, t: Tables)
    ensures ListsSafeCuts(SafeCuts(text, lo, hi, t), text, lo, hi, t)
    decreases hi - lo
  {
    if lo <= hi {
      SafeCutsExact(text, lo, hi - 1, t);
      var before := SafeCuts(text, lo, hi - 1, t);
      forall c | lo <= c <= hi && Safe(text, c, t.terms) ensures c in SafeCuts(text, lo, hi, t) {
        if c < hi { assert c in before; }
      }
    }
  }

  lemma CandidatesExact(text: string, wanted: int, t: Tables)
    ensures var cuts := Candidates(text, wanted, t);
            && (forall k :: 0 <= k < |cuts| ==> 0 < cuts[k] < |text| && Safe(text, cuts[k], t.terms))
            && (cuts == [] <==> forall c :: !Safe(text, c, t.terms))
  {
    var low, high := WindowLow(text, wanted), WindowHigh(text, wanted);
    SafeCutsExact(text, low, high, t);
    SafeCutsExact(text, 1, |text| - 1, t);
    var near := SafeCuts(text, low, high, t);
    var all := SafeCuts(text, 1, |text| - 1, t);
    assert ListsSafeCuts(near, text, low, high, t) && ListsSafeCuts(all, text, 1, |text| - 1, t);
    if near != [] {
      assert Safe(text, near[0], t.terms);
    } else if all != [] {
      assert Safe(text, all[0], t.terms);
    } else {
      forall c ensures !Safe(text, c, t.terms) {
        assert Safe(text, c, t.terms) ==> c in all;
      }
    }
  }

  lemma {:induction false} FirstBestIsBest(cuts: seq<int>, text: string, desired: int, t: Tables)
    requires cuts != [] && forall k :: 0 <= k < |cuts| ==> 0 <= cuts[k] <= |text|
    ensures forall c :: c in cuts ==>
              CutScore(text, FirstBest(cuts, text, desired, t), desired, t) <= CutScore(text, c, desired, t)
  {
    if |cuts| > 1 {
      FirstBestIsBest(Init(cuts), text, desired, t);
      assert cuts == Init(cuts) + [Last(cuts)];
    }
  }

  /** `choose_safe_split_index`. Without any safe cut it falls back on the wanted index. */
  ghost function ChooseCut(text: string, wanted: int, t: Tables): (cut: int)
    ensures |text| >= 2 ==> 1 <= cut < |text|
    ensures |text| < 2 ==> cut == |text|
  {
    if |text| <= 1 then |text|
    else
      var cuts := Candidates(text, wanted, t);
      CandidatesExact(text, wanted, t);
      if cuts == [] then Desired(text, wanted)
      else
        FirstBestIsBest(cuts, text, Desired(text, wanted), t);
        FirstBest(cuts, text, Desired(text, wanted), t)
  }

  method CollectSafeCuts(text: string, lo: int, hi: int, t: Tables) returns (cuts: seq<int>)
    ensures cuts == SafeCuts(text, lo, hi, t)
  {
    cuts := [];
    var cut := lo;
    while cut <= hi
      invariant cut == lo || lo < cut <= hi + 1
      invariant cuts == SafeCuts(text, lo, cut - 1, t)
    {
      var ok := IsSafeSplitIndex(text, cut, t.terms);
      if ok { cuts := cuts + [cut]; }
      cut := cut + 1;
    }
  }

  method PickFirstBest(cuts: seq<int>, text: string, desired: int, t: Tables) returns (best: int)
    requires cuts != [] && forall k :: 0 <= k < |cuts| ==> 0 <= cuts[k] <= |text|
    ensures best == FirstBest(cuts, text, desired, t)
  {
    hide CutScore;
    best := cuts[0];
    for k := 1 to |cuts|
      invariant 0 <= best <= |text| && best == FirstBest(cuts[..k], text, desired, t)
    {
      assert Init(cuts[..k + 1]) == cuts[..k];
      if CutScore(text, cuts[k], desired, t) < CutScore(text, best, desired, t) {
        best := cuts[k];
      }
    }
    assert cuts[..|cuts|] == cuts;
  }

  method ChooseSafeSplitIndex(text: string, wanted: int, t: Tables) returns (cut: int)
    ensures cut == ChooseCut(text, wanted, t)
  {
    hide Safe, SafeCuts, FirstBest;
    if |text| <= 1 { return |text|; }
    var desired := Max(1, Min(wanted, |text| - 1));
    var window := Max(8, Min(30, CeilDiv(|text|, 4)));
    var minSide := Max(1, Min(8, |text| / 5));
    var lower := Max(minSide, desired - window);
    var upper := Min(|text| - minSide, desired + window);
    var candidates := CollectSafeCuts(text, lower, upper, t);
    if candidates == [] {
      candidates := CollectSafeCuts(text, 1, |text| - 1, t);
    }
    assert candidates == Candidates(text, wanted, t);
    CandidatesExact(text, wanted, t);
    if candidates == [] { return desired; }
    cut := PickFirstBest(candidates, text, desired, t);
  }

  lemma {:induction false} SafeCutsIncrease(text: string, lo: int, hi: int, t: Tables)
    ensures forall a, b :: 0 <= a < b < |SafeCuts(text, lo, hi, t)| ==>
              SafeCuts(text, lo, hi, t)[a] < SafeCuts(text, lo, hi, t)[b]
    decreases hi - lo
  {
    hide Safe;
    if lo <= hi {
      SafeCutsIncrease(text, lo, hi - 1, t);
      SafeCutsExact(text, lo, hi - 1, t);
    }
  }

  /** Of several best cuts the smallest is taken. */
  lemma {:induction false} FirstBestIsFirst(cuts: seq<int>, text: string, desired: int, t: Tables)
    requires cuts != [] && forall k :: 0 <= k < |cuts| ==> 0 <= cuts[k] <= |text|
    requires forall a, b :: 0 <= a < b < |cuts| ==> cuts[a] < cuts[b]
    ensures forall c :: c in cuts && c < FirstBest(cuts, text, desired, t) ==>
              CutScore(text, FirstBest(cuts, text, desired, t), desired, t) < CutScore(text, c, desired, t)
  {
    hide CutScore;
    if |cuts| > 1 {
      var front := Init(cuts);
      FirstBestIsFirst(front, text, desired, t);
      FirstBestIsBest(front, text, desired, t);
      assert cuts == front + [Last(cuts)];
      var best := FirstBest(front, text, desired, t);
      var k :| 0 <= k < |front| && front[k] == best;
      assert cuts[k] == best;
    }
  }

  /** The cut has the least score of the safe cuts in [lo, hi], and is the first that has it. */
  ghost predicate BestSafeCut(text: string, cut: int, lo: int, hi: int, desired: int, t: Tables) {
    && 0 < cut < |text| && lo <= cut <= hi && Safe(text, cut, t.terms)
    && forall c :: lo <= c <= hi && Safe(text, c, t.terms) ==>
         && CutScore(text, cut, desired, t) <= CutScore(text, c, desired, t)
         && (c < cut ==> CutScore(text, cut, desired, t) < CutScore(text, c, desired, t))
  }

  lemma BestOfSafeCuts(text: string, lo: int, hi: int, desired: int, t: Tables)
    requires SafeCuts(text, lo, hi, t) != []
    requires forall k :: 0 <= k < |SafeCuts(text, lo, hi, t)| ==> 0 <= SafeCuts(text, lo, hi, t)[k] <= |text|
    ensures BestSafeCut(text, FirstBest(SafeCuts(text, lo, hi, t), text, desired, t), lo, hi, desired, t)
  {
    hide CutScore, FirstBest, SafeCuts;
    var cuts := SafeCuts(text, lo, hi, t);
    SafeCutsExact(text, lo, hi, t);
    SafeCutsIncrease(text, lo, hi, t);
    FirstBestIsBest(cuts, text, desired, t);
    FirstBestIsFirst(cuts, text, desired, t);
    var k :| 0 <= k < |cuts| && cuts[k] == FirstBest(cuts, text, desired, t);
    assert Safe(text, cuts[k], t.terms);
    forall c | lo <= c <= hi && Safe(text, c, t.terms) ensures c in cuts {}
  }

  /** What the chosen index is worth: it is the best safe cut of the search window, then
      within 30 characters of the wanted index; without one there the best safe cut of the
      text; and without any the wanted index. */
  lemma ChooseCutFacts(text: string, wanted: int, t: Tables)
    requires |text| >= 2
    ensures var cut, low, high := ChooseCut(text, wanted, t), WindowLow(text, wanted), WindowHigh(text, wanted);
            && (Safe(text, cut, t.terms) <==> exists c :: Safe(text, c, t.terms))
            && (!Safe(text, cut, t.terms) ==> cut == Max(1, Min(wanted, |text| - 1)))
            && ((exists c :: low <= c <= high && Safe(text, c, t.terms)) ==>
                  && BestSafeCut(text, cut, low, high, Desired(text, wanted), t)
                  && Desired(text, wanted) - 30 <= cut <= Desired(text, wanted) + 30)
            && (Safe(text, cut, t.terms) && (forall c :: low <= c <= high ==> !Safe(text, c, t.terms)) ==>
                  BestSafeCut(text, cut, 1, |text| - 1, Desired(text, wanted), t))
  {
    hide CutScore, FirstBest, SafeCuts, Safe;
    CandidatesExact(text, wanted, t);
    var low, high := WindowLow(text, wanted), WindowHigh(text, wanted);
    SafeCutsExact(text, low, high, t);
    SafeCutsExact(text, 1, |text| - 1, t);
    var near, all := SafeCuts(text, low, high, t), SafeCuts(text, 1, |text| - 1, t);
    if near != [] {
      BestOfSafeCuts(text, low, high, Desired(text, wanted), t);
      assert Safe(text, near[0], t.terms);
    } else if all != [] {
      BestOfSafeCuts(text, 1, |text| - 1, Desired(text, wanted), t);
      assert forall c :: low <= c <= high ==> !Safe(text, c, t.terms);
    }
  }

  /** Which cuts are searched first: those within 8 characters of the wanted one, or within
      30 and a quarter of the text, that leave 8 characters or a fifth of the text, and at
      least one, on either side. */
  lemma WindowMeaning(text: string, wanted: int, c: int)
    requires 1 <= wanted < |text|
    ensures var off, rest := (if c < wanted then wanted - c else c - wanted), |text| - c;
            WindowLow(text, wanted) <= c <= WindowHigh(text, wanted) <==>
              && (off <= 8 || (off <= 30 && 4 * (off - 1) < |text|))
              && c >= 1 && (c >= 8 || 5 * (c + 1) > |text|)
              && rest >= 1 && (rest >= 8 || 5 * (rest + 1) > |text|)
  {
  }

  // ---------------------------------------------------------------- what cuts are preferred

  predicate AfterPunctuation(text: string, c: int, t: Tables)
    requires 0 < c < |text|
  {
    text[c - 1] in t.cutAfter
  }

  ghost predicate BeforeConnective(text: string, c: int, t: Tables)
    requires 0 < c < |text|
  {
    exists p :: p in t.cutBefore && c + |p| <= |text| && text[c..c + |p|] == p
  }

  predicate AfterWeakChar(text: string, c: int, t: Tables)
    requires 0 < c < |text|
  {
    text[c - 1] in t.weakAfter
  }

  predicate BeforePunctuation(text: string, c: int, t: Tables)
    requires 0 < c < |text|
  {
    text[c] in t.cutAfter
  }

  /** Two cuts that agree in everything but, perhaps, one preference. */
  ghost predicate AgreeBut(text: string, a: int, b: int, t: Tables, feature: nat)
    requires 0 < a < |text| && 0 < b < |text|
  {
    && (feature != 1 ==> (AfterPunctuation(text, a, t) <==> AfterPunctuation(text, b, t)))
    && (feature != 2 ==> (BeforeConnective(text, a, t) <==> BeforeConnective(text, b, t)))
    && (feature != 3 ==> (AfterWeakChar(text, a, t) <==> AfterWeakChar(text, b, t)))
    && (feature != 4 ==> (BeforePunctuation(text, a, t) <==> BeforePunctuation(text, b, t)))
  }

  lemma StartsAfterCut(text: string, c: int, t: Tables)
    requires 0 < c < |text|
    ensures StartsWithAny(text[c..], t.cutBefore) <==> BeforeConnective(text, c, t)
  {
    forall p ensures p <= text[c..] <==> c + |p| <= |text| && text[c..c + |p|] == p {
      if c + |p| <= |text| { assert text[c..][..|p|] == text[c..c + |p|]; }
    }
  }

  /** What the score prefers. Among alike cuts the nearer one; a cut after punctuation even
      when it is up to ten characters further off; one before a connective up to six; one
      that is not after a weak character up to four; one not before punctuation up to eight. */
  lemma CutPreferences(text: string, a: int, b: int, desired: int, t: Tables)
    requires 0 < a < |text| && 0 < b < |text|
    ensures var near, far := (if a < desired then desired - a else a - desired),
                             (if b < desired then desired - b else b - desired);
            var wins := CutScore(text, a, desired, t) < CutScore(text, b, desired, t);
            && (AgreeBut(text, a, b, t, 0) ==> (wins <==> near < far))
            && (AgreeBut(text, a, b, t, 1) && AfterPunctuation(text, a, t) && !AfterPunctuation(text, b, t) ==>
                  (wins <==> near < far + 10))
            && (AgreeBut(text, a, b, t, 2) && BeforeConnective(text, a, t) && !BeforeConnective(text, b, t) ==>
                  (wins <==> near < far + 6))
            && (AgreeBut(text, a, b, t, 3) && !AfterWeakChar(text, a, t) && AfterWeakChar(text, b, t) ==>
                  (wins <==> near < far + 4))
            && (AgreeBut(text, a, b, t, 4) && !BeforePunctuation(text, a, t) && BeforePunctuation(text, b, t) ==>
                  (wins <==> near < far + 8))
  {
    hide StartsWithAny, BeforeConnective;
    StartsAfterCut(text, a, t);
    StartsAfterCut(text, b, t);
    assert Last(text[..a]) == text[a - 1] && Last(text[..b]) == text[b - 1];
    assert text[a..][0] == text[a] && text[b..][0] == text[b];
  }

  // ---------------------------------------------------------------- the cutting loop

  /** The chunks the loop of `split_long_run` produces from a stripped text. */
  ghost function Chunks(s: string, max: nat, t: Tables): seq<string>
    requires max > 0
    decreases |s|
  {
    if |s| <= max then (if Strip(s) != "" then [Strip(s)] else [])
    else
      var cut := ChooseCut(s, max, t);
      var left := Strip(s[..cut]);
      var right := Strip(s[cut..]);
      StripFacts(s[cut..]);
      if left == "" || right == "" then (if Strip(s) != "" then [Strip(s)] else [])
      else [left] + Chunks(right, max, t)
  }

  ghost function SplitRun(text: string, max: int, t: Tables): seq<string> {
    var stripped := Strip(text);
    if max <= 0 || |stripped| <= max then (if stripped != "" then [stripped] else [])
    else Chunks(stripped, max, t)
  }

  lemma TrimmedSides(s: string, cut: int)
    requires Trimmed(s) && 0 < cut < |s|
    ensures Strip(s[..cut]) != "" && Strip(s[cut..]) != ""
    ensures Trimmed(Strip(s[..cut])) && Trimmed(Strip(s[cut..]))
    ensures |Strip(s[cut..])| < |s|
    ensures Squeeze(s) == Squeeze(Strip(s[..cut])) + Squeeze(Strip(s[cut..]))
  {
    StripFacts(s[..cut]);
    StripFacts(s[cut..]);
    StripEmpty(s[..cut]);
    StripEmpty(s[cut..]);
    assert s[..cut][0] == s[0] && Last(s[cut..]) == Last(s);
    SqueezeNoSpace(s[..cut]);
    SqueezeNoSpace(s[cut..]);
    assert s[0] in s[..cut] && Last(s) in s[cut..];
    assert s == s[..cut] + s[cut..];
    SqueezeConcat(s[..cut], s[cut..]);
  }

  /** The loop of `split_long_run`, early exit included. That exit is never taken:
      both sides of the cut of a stripped text keep a visible character. */
  method SplitLongRun(text: string, max: int, t: Tables) returns (chunks: seq<string>)
    ensures chunks == SplitRun(text, max, t)
  {
    var stripped := Strip(text);
    StripFacts(text);
    if max <= 0 || |stripped| <= max {
      if stripped != "" { return [stripped]; } else { return []; }
    }
    chunks := [];
    var remaining := stripped;
    while |remaining| > max
      invariant Trimmed(remaining) && remaining != ""
      invariant SplitRun(text, max, t) == chunks + Chunks(remaining, max, t)
      decreases |remaining|
    {
      var cut := ChooseSafeSplitIndex(remaining, max, t);
      var left := Strip(remaining[..cut]);
      var right := Strip(remaining[cut..]);
      TrimmedSides(remaining, cut);
      if left == "" || right == "" {
        assert false;
        break;
      }
      chunks := chunks + [left];
      remaining := right;
    }
    StripTrimmed(remaining);
    if Strip(remaining) != "" {
      chunks := chunks + [Strip(remaining)];
    }
  }

  /** One turn of the loop on a stripped text longer than the limit. */
  lemma ChunksStep(s: string, max: nat, t: Tables)
    requires max > 0 && Trimmed(s) && |s| > max
    ensures var cut := ChooseCut(s, max, t);
            && 0 < cut < |s|
            && Chunks(s, max, t) == [Strip(s[..cut])] + Chunks(Strip(s[cut..]), max, t)
            && Strip(s[cut..]) != "" && Trimmed(Strip(s[cut..])) && |Strip(s[cut..])| < |s|
  {
    TrimmedSides(s, ChooseCut(s, max, t));
  }

  lemma OneChunkOnly(s: string, max: nat, t: Tables)
    requires max > 0 && Trimmed(s) && s != "" && |s| <= max
    ensures Chunks(s, max, t) == [s]
  {
    StripTrimmed(s);
  }

  lemma {:induction false} ChunksConserve(s: string, max: nat, t: Tables)
    requires max > 0 && Trimmed(s) && s != ""
    ensures Conserves(Chunks(s, max, t), s)
    decreases |s|
  {
    if |s| <= max {
      StripTrimmed(s);
      JoinOne(s);
    } else {
      var cut := ChooseCut(s, max, t);
      ChunksStep(s, max, t);
      TrimmedSides(s, cut);
      ChunksConserve(Strip(s[cut..]), max, t);
      JoinOne(Strip(s[..cut]));
      SqueezeJoinConcat([Strip(s[..cut])], Chunks(Strip(s[cut..]), max, t));
    }
  }

  /** Clean chunks; the last is within the limit; a run over the limit is really cut. */
  lemma {:induction false} ChunksShape(s: string, max: nat, t: Tables)
    requires max > 0 && Trimmed(s) && s != ""
    ensures Clean(Chunks(s, max, t)) && Chunks(s, max, t) != []
    ensures |Last(Chunks(s, max, t))| <= max
    ensures |s| > max <==> |Chunks(s, max, t)| >= 2
    decreases |s|
  {
    hide Chunks, ChooseCut, Strip, Lead, IsSpace;
    if |s| <= max {
      OneChunkOnly(s, max, t);
    } else {
      var cut := ChooseCut(s, max, t);
      ChunksStep(s, max, t);
      TrimmedSides(s, cut);
      ChunksShape(Strip(s[cut..]), max, t);
    }
  }

  lemma SplitRunFacts(text: string, max: int, t: Tables)
    ensures Conserves(SplitRun(text, max, t), text)
    ensures Clean(SplitRun(text, max, t))
    ensures SplitRun(text, max, t) == [] <==> Strip(text) == ""
    ensures max > 0 && |Strip(text)| > max <==> |SplitRun(text, max, t)| >= 2
    ensures max > 0 && Strip(text) != "" ==> |Last(SplitRun(text, max, t))| <= max
  {
    StripFacts(text);
    var s := Strip(text);
    JoinOne(s);
    if max > 0 && |s| > max { ChunksConserve(s, max, t); ChunksShape(s, max, t); }
  }

  /** Every turn of the loop finds a safe cut inside its search window. */
  ghost predicate WindowsHoldSafeCuts(s: string, max: nat, t: Tables)
    requires max > 0
    decreases |s|
  {
    |s| <= max || (
      var cut := ChooseCut(s, max, t);
      StripFacts(s[cut..]);
      && (exists c :: WindowLow(s, max) <= c <= WindowHigh(s, max) && Safe(s, c, t.terms))
      && WindowsHoldSafeCuts(Strip(s[cut..]), max, t))
  }

  /** Then no chunk is longer than the limit plus 30. */
  lemma {:induction false} ChunkLengths(s: string, max: nat, t: Tables)
    requires max > 0 && Trimmed(s) && s != "" && WindowsHoldSafeCuts(s, max, t)
    ensures forall k :: 0 <= k < |Chunks(s, max, t)| ==> |Chunks(s, max, t)[k]| <= max + 30
    decreases |s|
  {
    if |s| <= max {
      StripTrimmed(s);
    } else {
      var cut := ChooseCut(s, max, t);
      ChunksStep(s, max, t);
      ChooseCutFacts(s, max, t);
      StripFacts(s[..cut]);
      ChunkLengths(Strip(s[cut..]), max, t);
    }
  }
}
