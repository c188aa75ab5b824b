/** How much of the expected ending was heard (`lcs_len`, `tail_completeness`). */
module TailRecall {
  import opened Numbers
  import opened Sequences

  /** Length of the longest common sub-sequence, by its recursive definition. */
  function Lcs(left: string, right: string): nat
    decreases |left| + |right|
  {
    if left == "" || right == "" then 0
    else if Last(left) == Last(right) then Lcs(Init(left), Init(right)) + 1
    else Max(Lcs(Init(left), right), Lcs(left, Init(right)))
  }

  lemma LcsNext(left: string, right: string, i: nat, j: nat)
    requires i < |left| && j < |right|
    ensures Lcs(left[..i + 1], right[..j + 1]) ==
            if left[i] == right[j] then Lcs(left[..i], right[..j]) + 1
            else Max(Lcs(left[..i], right[..j + 1]), Lcs(left[..i + 1], right[..j]))
  {
    assert Init(left[..i + 1]) == left[..i] && Init(right[..j + 1]) == right[..j];
  }

  /** The table is filled row by row; only the previous row is kept. */
  method LcsLen(left: string, right: string) returns (n: nat)
    ensures n == Lcs(left, right)
  {
    if left == "" || right == "" { return 0; }
    var prev := new nat[|right| + 1](_ => 0);
    for i := 0 to |left|
      invariant prev.Length == |right| + 1
      invariant forall j :: 0 <= j <= |right| ==> prev[j] == Lcs(left[..i], right[..j])
    {
      var curr := new nat[|right| + 1](_ => 0);
      for j := 0 to |right|
        invariant prev.Length == curr.Length == |right| + 1
        invariant forall k :: 0 <= k <= |right| ==> prev[k] == Lcs(left[..i], right[..k])
        invariant forall k :: 0 <= k <= j ==> curr[k] == Lcs(left[..i + 1], right[..k])
      {
        LcsNext(left, right, i, j);
        if left[i] == right[j] {
          curr[j + 1] := prev[j] + 1;
        } else {
          curr[j + 1] := Max(prev[j + 1], curr[j]);
        }
      }
      prev := curr;
    }
    assert left[..|left|] == left && right[..|right|] == right;
    n := prev[|right|];
  }

  /** No common sub-sequence is longer. */
  lemma {:induction false} LcsIsUpperBound(s: string, left: string, right: string)
    requires IsSubseq(s, left) && IsSubseq(s, right)
    ensures |s| <= Lcs(left, right)
    decreases |left| + |right|
  {
    if s != "" {
      if Last(left) == Last(right) {
        if IsSubseq(s, Init(left)) { SubseqInit(s, Init(left)); }
        if IsSubseq(s, Init(right)) { SubseqInit(s, Init(right)); }
        LcsIsUpperBound(Init(s), Init(left), Init(right));
      } else if IsSubseq(s, Init(left)) {
        LcsIsUpperBound(s, Init(left), right);
      } else {
        LcsIsUpperBound(s, left, Init(right));
      }
    }
  }

  /** A common sub-sequence of that length exists. */
  lemma {:induction false} LcsIsReached(left: string, right: string) returns (s: string)
    ensures IsSubseq(s, left) && IsSubseq(s, right) && |s| == Lcs(left, right)
    decreases |left| + |right|
  {
    if left == "" || right == "" {
      s := "";
    } else if Last(left) == Last(right) {
      var t := LcsIsReached(Init(left), Init(right));
      s := t + [Last(left)];
      assert Init(s) == t;
    } else if Lcs(Init(left), right) >= Lcs(left, Init(right)) {
      s := LcsIsReached(Init(left), right);
    } else {
      s := LcsIsReached(left, Init(right));
    }
  }

  /** The length is at most that of the left text, and equal to it exactly when the left
      text is a sub-sequence of the right one. */
  lemma LcsFullIffSubseq(left: string, right: string)
    ensures Lcs(left, right) <= |left|
    ensures Lcs(left, right) == |left| <==> IsSubseq(left, right)
  {
    var s := LcsIsReached(left, right);
    SubseqLength(s, left);
    if IsSubseq(left, right) {
      SubseqRefl(left);
      LcsIsUpperBound(left, left, right);
    }
  }

  // ---------------------------------------------------------------- tail completeness

  function Spoken(text: string, isSpoken: char -> bool): string {
    if text == "" then ""
    else Spoken(Init(text), isSpoken) + if isSpoken(Last(text)) then [Last(text)] else ""
  }

  /** The spoken characters of a text, all of them and nothing else, in their order. */
  lemma {:induction false} SpokenFacts(text: string, isSpoken: char -> bool)
    ensures IsSubseq(Spoken(text, isSpoken), text)
    ensures forall c :: multiset(Spoken(text, isSpoken))[c] == if isSpoken(c) then multiset(text)[c] else 0
  {
    if text != "" {
      var front, last := Init(text), Last(text);
      SpokenFacts(front, isSpoken);
      assert text == front + [last];
      assert IsSubseq([last], [last]) && IsSubseq("", [last]);
      SubseqConcat(Spoken(front, isSpoken), front, if isSpoken(last) then [last] else "", [last]);
    }
  }

  /** `normalize_spoken_tail_text`: lower-cased, letters, digits and ideographs only. */
  function Normalize(text: string, lower: string -> string, isSpoken: char -> bool): string {
    Spoken(lower(text), isSpoken)
  }

  /** `text[-n:]` for positive n. */
  function LastChars(text: string, n: nat): (tail: string)
    ensures |tail| == Min(n, |text|)
    ensures tail == text[|text| - |tail|..]
  {
    if |text| <= n then text else text[|text| - n..]
  }

  datatype Tail = Tail(recall: real, expected: string, window: string)

  /** `tail_completeness`: None when the expected text is too short or nothing was heard. */
  method TailCompleteness(expected: string, observed: string, lower: string -> string,
                          isSpoken: char -> bool, tailLen: nat) returns (tail: Option<Tail>)
    requires tailLen >= 1
    ensures var e, o := Spoken(lower(expected), isSpoken), Spoken(lower(observed), isSpoken);
            && (tail == None <==> |e| < tailLen || o == "")
            && (tail.Some? ==>
                  && tail.value.expected == LastChars(e, tailLen)
                  && tail.value.window == LastChars(o, Max(12, tailLen * 4))
                  && |tail.value.expected| == tailLen
                  && tail.value.recall == Lcs(tail.value.expected, tail.value.window) as real / tailLen as real)
  {
    var e, o := Normalize(expected, lower, isSpoken), Normalize(observed, lower, isSpoken);
    if |e| < tailLen || o == "" { return None; }
    var expectedTail := LastChars(e, tailLen);
    var window := LastChars(o, Max(12, tailLen * 4));
    var n := LcsLen(expectedTail, window);
    return Some(Tail(n as real / |expectedTail| as real, expectedTail, window));
  }

  /** Tail recall lies in [0, 1], and is 1 exactly when the whole expected tail is heard
      in order within the window. */
  lemma TailRecallRange(expected: string, window: string)
    requires expected != ""
    ensures var recall := Lcs(expected, window) as real / |expected| as real;
            0.0 <= recall <= 1.0 && (recall == 1.0 <==> IsSubseq(expected, window))
  {
    hide Lcs, IsSubseq;
    LcsFullIffSubseq(expected, window);
    RatioRange(Lcs(expected, window), |expected|);
  }

  lemma RatioRange(n: nat, d: nat)
    requires n <= d && d > 0
    ensures 0.0 <= n as real / d as real <= 1.0
    ensures n as real / d as real == 1.0 <==> n == d
  {
  }
}
