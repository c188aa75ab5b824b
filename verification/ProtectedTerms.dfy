/** When the long-run cutter keeps protected terms in one piece. */
module ProtectedTerms {
  import opened Sequences
  import opened Text
  import opened LongRun

  /** Terms are non-empty and start and end with a visible character. */
  ghost predicate WellFormed(terms: seq<string>) {
    forall term :: term in terms ==> term != "" && Trimmed(term)
  }

  lemma DefaultTermsWellFormed()
    ensures WellFormed(DEFAULT_TERMS)
  {
    assert forall k :: 0 <= k < |DEFAULT_TERMS| ==>
      DEFAULT_TERMS[k] != "" && !IsSpace(DEFAULT_TERMS[k][0]) && !IsSpace(Last(DEFAULT_TERMS[k]));
  }

  /** The slice [i, j) lies inside one of the spans. */
  ghost predicate Whole(spans: seq<(int, int)>, i: int, j: int) {
    exists k :: 0 <= k < |spans| && spans[k].0 <= i && j <= spans[k].1
  }

  ghost function Shift(spans: seq<(int, int)>, d: int): seq<(int, int)> {
    seq(|spans|, k requires 0 <= k < |spans| => (spans[k].0 + d, spans[k].1 + d))
  }

  /** Where the right-hand side of a cut, stripped, starts in the text. */
  ghost function RightStart(s: string, cut: nat): int
    requires cut <= |s|
  {
    cut + Lead(s[cut..])
  }

  /** The positions of the chunks inside the text they are cut from. */
  ghost function ChunkSpans(s: string, max: nat, t: Tables): seq<(int, int)>
    requires max > 0 && Trimmed(s)
    decreases |s|
  {
    if |s| <= max then [(0, |s|)]
    else
      ChunksStep(s, max, t);
      var cut := ChooseCut(s, max, t);
      var left := s[..cut];
      [(Lead(left), Lead(left) + |Strip(left)|)]
      + Shift(ChunkSpans(Strip(s[cut..]), max, t), RightStart(s, cut))
  }

  lemma SidesLocated(s: string, cut: nat)
    requires cut <= |s|
    ensures var l := Lead(s[..cut]);
            l + |Strip(s[..cut])| <= cut && Strip(s[..cut]) == s[l..l + |Strip(s[..cut])|]
    ensures var r := RightStart(s, cut);
            cut <= r && r + |Strip(s[cut..])| <= |s| && Strip(s[cut..]) == s[r..r + |Strip(s[cut..])|]
  {
    StripSlice(s[..cut]);
    StripSlice(s[cut..]);
  }

  /** Some index strictly inside [a, b) can be cut at without splitting a term. */
  ghost predicate HasSafeCut(s: string, a: int, b: int, terms: seq<string>) {
    exists c :: a < c < b && Safe(s, c, terms)
  }

  /** Every turn of the loop has some index that splits no term. */
  ghost predicate EveryTurnSafe(s: string, max: nat, t: Tables)
    requires max > 0 && Trimmed(s)
    decreases |s|
  {
    |s| <= max || (
      ChunksStep(s, max, t);
      && HasSafeCut(s, 0, |s|, t.terms)
      && EveryTurnSafe(Strip(s[ChooseCut(s, max, t)..]), max, t))
  }

  /** One turn of the loop: the text is cut in two, `cut` and `right` describe it. */
  ghost predicate Turn(s: string, max: nat, t: Tables, cut: nat, right: string) {
    && max > 0 && Trimmed(s) && |s| > max
    && cut == ChooseCut(s, max, t) && 0 < cut < |s|
    && right == Strip(s[cut..]) && Trimmed(right) && right != "" && |right| < |s|
  }

  lemma TakeTurn(s: string, max: nat, t: Tables) returns (cut: nat, right: string)
    requires max > 0 && Trimmed(s) && |s| > max
    ensures Turn(s, max, t, cut, right)
    ensures Chunks(s, max, t) == [Strip(s[..cut])] + Chunks(right, max, t)
  {
    hide ChooseCut, Strip, IsSpace;
    cut := ChooseCut(s, max, t);
    right := Strip(s[cut..]);
    ChunksStep(s, max, t);
  }

  lemma TurnSpans(s: string, max: nat, t: Tables, cut: nat, right: string)
    requires Turn(s, max, t, cut, right)
    ensures var l := Lead(s[..cut]);
            ChunkSpans(s, max, t)
            == [(l, l + |Strip(s[..cut])|)] + Shift(ChunkSpans(right, max, t), RightStart(s, cut))
  {
    hide ChooseCut, Strip, IsSpace, Shift;
  }

  lemma TurnSafe(s: string, max: nat, t: Tables, cut: nat, right: string)
    requires Turn(s, max, t, cut, right)
    ensures EveryTurnSafe(s, max, t) <==> HasSafeCut(s, 0, |s|, t.terms) && EveryTurnSafe(right, max, t)
  {
    hide ChooseCut, Strip, IsSpace, HasSafeCut;
  }

  ghost predicate Located(spans: seq<(int, int)>, chunks: seq<string>, s: string) {
    && |spans| == |chunks|
    && (forall k :: 0 <= k < |spans| ==>
          0 <= spans[k].0 <= spans[k].1 <= |s| && chunks[k] == s[spans[k].0..spans[k].1])
    && (forall k :: 0 < k < |spans| ==> spans[k - 1].1 <= spans[k].0)
  }

  lemma LocatedCons(a: int, b: int, spans: seq<(int, int)>, chunks: seq<string>, s: string, r: int, right: string)
    requires Located(spans, chunks, right)
    requires 0 <= a <= b <= r && r + |right| <= |s| && right == s[r..r + |right|]
    ensures Located([(a, b)] + Shift(spans, r), [s[a..b]] + chunks, s)
  {
    var all, pieces := [(a, b)] + Shift(spans, r), [s[a..b]] + chunks;
    forall k | 1 <= k < |all|
      ensures 0 <= all[k].0 <= all[k].1 <= |s| && pieces[k] == s[all[k].0..all[k].1]
      ensures all[k - 1].1 <= all[k].0
    {
      var (u, v) := spans[k - 1];
      assert all[k] == (u + r, v + r) && pieces[k] == chunks[k - 1] == right[u..v];
      SliceOfSlice(s, r, right, u, v);
      if k > 1 { assert all[k - 1] == (spans[k - 2].0 + r, spans[k - 2].1 + r); }
    }
  }

  lemma OneChunk(s: string, max: nat, t: Tables)
    requires max > 0 && Trimmed(s) && s != "" && |s| <= max
    ensures Located(ChunkSpans(s, max, t), Chunks(s, max, t), s)
    ensures EveryTurnSafe(s, max, t)
  {
    StripTrimmed(s);
  }

  /** The spans are where the chunks are: in order, disjoint, and with the chunks' text. */
  lemma {:induction false} SpansLocateChunks(s: string, max: nat, t: Tables)
    requires max > 0 && Trimmed(s) && s != ""
    ensures Located(ChunkSpans(s, max, t), Chunks(s, max, t), s)
    decreases |s|
  {
    hide Strip, Lead, Chunks, ChunkSpans, Located, Shift, ChooseCut;
    if |s| <= max {
      OneChunk(s, max, t);
    } else {
      var cut, right := TakeTurn(s, max, t);
      TurnSpans(s, max, t, cut, right);
      TurnSafe(s, max, t, cut, right);
      SidesLocated(s, cut);
      SpansLocateChunks(right, max, t);
      var l := Lead(s[..cut]);
      LocatedCons(l, l + |Strip(s[..cut])|, ChunkSpans(right, max, t), Chunks(right, max, t), s,
                  RightStart(s, cut), right);
    }
  }

  lemma LowerKeepsSpace(c: char)
    ensures IsSpace(LowerChar(c)) == IsSpace(c)
  {
  }

  /** A term occurrence starts and ends with a visible character. */
  lemma TermEdges(s: string, terms: seq<string>, i: int, j: int)
    requires WellFormed(terms) && TermSpan(s, terms, i, j)
    ensures 0 <= i < j <= |s| && !IsSpace(s[i]) && !IsSpace(s[j - 1])
  {
    var term :| term in terms && OccursAt(s, term, i) && j == i + |term|;
    var slice := s[i..j];
    assert Lower(slice)[0] == LowerChar(s[i]) && Lower(term)[0] == LowerChar(term[0]);
    assert Lower(slice)[|term| - 1] == LowerChar(s[j - 1]) && Lower(term)[|term| - 1] == LowerChar(Last(term));
    LowerKeepsSpace(s[i]);
    LowerKeepsSpace(term[0]);
    LowerKeepsSpace(s[j - 1]);
    LowerKeepsSpace(Last(term));
  }

  lemma OccursInSlice(s: string, off: int, sub: string, term: string, i: int)
    requires 0 <= off && off + |sub| <= |s| && sub == s[off..off + |sub|]
    requires 0 <= i && i + |term| <= |sub|
    ensures OccursAt(sub, term, i) <==> OccursAt(s, term, i + off)
  {
    hide Lower;
    SliceOfSlice(s, off, sub, i, i + |term|);
  }

  /** Term occurrences of a slice are those of the text that lie inside the slice. */
  lemma TermsOfSlice(s: string, off: int, sub: string, terms: seq<string>, i: int, j: int)
    requires 0 <= off && off + |sub| <= |s| && sub == s[off..off + |sub|]
    requires 0 <= i && j <= |sub|
    ensures TermSpan(sub, terms, i, j) <==> TermSpan(s, terms, i + off, j + off)
  {
    forall term | term in terms && j == i + |term|
      ensures OccursAt(sub, term, i) <==> OccursAt(s, term, i + off)
    {
      OccursInSlice(s, off, sub, term, i);
    }
    hide OccursAt;
    if TermSpan(sub, terms, i, j) {
      var term :| term in terms && OccursAt(sub, term, i) && j == i + |term|;
      assert OccursAt(s, term, i + off);
    }
    if TermSpan(s, terms, i + off, j + off) {
      var term :| term in terms && OccursAt(s, term, i + off) && j + off == i + off + |term|;
      assert OccursAt(sub, term, i);
    }
  }

  /** Occurrences on either side of a cut sit inside the stripped sides. */
  lemma SideOccurrence(s: string, cut: nat, terms: seq<string>, i: int, j: int)
    requires cut <= |s| && WellFormed(terms) && TermSpan(s, terms, i, j)
    ensures j <= cut ==> Lead(s[..cut]) <= i && j <= Lead(s[..cut]) + |Strip(s[..cut])|
    ensures cut <= i ==> RightStart(s, cut) <= i && j <= RightStart(s, cut) + |Strip(s[cut..])|
  {
    TermEdges(s, terms, i, j);
    StripSlice(s[..cut]);
    StripSlice(s[cut..]);
    if j <= cut {
      assert !IsSpace(s[..cut][i]) && !IsSpace(s[..cut][j - 1]);
    }
    if cut <= i {
      assert !IsSpace(s[cut..][i - cut]) && !IsSpace(s[cut..][j - 1 - cut]);
    }
  }

  lemma WholeShift(spans: seq<(int, int)>, d: int, i: int, j: int)
    ensures Whole(Shift(spans, d), i, j) <==> Whole(spans, i - d, j - d)
  {
    if Whole(spans, i - d, j - d) {
      var k :| 0 <= k < |spans| && spans[k].0 <= i - d && j - d <= spans[k].1;
      assert Shift(spans, d)[k].0 <= i;
    }
  }

  lemma WholeCons(x: (int, int), spans: seq<(int, int)>, i: int, j: int)
    ensures Whole([x] + spans, i, j) <==> (x.0 <= i && j <= x.1) || Whole(spans, i, j)
  {
    var all := [x] + spans;
    if x.0 <= i && j <= x.1 { assert all[0] == x; }
    if Whole(spans, i, j) {
      var k :| 0 <= k < |spans| && spans[k].0 <= i && j <= spans[k].1;
      assert all[k + 1] == spans[k];
    }
  }

  /** Being whole after one turn: inside the left side, or whole in the right side. */
  lemma WholeStep(s: string, max: nat, t: Tables, cut: nat, right: string, i: int, j: int)
    requires Turn(s, max, t, cut, right)
    ensures var l := Lead(s[..cut]); var r := RightStart(s, cut);
            Whole(ChunkSpans(s, max, t), i, j) <==>
              (l <= i && j <= l + |Strip(s[..cut])|) || Whole(ChunkSpans(right, max, t), i - r, j - r)
  {
    hide Strip, Lead, ChunkSpans, Whole, Shift;
    TurnSpans(s, max, t, cut, right);
    var l := Lead(s[..cut]);
    var inner := ChunkSpans(right, max, t);
    WholeShift(inner, RightStart(s, cut), i, j);
    WholeCons((l, l + |Strip(s[..cut])|), Shift(inner, RightStart(s, cut)), i, j);
  }

  lemma OneChunkWhole(s: string, max: nat, t: Tables, i: int, j: int)
    requires max > 0 && Trimmed(s) && |s| <= max
    requires 0 <= i && j <= |s|
    ensures Whole(ChunkSpans(s, max, t), i, j)
  {
    assert ChunkSpans(s, max, t)[0] == (0, |s|);
  }

  /** A turn with a safe index spares the occurrence: it lies on one side of the cut. */
  lemma TurnSpares(s: string, max: nat, t: Tables, i: int, j: int)
    requires |s| >= 2 && HasSafeCut(s, 0, |s|, t.terms) && TermSpan(s, t.terms, i, j)
    ensures j <= ChooseCut(s, max, t) || ChooseCut(s, max, t) <= i
  {
    hide ChooseCut;
    ChooseCutFacts(s, max, t);
  }

  lemma {:induction false} SafeTurnsKeepTerm(s: string, max: nat, t: Tables, i: int, j: int)
    requires max > 0 && Trimmed(s) && WellFormed(t.terms)
    requires EveryTurnSafe(s, max, t) && TermSpan(s, t.terms, i, j)
    ensures Whole(ChunkSpans(s, max, t), i, j)
    decreases |s|
  {
    hide Strip, IsSpace, Lead, Safe, ChunkSpans, Whole, Chunks, EveryTurnSafe, HasSafeCut, TermSpan,
         Shift, ChooseCut;
    TermEdges(s, t.terms, i, j);
    if |s| <= max {
      OneChunkWhole(s, max, t, i, j);
    } else {
      var cut, right := TakeTurn(s, max, t);
      TurnSpans(s, max, t, cut, right);
      TurnSafe(s, max, t, cut, right);
      TurnSpares(s, max, t, i, j);
      SideOccurrence(s, cut, t.terms, i, j);
      WholeStep(s, max, t, cut, right, i, j);
      if cut <= i {
        var r := RightStart(s, cut);
        SidesLocated(s, cut);
        TermsOfSlice(s, r, right, t.terms, i - r, j - r);
        SafeTurnsKeepTerm(right, max, t, i - r, j - r);
      }
    }
  }

  /** No chunk contains anything that starts before the text. */
  lemma SpansStartInside(s: string, max: nat, t: Tables, i: int, j: int)
    requires max > 0 && Trimmed(s) && s != "" && i < 0
    ensures !Whole(ChunkSpans(s, max, t), i, j)
  {
    SpansLocateChunks(s, max, t);
  }

  /** A turn without a safe index cuts some occurrence in two. */
  lemma TurnBreaks(s: string, max: nat, t: Tables, cut: nat) returns (i: int, j: int)
    requires 0 < cut < |s| && !HasSafeCut(s, 0, |s|, t.terms)
    ensures TermSpan(s, t.terms, i, j) && i < cut < j
  {
    assert !Safe(s, cut, t.terms);
    i, j :| TermSpan(s, t.terms, i, j) && i < cut < j;
  }

  lemma {:induction false} UnsafeTurnBreaksTerm(s: string, max: nat, t: Tables) returns (i: int, j: int)
    requires max > 0 && Trimmed(s) && s != "" && WellFormed(t.terms) && !EveryTurnSafe(s, max, t)
    ensures TermSpan(s, t.terms, i, j) && !Whole(ChunkSpans(s, max, t), i, j)
    decreases |s|
  {
    hide Strip, IsSpace, Lead, Safe, Located, ChunkSpans, Whole, Chunks, EveryTurnSafe, HasSafeCut, TermSpan,
         Shift, ChooseCut;
    if |s| <= max { OneChunk(s, max, t); }
    var cut, right := TakeTurn(s, max, t);
    TurnSafe(s, max, t, cut, right);
    var r := RightStart(s, cut);
    SidesLocated(s, cut);
    if HasSafeCut(s, 0, |s|, t.terms) {
      var i', j' := UnsafeTurnBreaksTerm(right, max, t);
      i, j := i' + r, j' + r;
      TermEdges(right, t.terms, i', j');
      TermsOfSlice(s, r, right, t.terms, i', j');
    } else {
      i, j := TurnBreaks(s, max, t, cut);
      SpansStartInside(right, max, t, i - r, j - r);
    }
    WholeStep(s, max, t, cut, right, i, j);
  }

  /** The cutter keeps every occurrence of every protected term in one chunk if and only
      if each of its turns has a safe index to choose. */
  lemma TermsSurviveIffEveryTurnSafe(s: string, max: nat, t: Tables)
    requires max > 0 && Trimmed(s) && s != "" && WellFormed(t.terms)
    ensures EveryTurnSafe(s, max, t) <==>
              forall i, j :: TermSpan(s, t.terms, i, j) ==> Whole(ChunkSpans(s, max, t), i, j)
  {
    hide EveryTurnSafe, TermSpan, Whole, ChunkSpans;
    if EveryTurnSafe(s, max, t) {
      forall i, j | TermSpan(s, t.terms, i, j) ensures Whole(ChunkSpans(s, max, t), i, j) {
        SafeTurnsKeepTerm(s, max, t, i, j);
      }
    } else {
      var i, j := UnsafeTurnBreaksTerm(s, max, t);
    }
  }

  /** No slice longer than the limit is covered by overlapping terms from end to end. */
  ghost predicate NoLongCluster(s: string, max: nat, terms: seq<string>) {
    forall a, b :: 0 <= a <= b <= |s| && b - a > max ==> HasSafeCut(s, a, b, terms)
  }

  lemma SafeInSlice(s: string, off: int, sub: string, terms: seq<string>, c: int)
    requires 0 <= off && off + |sub| <= |s| && sub == s[off..off + |sub|]
    requires off < c < off + |sub| && Safe(s, c, terms) && WellFormed(terms)
    ensures Safe(sub, c - off, terms)
  {
    hide TermSpan;
    forall i, j | TermSpan(sub, terms, i, j) ensures !(i < c - off < j) {
      TermEdges(sub, terms, i, j);
      TermsOfSlice(s, off, sub, terms, i, j);
    }
  }

  lemma ClusterOfSlice(s: string, off: int, sub: string, max: nat, terms: seq<string>)
    requires 0 <= off && off + |sub| <= |s| && sub == s[off..off + |sub|]
    requires NoLongCluster(s, max, terms) && WellFormed(terms)
    ensures NoLongCluster(sub, max, terms)
  {
    hide Safe, WellFormed;
    forall a, b | 0 <= a <= b <= |sub| && b - a > max ensures HasSafeCut(sub, a, b, terms) {
      assert HasSafeCut(s, a + off, b + off, terms);
      var c :| a + off < c < b + off && Safe(s, c, terms);
      SafeInSlice(s, off, sub, terms, c);
      assert a < c - off < b;
    }
  }

  lemma EmptyIsSafe(max: nat, t: Tables)
    requires max > 0
    ensures EveryTurnSafe("", max, t)
  {
  }

  /** A condition on the text alone: without an over-long cluster of overlapping terms
      every turn is safe, so every protected term survives. */
  lemma {:induction false} ShortClustersAreSafe(s: string, max: nat, t: Tables)
    requires max > 0 && Trimmed(s) && WellFormed(t.terms) && NoLongCluster(s, max, t.terms)
    ensures EveryTurnSafe(s, max, t)
    decreases |s|
  {
    hide Strip, IsSpace, Lead, HasSafeCut, EveryTurnSafe, WellFormed, ChunkSpans, Chunks, Shift, ChooseCut, Located;
    if |s| <= max {
      if s != "" { OneChunk(s, max, t); } else { EmptyIsSafe(max, t); }
    } else {
      var cut, right := TakeTurn(s, max, t);
      TurnSpans(s, max, t, cut, right);
      TurnSafe(s, max, t, cut, right);
      SidesLocated(s, cut);
      ClusterOfSlice(s, RightStart(s, cut), right, max, t.terms);
      ShortClustersAreSafe(right, max, t);
    }
  }
}
