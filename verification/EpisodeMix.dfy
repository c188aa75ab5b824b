/** Placing, clipping and mixing the dubbed segments of a chapter (`lora_episode_assemble.py`). */
module EpisodeMix {
  import opened Numbers
  import opened Sequences

  const BREATH_MARGIN_MS := 300
  const MAX_OVERLAYS_PER_PASS := 30

  /** A timeline row with the audio chosen for it. */
  datatype Row = Row(segmentId: int, startMs: int, durationMs: int, audioExists: bool)

  datatype Overlay = Overlay(delayMs: int, durationMs: int, maxMs: int)

  // ---------------------------------------------------------------- slots and clipping

  /** `next_start_by_id`: where the following row starts, by segment id. */
  function NextStarts(rows: seq<Row>): map<int, int> {
    if |rows| <= 1 then map[]
    else NextStarts(Init(rows))[rows[|rows| - 2].segmentId := Last(rows).startMs]
  }

  /** The time up to the next start less a breath, or 0 for no limit. */
  function SlotLimit(row: Row, next: map<int, int>): int {
    if row.segmentId in next then Max(0, next[row.segmentId] - row.startMs - BREATH_MARGIN_MS) else 0
  }

  function ClippedMs(durationMs: int, maxMs: int): int {
    if maxMs > 0 then Max(0, durationMs - maxMs) else 0
  }

  /** Length that `clip_and_fade_filter` keeps. */
  function KeptMs(actualMs: int, maxMs: int): int {
    if maxMs > 0 && maxMs < actualMs then maxMs else actualMs
  }

  function EndMs(o: Overlay): int { o.delayMs + KeptMs(o.durationMs, o.maxMs) }

  predicate Sounds(row: Row) { row.audioExists && row.durationMs > 0 }

  function OverlayOf(row: Row, next: map<int, int>): Overlay {
    Overlay(row.startMs, row.durationMs, SlotLimit(row, next))
  }

  function OverlaysOf(rows: seq<Row>, next: map<int, int>): seq<Overlay> {
    if rows == [] then []
    else OverlaysOf(Init(rows), next) + if Sounds(Last(rows)) then [OverlayOf(Last(rows), next)] else []
  }

  function ClippedOf(rows: seq<Row>, next: map<int, int>): seq<int> {
    seq(|rows|, i requires 0 <= i < |rows| => ClippedMs(rows[i].durationMs, SlotLimit(rows[i], next)))
  }

  method CollectNextStarts(rows: seq<Row>) returns (next: map<int, int>)
    ensures next == NextStarts(rows)
  {
    next := map[];
    for idx := 0 to Max(0, |rows| - 1)
      invariant if rows == [] then next == map[] else next == NextStarts(rows[..idx + 1])
    {
      assert Init(rows[..idx + 2]) == rows[..idx + 1];
      next := next[rows[idx].segmentId := rows[idx + 1].startMs];
    }
    assert rows[..|rows|] == rows;
  }

  lemma OverlaysNext(rows: seq<Row>, next: map<int, int>, k: nat)
    requires k < |rows|
    ensures OverlaysOf(rows[..k + 1], next)
            == OverlaysOf(rows[..k], next) + if Sounds(rows[k]) then [OverlayOf(rows[k], next)] else []
  {
    assert Init(rows[..k + 1]) == rows[..k];
  }

  /** The loops of `main` over the rows of one chapter. */
  method PlaceChapter(rows: seq<Row>) returns (overlays: seq<Overlay>, clipped: seq<int>)
    ensures overlays == OverlaysOf(rows, NextStarts(rows))
    ensures clipped == ClippedOf(rows, NextStarts(rows))
  {
    hide NextStarts, OverlaysOf;
    var next := CollectNextStarts(rows);
    NoOverlays(next);
    assert rows[..0] == [];
    overlays, clipped := [], [];
    for k := 0 to |rows|
      invariant overlays == OverlaysOf(rows[..k], next) && clipped == ClippedOf(rows, next)[..k]
    {
      OverlaysNext(rows, next, k);
      var row := rows[k];
      var maxMs := 0;
      if row.segmentId in next {
        var slotMs := next[row.segmentId] - row.startMs - BREATH_MARGIN_MS;
        if slotMs > 0 { maxMs := slotMs; }
      }
      assert maxMs == SlotLimit(row, next);
      clipped := clipped + [if maxMs > 0 then Max(0, row.durationMs - maxMs) else 0];
      if row.audioExists && row.durationMs > 0 {
        overlays := overlays + [Overlay(row.startMs, row.durationMs, maxMs)];
      }
    }
    assert rows[..|rows|] == rows;
  }

  lemma NoOverlays(next: map<int, int>)
    ensures OverlaysOf([], next) == []
  {
  }

  /** What is kept and what is clipped add up to the audio. */
  lemma KeptPlusClipped(durationMs: int, maxMs: int)
    requires durationMs >= 0
    ensures KeptMs(durationMs, maxMs) + ClippedMs(durationMs, maxMs) == durationMs
    ensures durationMs > 0 ==> KeptMs(durationMs, maxMs) > 0
  {
  }

  ghost predicate UniqueIds(rows: seq<Row>) {
    forall i, j :: 0 <= i < j < |rows| ==> rows[i].segmentId != rows[j].segmentId
  }

  /** With unique ids the table gives every row but the last its successor's start. */
  lemma {:induction false} NextStartsFacts(rows: seq<Row>)
    requires UniqueIds(rows)
    ensures forall i :: 0 <= i < |rows| - 1 ==>
              rows[i].segmentId in NextStarts(rows) && NextStarts(rows)[rows[i].segmentId] == rows[i + 1].startMs
    ensures rows != [] ==> Last(rows).segmentId !in NextStarts(rows)
    ensures forall id :: id in NextStarts(rows) ==> exists i :: 0 <= i < |rows| - 1 && rows[i].segmentId == id
  {
    if |rows| > 1 {
      var front, prev := Init(rows), rows[|rows| - 2];
      NextStartsFacts(front);
      var before, next := NextStarts(front), NextStarts(rows);
      assert next == before[prev.segmentId := Last(rows).startMs];
      hide NextStarts;
      forall i | 0 <= i < |rows| - 1
        ensures rows[i].segmentId in next && next[rows[i].segmentId] == rows[i + 1].startMs
      {
        if i < |front| - 1 { assert front[i] == rows[i] && front[i + 1] == rows[i + 1]; }
      }
      forall id | id in next ensures exists i :: 0 <= i < |rows| - 1 && rows[i].segmentId == id {
        if id == prev.segmentId {
          assert rows[|rows| - 2].segmentId == id;
        } else {
          var i :| 0 <= i < |front| - 1 && front[i].segmentId == id;
          assert rows[i].segmentId == id;
        }
      }
    }
  }

  /** The following start, less a breath, is the latest end of row i, where there is room for it. */
  predicate HasSlot(rows: seq<Row>, i: nat)
    requires i < |rows|
  {
    i + 1 < |rows| && rows[i + 1].startMs - rows[i].startMs > 300
  }

  /** Speech is clipped only when it must be: by what it runs past the point 300 ms before
      the following row. The last row and a row without a slot are left alone. */
  lemma ClippedOnlyWhenNeeded(rows: seq<Row>, i: nat)
    requires UniqueIds(rows) && i < |rows|
    ensures |ClippedOf(rows, NextStarts(rows))| == |rows|
    ensures !HasSlot(rows, i) ==> ClippedOf(rows, NextStarts(rows))[i] == 0
    ensures HasSlot(rows, i) && rows[i].startMs + rows[i].durationMs <= rows[i + 1].startMs - 300
            ==> ClippedOf(rows, NextStarts(rows))[i] == 0
    ensures HasSlot(rows, i) && rows[i].startMs + rows[i].durationMs > rows[i + 1].startMs - 300
            ==> rows[i].startMs + rows[i].durationMs - ClippedOf(rows, NextStarts(rows))[i]
                == rows[i + 1].startMs - 300
  {
    hide NextStarts;
    NextStartsFacts(rows);
    assert i + 1 < |rows| || rows[i] == Last(rows);
  }

  /** Overlay o plays row i from its start: to its own end, or to 300 ms before the
      following row when it would run past that. */
  predicate Plays(o: Overlay, rows: seq<Row>, i: nat)
    requires i < |rows|
  {
    var end := rows[i].startMs + rows[i].durationMs;
    o.delayMs == rows[i].startMs && o.durationMs == rows[i].durationMs
    && EndMs(o) == if HasSlot(rows, i) && end > rows[i + 1].startMs - 300 then rows[i + 1].startMs - 300 else end
  }

  lemma OverlayPlays(rows: seq<Row>, i: nat)
    requires UniqueIds(rows) && i < |rows|
    ensures Plays(OverlayOf(rows[i], NextStarts(rows)), rows, i)
  {
    hide NextStarts;
    NextStartsFacts(rows);
    assert i + 1 < |rows| || rows[i] == Last(rows);
  }

  /** `turns` lists the rows below n with audio, in order, and overlay k plays the k-th. */
  ghost predicate TurnsOf(turns: seq<nat>, overlays: seq<Overlay>, rows: seq<Row>, n: nat)
    requires n <= |rows|
  {
    && (forall a, b :: 0 <= a < b < |turns| ==> turns[a] < turns[b])
    && (forall i :: i in turns <==> 0 <= i < n && rows[i].audioExists && rows[i].durationMs > 0)
    && |overlays| == |turns|
    && (forall k :: 0 <= k < |turns| ==> turns[k] < n && Plays(overlays[k], rows, turns[k]))
  }

  lemma NextTurn(turns: seq<nat>, overlays: seq<Overlay>, rows: seq<Row>, i: nat, o: Overlay)
    requires i < |rows| && TurnsOf(turns, overlays, rows, i) && Plays(o, rows, i)
    ensures Sounds(rows[i]) ==> TurnsOf(turns + [i], overlays + [o], rows, i + 1)
    ensures !Sounds(rows[i]) ==> TurnsOf(turns, overlays, rows, i + 1)
  {
    hide Plays;
  }

  lemma NoTurns(rows: seq<Row>)
    ensures TurnsOf([], [], rows, 0)
  {
  }

  lemma {:induction false} OverlayTurnsUpTo(rows: seq<Row>, n: nat) returns (turns: seq<nat>)
    requires UniqueIds(rows) && n <= |rows|
    ensures TurnsOf(turns, OverlaysOf(rows[..n], NextStarts(rows)), rows, n)
  {
    hide NextStarts, OverlayOf, TurnsOf, OverlaysOf, UniqueIds, Plays;
    var next := NextStarts(rows);
    if n == 0 {
      turns := [];
      NoOverlays(next);
      NoTurns(rows);
      assert rows[..0] == [];
      return;
    }
    var i := n - 1;
    var before := OverlayTurnsUpTo(rows, i);
    OverlaysNext(rows, next, i);
    OverlayPlays(rows, i);
    NextTurn(before, OverlaysOf(rows[..i], next), rows, i, OverlayOf(rows[i], next));
    turns := if Sounds(rows[i]) then before + [i] else before;
    assert OverlaysOf(rows[..i], next) + [] == OverlaysOf(rows[..i], next);
  }

  /** Every row with audio is heard once, in the order of the rows, and no other row is. */
  lemma OverlayTurns(rows: seq<Row>) returns (turns: seq<nat>)
    requires UniqueIds(rows)
    ensures TurnsOf(turns, OverlaysOf(rows, NextStarts(rows)), rows, |rows|)
  {
    hide NextStarts, Plays, OverlaysOf, TurnsOf, UniqueIds;
    turns := OverlayTurnsUpTo(rows, |rows|);
    assert rows[..|rows|] == rows;
  }

  // ---------------------------------------------------------------- no collisions

  /** Consecutive starts are more than a breath apart. */
  ghost predicate Spaced(rows: seq<Row>) {
    forall i :: 0 <= i && i + 1 < |rows| ==> rows[i + 1].startMs - rows[i].startMs > BREATH_MARGIN_MS
  }

  /** Every overlay ends at least a breath before any later one starts. */
  ghost predicate Gapped(overlays: seq<Overlay>) {
    forall a, b :: 0 <= a < b < |overlays| ==> EndMs(overlays[a]) + BREATH_MARGIN_MS <= overlays[b].delayMs
  }

  lemma {:induction false} SpacedIncreases(rows: seq<Row>, i: nat, j: nat)
    requires Spaced(rows) && i < j < |rows|
    ensures rows[i + 1].startMs <= rows[j].startMs
    decreases j
  {
    if i + 1 < j {
      SpacedIncreases(rows, i, j - 1);
      assert rows[j - 1 + 1].startMs - rows[j - 1].startMs > BREATH_MARGIN_MS;
    }
  }

  /** All sounding rows among `rows[..n]` end a breath before row m starts. */
  lemma {:induction false} EarlierEnd(rows: seq<Row>, next: map<int, int>, n: nat, m: nat)
    requires UniqueIds(rows) && Spaced(rows) && next == NextStarts(rows) && n <= m < |rows|
    ensures forall a :: 0 <= a < |OverlaysOf(rows[..n], next)| ==>
              EndMs(OverlaysOf(rows[..n], next)[a]) + BREATH_MARGIN_MS <= rows[m].startMs
  {
    hide NextStarts;
    if n > 0 {
      EarlierEnd(rows, next, n - 1, m);
      assert Init(rows[..n]) == rows[..n - 1];
      NextStartsFacts(rows);
      var i := n - 1;
      SpacedIncreases(rows, i, m);
      assert rows[i + 1].startMs - rows[i].startMs > BREATH_MARGIN_MS;
      assert EndMs(OverlayOf(rows[i], next)) + BREATH_MARGIN_MS <= rows[i + 1].startMs;
    }
  }

  lemma {:induction false} PrefixGapped(rows: seq<Row>, next: map<int, int>, n: nat)
    requires UniqueIds(rows) && Spaced(rows) && next == NextStarts(rows) && n <= |rows|
    ensures Gapped(OverlaysOf(rows[..n], next))
  {
    hide NextStarts, EndMs;
    if n > 0 {
      PrefixGapped(rows, next, n - 1);
      assert Init(rows[..n]) == rows[..n - 1];
      EarlierEnd(rows, next, n - 1, n - 1);
    }
  }

  /** Rendered speech never collides: with starts more than a breath apart the clipped
      overlays are pairwise disjoint with a breath between them. */
  lemma SpacedRowsNeverCollide(rows: seq<Row>)
    requires UniqueIds(rows) && Spaced(rows)
    ensures Gapped(OverlaysOf(rows, NextStarts(rows)))
  {
    PrefixGapped(rows, NextStarts(rows), |rows|);
    assert rows[..|rows|] == rows;
  }

  lemma {:induction false} AllSoundOverlays(rows: seq<Row>, next: map<int, int>)
    requires forall i :: 0 <= i < |rows| ==> Sounds(rows[i])
    ensures |OverlaysOf(rows, next)| == |rows|
    ensures forall i :: 0 <= i < |rows| ==> OverlaysOf(rows, next)[i] == OverlayOf(rows[i], next)
  {
    hide OverlayOf;
    if rows != [] {
      var front := Init(rows);
      assert Sounds(rows[|rows| - 1]);
      AllSoundOverlays(front, next);
      forall i | 0 <= i < |rows| ensures OverlaysOf(rows, next)[i] == OverlayOf(rows[i], next) {
        if i < |front| { assert front[i] == rows[i]; }
      }
    }
  }

  /** When every row sounds, the spacing is also necessary: starts a breath apart or less
      leave a row unclipped and its overlay too close to the next. */
  lemma CollisionFreeIffSpaced(rows: seq<Row>)
    requires UniqueIds(rows) && forall i :: 0 <= i < |rows| ==> Sounds(rows[i])
    ensures Gapped(OverlaysOf(rows, NextStarts(rows))) <==> Spaced(rows)
  {
    hide NextStarts, OverlaysOf;
    var next := NextStarts(rows);
    var overlays := OverlaysOf(rows, next);
    AllSoundOverlays(rows, next);
    NextStartsFacts(rows);
    if Spaced(rows) { SpacedRowsNeverCollide(rows); }
    if Gapped(overlays) {
      forall i | 0 <= i && i + 1 < |rows| ensures rows[i + 1].startMs - rows[i].startMs > BREATH_MARGIN_MS {
        assert EndMs(overlays[i]) + BREATH_MARGIN_MS <= overlays[i + 1].delayMs;
        assert overlays[i] == OverlayOf(rows[i], next) && overlays[i + 1] == OverlayOf(rows[i + 1], next);
        assert Sounds(rows[i]);
      }
    }
  }

  // ---------------------------------------------------------------- mixing

  /** What an overlay contributes at a point of time: nothing outside its kept stretch. */
  ghost predicate ContributesInside(signal: (Overlay, int) -> int) {
    forall o: Overlay, t: int :: !(o.delayMs <= t < EndMs(o)) ==> signal(o, t) == 0
  }

  /** The mix of all overlays at once. */
  function MixAt(overlays: seq<Overlay>, signal: (Overlay, int) -> int, t: int): int {
    if overlays == [] then 0 else MixAt(Init(overlays), signal, t) + signal(Last(overlays), t)
  }

  function SumAt(tracks: seq<seq<int>>, t: nat): int
    requires forall k :: 0 <= k < |tracks| ==> t < |tracks[k]|
  {
    if tracks == [] then 0 else SumAt(Init(tracks), t) + Last(tracks)[t]
  }

  lemma {:induction false} MixConcat(a: seq<Overlay>, b: seq<Overlay>, signal: (Overlay, int) -> int, t: int)
    ensures MixAt(a + b, signal, t) == MixAt(a, signal, t) + MixAt(b, signal, t)
  {
    if b == [] {
      assert a + b == a;
    } else {
      assert Init(a + b) == a + Init(b);
      MixConcat(a, Init(b), signal, t);
    }
  }

  /** One pass: at most thirty overlays mixed over silence. */
  method BuildVoiceChunk(overlays: seq<Overlay>, signal: (Overlay, int) -> int, length: nat) returns (track: seq<int>)
    ensures |track| == length && forall t :: 0 <= t < length ==> track[t] == MixAt(overlays, signal, t)
  {
    track := seq(length, t => MixAt(overlays, signal, t));
  }

  method MergeVoiceChunks(chunks: seq<seq<int>>, length: nat) returns (track: seq<int>)
    requires chunks != [] && forall k :: 0 <= k < |chunks| ==> |chunks[k]| == length
    ensures |track| == length && forall t :: 0 <= t < length ==> track[t] == SumAt(chunks, t)
  {
    if |chunks| == 1 {
      track := chunks[0];
      assert Init(chunks) == [];
      return;
    }
    track := seq(length, t requires 0 <= t < length => SumAt(chunks, t));
  }

  /** Mixing in passes of thirty and adding the passes is mixing everything at once. */
  method RenderVoice(overlays: seq<Overlay>, signal: (Overlay, int) -> int, length: nat) returns (track: seq<int>)
    ensures |track| == length && forall t :: 0 <= t < length ==> track[t] == MixAt(overlays, signal, t)
  {
    if overlays == [] {
      track := seq(length, _ => 0);
      return;
    }
    var chunks: seq<seq<int>> := [];
    var offset := 0;
    while offset < |overlays|
      invariant 0 <= offset && (offset > 0 ==> chunks != [])
      invariant forall k :: 0 <= k < |chunks| ==> |chunks[k]| == length
      invariant forall t :: 0 <= t < length ==>
                  SumAt(chunks, t) == MixAt(overlays[..Min(offset, |overlays|)], signal, t)
    {
      var end := Min(offset + MAX_OVERLAYS_PER_PASS, |overlays|);
      var chunk := BuildVoiceChunk(overlays[offset..end], signal, length);
      assert overlays[..end] == overlays[..offset] + overlays[offset..end];
      forall t | 0 <= t < length
        ensures SumAt(chunks + [chunk], t) == MixAt(overlays[..end], signal, t)
      {
        MixConcat(overlays[..offset], overlays[offset..end], signal, t);
        assert Init(chunks + [chunk]) == chunks;
      }
      chunks := chunks + [chunk];
      offset := offset + MAX_OVERLAYS_PER_PASS;
    }
    assert overlays[..|overlays|] == overlays;
    track := MergeVoiceChunks(chunks, length);
  }

  lemma {:induction false} SilentPrefix(overlays: seq<Overlay>, signal: (Overlay, int) -> int, t: int)
    requires ContributesInside(signal)
    requires forall k :: 0 <= k < |overlays| ==> !(overlays[k].delayMs <= t < EndMs(overlays[k]))
    ensures MixAt(overlays, signal, t) == 0
  {
    if overlays != [] {
      assert !(overlays[|overlays| - 1].delayMs <= t < EndMs(overlays[|overlays| - 1]));
      SilentPrefix(Init(overlays), signal, t);
    }
  }

  /** In a collision-free chapter the mix is one voice at a time: wherever an overlay
      sounds, the mix is that overlay alone. */
  lemma MixIsOneVoice(overlays: seq<Overlay>, signal: (Overlay, int) -> int, k: nat, t: int)
    requires Gapped(overlays) && ContributesInside(signal)
    requires k < |overlays| && overlays[k].delayMs <= t < EndMs(overlays[k])
    ensures MixAt(overlays, signal, t) == signal(overlays[k], t)
  {
    hide EndMs;
    var before, after := overlays[..k], overlays[k + 1..];
    AroundOne(overlays, k);
    MixConcat(before + [overlays[k]], after, signal, t);
    MixConcat(before, [overlays[k]], signal, t);
    forall i | 0 <= i < |before| ensures !(before[i].delayMs <= t < EndMs(before[i])) {
      assert EndMs(overlays[i]) + BREATH_MARGIN_MS <= overlays[k].delayMs;
    }
    forall i | 0 <= i < |after| ensures !(after[i].delayMs <= t < EndMs(after[i])) {
      assert EndMs(overlays[k]) + BREATH_MARGIN_MS <= overlays[k + 1 + i].delayMs;
    }
    SilentPrefix(before, signal, t);
    SilentPrefix(after, signal, t);
    OneVoice(overlays[k], signal, t);
  }

  lemma OneVoice(o: Overlay, signal: (Overlay, int) -> int, t: int)
    ensures MixAt([o], signal, t) == signal(o, t)
  {
    assert Init([o]) == [];
  }
}
