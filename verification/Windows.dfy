/** Audit windows over a whole episode (`window_for_row`, `build_manifest`). */
module Windows {
  import opened Numbers
  import opened Sequences

  datatype SegmentRow = SegmentRow(
    chapterOrdinal: int,
    segmentOrdinal: int,
    segmentId: int,
    chapterStartMs: int,
    asrChapterStartMs: Option<int>,
    startMs: int,
    endMs: int,
    ttsDurationMs: int)

  datatype WindowConfig = WindowConfig(prePadMs: int, postPadMs: int, nextGapMs: int, minWindowMs: int)

  datatype Window = Window(absStart: int, absEnd: int, start: int, end: int, boundedByNext: bool)

  datatype ManifestItem = ManifestItem(row: SegmentRow, window: Window)

  function ChapterStart(row: SegmentRow): int {
    match row.asrChapterStartMs case Some(ms) => ms case None => row.chapterStartMs
  }

  function AbsStart(row: SegmentRow): int { ChapterStart(row) + row.startMs }

  function AbsEnd(row: SegmentRow): int { ChapterStart(row) + row.endMs }

  function Cap(x: int, limit: Option<int>): int {
    match limit case Some(l) => Min(x, l) case None => x
  }

  /** A missing or zero duration does not limit anything. */
  function EpisodeLimit(durationMs: Option<int>): Option<int> {
    if durationMs == Some(0) then None else durationMs
  }

  function WindowStart(row: SegmentRow, cfg: WindowConfig): int { Max(0, AbsStart(row) - cfg.prePadMs) }

  /** The next segment limits the window when it starts after the window does. */
  function NextLimit(row: SegmentRow, next: Option<SegmentRow>, cfg: WindowConfig): Option<int> {
    if next.Some? && AbsStart(next.value) > WindowStart(row, cfg)
    then Some(Max(WindowStart(row, cfg) + 1, AbsStart(next.value) - cfg.nextGapMs))
    else None
  }

  function PlannedEnd(row: SegmentRow, cfg: WindowConfig): int {
    Max(AbsEnd(row), if row.ttsDurationMs > 0 then AbsStart(row) + row.ttsDurationMs else AbsEnd(row))
    + cfg.postPadMs
  }

  /** The end before the last resort: the planned end within the limits, widened to the
      minimum length, and within the limits again. */
  function LimitedEnd(row: SegmentRow, next: Option<SegmentRow>, durationMs: Option<int>, cfg: WindowConfig): int {
    var limit, episode := NextLimit(row, next, cfg), EpisodeLimit(durationMs);
    var raw := Cap(Cap(PlannedEnd(row, cfg), limit), episode);
    Cap(Cap(Max(WindowStart(row, cfg) + cfg.minWindowMs, raw), limit), episode)
  }

  predicate LastResort(row: SegmentRow, next: Option<SegmentRow>, durationMs: Option<int>, cfg: WindowConfig) {
    LimitedEnd(row, next, durationMs, cfg) <= WindowStart(row, cfg)
  }

  function WindowOf(row: SegmentRow, next: Option<SegmentRow>, durationMs: Option<int>, cfg: WindowConfig): Window {
    var start := WindowStart(row, cfg);
    var limit := NextLimit(row, next, cfg);
    Window(
      AbsStart(row), AbsEnd(row), start,
      if LastResort(row, next, durationMs, cfg) then start + Max(1, cfg.minWindowMs)
      else LimitedEnd(row, next, durationMs, cfg),
      limit.Some? && PlannedEnd(row, cfg) > limit.value)
  }

  /** The window computation step by step. */
  method WindowForRow(row: SegmentRow, next: Option<SegmentRow>, durationMs: Option<int>, cfg: WindowConfig)
    returns (window: Window)
    ensures window == WindowOf(row, next, durationMs, cfg)
  {
    hide Max, AbsStart, AbsEnd;
    ghost var limit, episode := NextLimit(row, next, cfg), EpisodeLimit(durationMs);
    var absStart, absEnd := AbsStart(row), AbsEnd(row);
    var plannedEnd := Max(absEnd, if row.ttsDurationMs > 0 then absStart + row.ttsDurationMs else absEnd);
    var windowStart := Max(0, absStart - cfg.prePadMs);
    var rawEnd := plannedEnd + cfg.postPadMs;
    var bounded := false;
    if next.Some? && AbsStart(next.value) > windowStart {
      var hardNextEnd := Max(windowStart + 1, AbsStart(next.value) - cfg.nextGapMs);
      if rawEnd > hardNextEnd {
        rawEnd := hardNextEnd;
        bounded := true;
      }
    }
    assert rawEnd == Cap(PlannedEnd(row, cfg), limit);
    assert bounded == (limit.Some? && PlannedEnd(row, cfg) > limit.value);
    if durationMs.Some? && durationMs.value != 0 {
      rawEnd := Min(rawEnd, durationMs.value);
    }
    assert rawEnd == Cap(Cap(PlannedEnd(row, cfg), limit), episode);
    var windowEnd := Max(windowStart + cfg.minWindowMs, rawEnd);
    ghost var widened := windowEnd;
    if next.Some? && AbsStart(next.value) > windowStart {
      windowEnd := Min(windowEnd, Max(windowStart + 1, AbsStart(next.value) - cfg.nextGapMs));
    }
    if durationMs.Some? && durationMs.value != 0 {
      windowEnd := Min(windowEnd, durationMs.value);
    }
    assert windowEnd == Cap(Cap(widened, limit), episode) == LimitedEnd(row, next, durationMs, cfg);
    if windowEnd <= windowStart {
      windowEnd := windowStart + Max(1, cfg.minWindowMs);
    }
    window := Window(absStart, absEnd, windowStart, windowEnd, bounded);
  }

  // ---------------------------------------------------------------- the manifest

  predicate RowLe(a: SegmentRow, b: SegmentRow) {
    a.chapterOrdinal < b.chapterOrdinal
    || (a.chapterOrdinal == b.chapterOrdinal && a.segmentOrdinal <= b.segmentOrdinal)
  }

  function Override(row: SegmentRow, overrides: map<int, int>): SegmentRow {
    if row.chapterOrdinal in overrides
    then row.(asrChapterStartMs := Some(overrides[row.chapterOrdinal]))
    else row
  }

  /** Rows in playing order, with measured chapter starts where there are any. */
  function Ordered(rows: seq<SegmentRow>, overrides: map<int, int>): (r: seq<SegmentRow>) {
    var sorted := StableSort(rows, RowLe);
    seq(|sorted|, i requires 0 <= i < |sorted| => Override(sorted[i], overrides))
  }

  function NextRow(ordered: seq<SegmentRow>, i: nat): Option<SegmentRow>
    requires i < |ordered|
  {
    if i + 1 < |ordered| then Some(ordered[i + 1]) else None
  }

  function WindowAt(ordered: seq<SegmentRow>, i: nat, durationMs: Option<int>, cfg: WindowConfig): Window
    requires i < |ordered|
  {
    WindowOf(ordered[i], NextRow(ordered, i), durationMs, cfg)
  }

  method BuildManifest(rows: seq<SegmentRow>, overrides: map<int, int>, durationMs: Option<int>, cfg: WindowConfig)
    returns (manifest: seq<ManifestItem>)
    ensures var ordered := Ordered(rows, overrides);
            && |manifest| == |rows|
            && |ordered| == |rows|
            && forall i :: 0 <= i < |manifest| ==>
                 manifest[i] == ManifestItem(ordered[i], WindowAt(ordered, i, durationMs, cfg))
  {
    hide WindowOf, StableSort;
    var sorted := StableSort(rows, RowLe);
    SortPermutes(rows, RowLe);
    var ordered := [];
    for i := 0 to |sorted|
      invariant ordered == Ordered(rows, overrides)[..i]
    {
      var copy := sorted[i];
      if copy.chapterOrdinal in overrides {
        copy := copy.(asrChapterStartMs := Some(overrides[copy.chapterOrdinal]));
      }
      ordered := ordered + [copy];
    }
    assert ordered == Ordered(rows, overrides);
    manifest := [];
    for index := 0 to |ordered|
      invariant |manifest| == index
      invariant forall i :: 0 <= i < index ==>
                  manifest[i] == ManifestItem(ordered[i], WindowAt(ordered, i, durationMs, cfg))
    {
      var next := if index + 1 < |ordered| then Some(ordered[index + 1]) else None;
      var window := WindowForRow(ordered[index], next, durationMs, cfg);
      manifest := manifest + [ManifestItem(ordered[index], window)];
    }
  }

  /** The last resort is used exactly when a set episode duration does not reach past the
      start of the window, and gives the minimum length. */
  lemma LastResortIff(row: SegmentRow, next: Option<SegmentRow>, durationMs: Option<int>, cfg: WindowConfig)
    requires cfg.minWindowMs >= 1
    ensures LastResort(row, next, durationMs, cfg) <==>
              durationMs.Some? && durationMs.value != 0 && durationMs.value <= WindowStart(row, cfg)
    ensures durationMs.Some? && durationMs.value != 0 && durationMs.value <= WindowStart(row, cfg) ==>
              WindowOf(row, next, durationMs, cfg).end == WindowStart(row, cfg) + cfg.minWindowMs
  {
  }

  /** No setting makes a window empty. */
  lemma WindowNeverEmpty(row: SegmentRow, next: Option<SegmentRow>, durationMs: Option<int>, cfg: WindowConfig)
    ensures var w := WindowOf(row, next, durationMs, cfg); 0 <= w.start < w.end
  {
  }

  /** The episode is longer than every window start, or its length is not known. */
  ghost predicate EpisodeCovers(ordered: seq<SegmentRow>, durationMs: Option<int>, cfg: WindowConfig) {
    durationMs.Some? && durationMs.value != 0 ==>
      forall i :: 0 <= i < |ordered| ==> WindowStart(ordered[i], cfg) < durationMs.value
  }

  ghost predicate StartsIncrease(ordered: seq<SegmentRow>, cfg: WindowConfig) {
    forall i, j :: 0 <= i < j < |ordered| ==> WindowStart(ordered[i], cfg) < WindowStart(ordered[j], cfg)
  }

  /** No two windows overlap, and they come in the order of the rows. */
  ghost predicate DisjointInOrder(ordered: seq<SegmentRow>, durationMs: Option<int>, cfg: WindowConfig) {
    forall i, j :: 0 <= i < j < |ordered| ==>
      WindowAt(ordered, i, durationMs, cfg).end <= WindowAt(ordered, j, durationMs, cfg).start
  }

  /** Every window is non-empty and ends within the episode. */
  lemma WindowsNonEmptyInEpisode(ordered: seq<SegmentRow>, durationMs: Option<int>, cfg: WindowConfig)
    requires cfg.minWindowMs >= 1 && EpisodeCovers(ordered, durationMs, cfg)
    ensures forall i :: 0 <= i < |ordered| ==>
              var w := WindowAt(ordered, i, durationMs, cfg);
              && 0 <= w.start < w.end
              && (durationMs.Some? && durationMs.value != 0 ==> w.end <= durationMs.value)
  {
  }

  /** Where a moment of a segment lies in the episode: its chapter starts where that was
      measured, or else where the database says. */
  ghost predicate LiesAt(row: SegmentRow, ms: int, absolute: int) {
    absolute == ms + if row.asrChapterStartMs.Some? then row.asrChapterStartMs.value else row.chapterStartMs
  }

  /** A window covers its speech, told on the fields of the row: it starts the padding
      before the segment, not before the episode, and unless the next segment or the end of
      the episode cuts it short it reaches the padding past the end of the segment and past
      the end of the synthesised audio, to the minimum length, and no further. */
  lemma WindowCoversSpeech(row: SegmentRow, next: Option<SegmentRow>, durationMs: Option<int>, cfg: WindowConfig,
                           begin: int, finish: int)
    requires cfg.minWindowMs >= 1
    requires LiesAt(row, row.startMs, begin) && LiesAt(row, row.endMs, finish)
    ensures var w := WindowOf(row, next, durationMs, cfg);
            && w.absStart == begin && w.absEnd == finish
            && w.start == (if begin < cfg.prePadMs then 0 else begin - cfg.prePadMs)
    ensures var w := WindowOf(row, next, durationMs, cfg);
            !w.boundedByNext && (durationMs.Some? && durationMs.value != 0 ==> w.end < durationMs.value) ==>
              && w.end >= finish + cfg.postPadMs
              && (row.ttsDurationMs > 0 ==> w.end >= begin + row.ttsDurationMs + cfg.postPadMs)
              && (next == None ==>
                    || w.end == finish + cfg.postPadMs || w.end == w.start + cfg.minWindowMs
                    || (row.ttsDurationMs > 0 && w.end == begin + row.ttsDurationMs + cfg.postPadMs))
  {
  }

  /** The next segment bounds a window exactly when it starts after the window and the
      speech would reach into the gap kept before it. Then the window ends at that gap, one
      millisecond long at least. */
  lemma WindowBoundedByNext(row: SegmentRow, next: SegmentRow, cfg: WindowConfig,
                            begin: int, finish: int, nextBegin: int)
    requires cfg.minWindowMs >= 1
    requires LiesAt(row, row.startMs, begin) && LiesAt(row, row.endMs, finish) && LiesAt(next, next.startMs, nextBegin)
    ensures var w := WindowOf(row, Some(next), None, cfg);
            var gap := if nextBegin - cfg.nextGapMs <= w.start then w.start + 1 else nextBegin - cfg.nextGapMs;
            && (w.boundedByNext <==>
                  && nextBegin > w.start
                  && (finish + cfg.postPadMs > gap
                      || (row.ttsDurationMs > 0 && begin + row.ttsDurationMs + cfg.postPadMs > gap)))
            && (w.boundedByNext ==> w.end == gap)
            && (nextBegin > w.start ==> w.end <= gap)
  {
  }

  /** A known episode length only cuts: the window ends where it would without, or at the
      end of the episode if that comes first. */
  lemma EpisodeOnlyCuts(row: SegmentRow, next: Option<SegmentRow>, durationMs: int, cfg: WindowConfig)
    requires cfg.minWindowMs >= 1 && durationMs != 0 && durationMs > WindowOf(row, next, None, cfg).start
    ensures var free, w := WindowOf(row, next, None, cfg), WindowOf(row, next, Some(durationMs), cfg);
            w == free.(end := if durationMs < free.end then durationMs else free.end)
  {
  }

  /** A window ends where the next one starts, at the latest. */
  lemma WindowStopsAtNext(row: SegmentRow, next: SegmentRow, durationMs: Option<int>, cfg: WindowConfig)
    requires 0 <= cfg.prePadMs <= cfg.nextGapMs && cfg.minWindowMs >= 1
    requires WindowStart(row, cfg) < WindowStart(next, cfg)
    requires !LastResort(row, Some(next), durationMs, cfg)
    ensures WindowOf(row, Some(next), durationMs, cfg).end <= WindowStart(next, cfg)
  {
    assert NextLimit(row, Some(next), cfg).Some?;
  }

  /** Over a whole manifest: with padding no larger than the gap kept before the next
      segment, a positive minimum and an episode reaching past every start, the windows
      are pairwise disjoint in row order if and only if their starts strictly increase. */
  lemma WindowsDisjointIff(ordered: seq<SegmentRow>, durationMs: Option<int>, cfg: WindowConfig)
    requires 0 <= cfg.prePadMs <= cfg.nextGapMs && cfg.minWindowMs >= 1
    requires EpisodeCovers(ordered, durationMs, cfg)
    ensures DisjointInOrder(ordered, durationMs, cfg) <==> StartsIncrease(ordered, cfg)
  {
    hide LimitedEnd, LastResort, NextLimit;
    WindowsNonEmptyInEpisode(ordered, durationMs, cfg);
    if StartsIncrease(ordered, cfg) {
      forall i, j | 0 <= i < j < |ordered|
        ensures WindowAt(ordered, i, durationMs, cfg).end <= WindowAt(ordered, j, durationMs, cfg).start
      {
        LastResortIff(ordered[i], NextRow(ordered, i), durationMs, cfg);
        WindowStopsAtNext(ordered[i], ordered[i + 1], durationMs, cfg);
        assert i + 1 == j || WindowStart(ordered[i + 1], cfg) < WindowStart(ordered[j], cfg);
      }
    }
    if DisjointInOrder(ordered, durationMs, cfg) {
      forall i, j | 0 <= i < j < |ordered|
        ensures WindowStart(ordered[i], cfg) < WindowStart(ordered[j], cfg)
      {
        assert WindowAt(ordered, i, durationMs, cfg).end <= WindowAt(ordered, j, durationMs, cfg).start;
      }
    }
  }

  /** Without padding, strictly increasing absolute starts from zero on are enough. */
  lemma IncreasingSegmentsDisjoint(ordered: seq<SegmentRow>, durationMs: Option<int>, cfg: WindowConfig)
    requires cfg.prePadMs == 0 && cfg.nextGapMs >= 0 && cfg.minWindowMs >= 1
    requires forall i, j :: 0 <= i < j < |ordered| ==> AbsStart(ordered[i]) < AbsStart(ordered[j])
    requires ordered != [] ==> AbsStart(ordered[0]) >= 0
    requires durationMs.Some? ==> forall i :: 0 <= i < |ordered| ==> AbsStart(ordered[i]) < durationMs.value
    ensures DisjointInOrder(ordered, durationMs, cfg)
  {
    forall i | 0 <= i < |ordered| ensures WindowStart(ordered[i], cfg) == AbsStart(ordered[i]) {}
    WindowsDisjointIff(ordered, durationMs, cfg);
  }

  /** The manifest lists every segment once, by chapter and segment number, and a measured
      chapter start takes the place of the recorded one and of nothing else. */
  lemma ManifestOrder(rows: seq<SegmentRow>, overrides: map<int, int>)
    ensures multiset(StableSort(rows, RowLe)) == multiset(rows)
    ensures forall i, j :: 0 <= i < j < |StableSort(rows, RowLe)| ==>
              var a, b := StableSort(rows, RowLe)[i], StableSort(rows, RowLe)[j];
              || a.chapterOrdinal < b.chapterOrdinal
              || (a.chapterOrdinal == b.chapterOrdinal && a.segmentOrdinal <= b.segmentOrdinal)
    ensures forall i :: 0 <= i < |Ordered(rows, overrides)| ==>
              var row, placed := StableSort(rows, RowLe)[i], Ordered(rows, overrides)[i];
              && placed == row.(asrChapterStartMs := placed.asrChapterStartMs)
              && placed.asrChapterStartMs
                 == if row.chapterOrdinal in overrides then Some(overrides[row.chapterOrdinal])
                    else row.asrChapterStartMs
  {
    SortPermutes(rows, RowLe);
    assert TotalPreorder(RowLe);
    SortSorts(rows, RowLe);
  }
}
