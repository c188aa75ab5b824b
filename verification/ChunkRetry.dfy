/** The keep-the-better retry of badly recognised windows, the audit summary and its gate. */
module ChunkRetry {
  import opened Sequences
  import opened Text

  /** One transcribed window. */
  datatype AsrResult = AsrResult(tag: string, ok: bool, expected: string, asrText: string, startMs: int, endMs: int)

  datatype ManifestRow = ManifestRow(tag: string, expected: string)

  /** A window with its similarity, and the length its expected text counts with. */
  datatype Analyzed = Analyzed(result: AsrResult, expected: string, similarity: real, weight: nat)

  /** How texts are judged: any similarity, any length of the normalised text, and any
      test for known misrecognitions. */
  datatype Comparison = Comparison(
    similarity: (string, string) -> real,
    weight: string -> nat,
    weird: string -> bool)

  datatype RetryArgs = RetryArgs(lowSimilarity: real, veryLowSimilarity: real, chunkMinMs: int)

  datatype ChunkAnswer = ChunkAnswer(ok: bool, text: string)

  /** A row of the retry results. */
  datatype Chunk = Chunk(tag: string, expected: string, answer: ChunkAnswer)

  // ---------------------------------------------------------------- analysis

  /** `manifest_by_label.get(label)`: the last row with the label. */
  function FindRow(manifest: seq<ManifestRow>, tag: string): Option<ManifestRow> {
    if manifest == [] then None
    else if Last(manifest).tag == tag then Some(Last(manifest))
    else FindRow(Init(manifest), tag)
  }

  function ExpectedText(manifest: seq<ManifestRow>, result: AsrResult): string {
    if result.expected != "" then result.expected
    else match FindRow(manifest, result.tag) case Some(row) => row.expected case None => ""
  }

  function Analyze(manifest: seq<ManifestRow>, cmp: Comparison, result: AsrResult): Analyzed {
    var expected := ExpectedText(manifest, result);
    Analyzed(result, expected, cmp.similarity(expected, result.asrText), cmp.weight(expected))
  }

  function AnalyzeAll(manifest: seq<ManifestRow>, cmp: Comparison, results: seq<AsrResult>): (r: seq<Analyzed>)
    ensures |r| == |results|
  {
    seq(|results|, i requires 0 <= i < |results| => Analyze(manifest, cmp, results[i]))
  }

  predicate VeryLow(a: Analyzed, args: RetryArgs) { a.similarity < args.veryLowSimilarity }

  predicate Low(a: Analyzed, args: RetryArgs) { !VeryLow(a, args) && a.similarity < args.lowSimilarity }

  /** Rows that are retried: flagged, and long enough to be cut into chunks. */
  predicate NeedsRetry(a: Analyzed, args: RetryArgs) {
    (Low(a, args) || VeryLow(a, args)) && a.result.endMs - a.result.startMs >= args.chunkMinMs
  }

  function Chunks(rows: seq<Analyzed>, args: RetryArgs, answerOf: Analyzed -> ChunkAnswer): seq<Chunk> {
    if rows == [] then []
    else
      Chunks(Init(rows), args, answerOf)
      + if NeedsRetry(Last(rows), args)
        then [Chunk(Last(rows).result.tag, Last(rows).expected, answerOf(Last(rows)))] else []
  }

  /** `chunk_by_label.get(label)`. */
  function FindChunk(chunks: seq<Chunk>, tag: string): Option<Chunk> {
    if chunks == [] then None
    else if Last(chunks).tag == tag then Some(Last(chunks))
    else FindChunk(Init(chunks), tag)
  }

  /** The retry replaces the text when it succeeded and is strictly more similar. */
  predicate Better(result: AsrResult, chunk: Chunk, cmp: Comparison) {
    var expected := if chunk.expected != "" then chunk.expected else result.expected;
    chunk.answer.ok && cmp.similarity(expected, chunk.answer.text) > cmp.similarity(expected, result.asrText)
  }

  function Choose(result: AsrResult, chunk: Option<Chunk>, cmp: Comparison): AsrResult {
    if chunk.Some? && Better(result, chunk.value, cmp) then result.(asrText := chunk.value.answer.text) else result
  }

  function Retried(manifest: seq<ManifestRow>, results: seq<AsrResult>, args: RetryArgs, cmp: Comparison,
                   answerOf: Analyzed -> ChunkAnswer): (r: seq<AsrResult>)
    ensures |r| == |results|
  {
    var chunks := Chunks(AnalyzeAll(manifest, cmp, results), args, answerOf);
    seq(|results|, i requires 0 <= i < |results| => Choose(results[i], FindChunk(chunks, results[i].tag), cmp))
  }

  method CollectChunks(rows: seq<Analyzed>, args: RetryArgs, answerOf: Analyzed -> ChunkAnswer)
    returns (chunks: seq<Chunk>)
    ensures chunks == Chunks(rows, args, answerOf)
  {
    chunks := [];
    for k := 0 to |rows|
      invariant chunks == Chunks(rows[..k], args, answerOf)
    {
      assert Init(rows[..k + 1]) == rows[..k];
      if NeedsRetry(rows[k], args) {
        chunks := chunks + [Chunk(rows[k].result.tag, rows[k].expected, answerOf(rows[k]))];
      }
    }
    assert rows[..|rows|] == rows;
  }

  method RetryLowSimilarity(manifest: seq<ManifestRow>, results: seq<AsrResult>, args: RetryArgs, cmp: Comparison,
                            answerOf: Analyzed -> ChunkAnswer) returns (updated: seq<AsrResult>, improved: seq<string>)
    ensures updated == Retried(manifest, results, args, cmp, answerOf)
    ensures forall t :: t in improved <==>
              exists i :: 0 <= i < |results| && results[i].tag == t && updated[i] != results[i]
  {
    hide Chunks, FindChunk, NeedsRetry;
    var analyzed := AnalyzeAll(manifest, cmp, results);
    var chunks := CollectChunks(analyzed, args, answerOf);
    if chunks == [] {
      NoChunks(results, cmp);
      return results, [];
    }
    updated, improved := [], [];
    ghost var goal := Retried(manifest, results, args, cmp, answerOf);
    for k := 0 to |results|
      invariant updated == goal[..k]
      invariant forall t :: t in improved <==> exists i :: 0 <= i < k && results[i].tag == t && goal[i] != results[i]
    {
      var result := results[k];
      var chunk := FindChunk(chunks, result.tag);
      if chunk == None {
        updated := updated + [result];
        continue;
      }
      var expected := if chunk.value.expected != "" then chunk.value.expected else result.expected;
      var oldSim := cmp.similarity(expected, result.asrText);
      var newSim := cmp.similarity(expected, chunk.value.answer.text);
      if chunk.value.answer.ok && newSim > oldSim {
        updated := updated + [result.(asrText := chunk.value.answer.text)];
        improved := improved + [result.tag];
        assert goal[k] != results[k];
      } else {
        updated := updated + [result];
      }
    }
  }

  lemma NoChunks(results: seq<AsrResult>, cmp: Comparison)
    ensures forall i :: 0 <= i < |results| ==> Choose(results[i], FindChunk([], results[i].tag), cmp) == results[i]
  {
  }

  // ---------------------------------------------------------------- one retried row

  ghost predicate UniqueTags(results: seq<AsrResult>) {
    forall i, j :: 0 <= i < j < |results| ==> results[i].tag != results[j].tag
  }

  /** The retry of a row takes effect. */
  predicate Replaced(a: Analyzed, args: RetryArgs, cmp: Comparison, answer: ChunkAnswer) {
    NeedsRetry(a, args) && answer.ok && cmp.similarity(a.expected, answer.text) > a.similarity
  }

  /** The analysis of a row after its retry. */
  function After(a: Analyzed, args: RetryArgs, cmp: Comparison, answer: ChunkAnswer): Analyzed {
    if Replaced(a, args, cmp, answer)
    then a.(result := a.result.(asrText := answer.text), similarity := cmp.similarity(a.expected, answer.text))
    else a
  }

  function AfterAll(rows: seq<Analyzed>, args: RetryArgs, cmp: Comparison,
                    answerOf: Analyzed -> ChunkAnswer): (r: seq<Analyzed>)
    ensures |r| == |rows|
  {
    seq(|rows|, i requires 0 <= i < |rows| => After(rows[i], args, cmp, answerOf(rows[i])))
  }

  lemma {:induction false} ChunkElsewhere(rows: seq<Analyzed>, args: RetryArgs,
                                          answerOf: Analyzed -> ChunkAnswer, tag: string)
    requires forall i :: 0 <= i < |rows| ==> rows[i].result.tag != tag
    ensures FindChunk(Chunks(rows, args, answerOf), tag) == None
  {
    hide NeedsRetry;
    if rows != [] {
      var front, last := Init(rows), rows[|rows| - 1];
      ChunkElsewhere(front, args, answerOf, tag);
      ChunksNext(rows, args, answerOf, tag);
    }
  }

  /** What the last row does to the search for a chunk. */
  lemma ChunksNext(rows: seq<Analyzed>, args: RetryArgs, answerOf: Analyzed -> ChunkAnswer, tag: string)
    requires rows != []
    ensures var last := Last(rows);
            FindChunk(Chunks(rows, args, answerOf), tag)
            == if NeedsRetry(last, args) && last.result.tag == tag
               then Some(Chunk(tag, last.expected, answerOf(last)))
               else FindChunk(Chunks(Init(rows), args, answerOf), tag)
  {
    hide NeedsRetry;
    var last := Last(rows);
    var chunks, earlier := Chunks(rows, args, answerOf), Chunks(Init(rows), args, answerOf);
    if NeedsRetry(last, args) {
      assert Last(chunks) == Chunk(last.result.tag, last.expected, answerOf(last)) && Init(chunks) == earlier;
    } else {
      assert chunks == earlier;
    }
  }

  /** With unique labels a row finds its own chunk, exactly when it was retried. */
  lemma {:induction false} OwnChunk(rows: seq<Analyzed>, args: RetryArgs, answerOf: Analyzed -> ChunkAnswer, i: nat)
    requires i < |rows|
    requires forall j, k :: 0 <= j < k < |rows| ==> rows[j].result.tag != rows[k].result.tag
    ensures FindChunk(Chunks(rows, args, answerOf), rows[i].result.tag)
            == if NeedsRetry(rows[i], args)
               then Some(Chunk(rows[i].result.tag, rows[i].expected, answerOf(rows[i])))
               else None
  {
    hide NeedsRetry, FindChunk, Chunks;
    var front, last := Init(rows), rows[|rows| - 1];
    ChunksNext(rows, args, answerOf, rows[i].result.tag);
    if i == |rows| - 1 {
      ChunkElsewhere(front, args, answerOf, last.result.tag);
    } else {
      assert front[i] == rows[i];
      OwnChunk(front, args, answerOf, i);
    }
  }

  /** Choosing between a result and its own chunk, told on the analysed row. */
  lemma ChoiceIsAfter(manifest: seq<ManifestRow>, result: AsrResult, args: RetryArgs, cmp: Comparison,
                      answer: ChunkAnswer)
    ensures var a := Analyze(manifest, cmp, result);
            var chunk := if NeedsRetry(a, args) then Some(Chunk(result.tag, a.expected, answer)) else None;
            Analyze(manifest, cmp, Choose(result, chunk, cmp)) == After(a, args, cmp, answer)
  {
    hide FindRow, NeedsRetry;
  }

  /** What the retry does, in closed form: with unique labels, which the batch guarantees,
      the final analysis is the first one with every row replaced whose own retry
      succeeded and is strictly more similar. */
  lemma RetriedRows(manifest: seq<ManifestRow>, results: seq<AsrResult>, args: RetryArgs, cmp: Comparison,
                    answerOf: Analyzed -> ChunkAnswer)
    requires UniqueTags(results)
    ensures AnalyzeAll(manifest, cmp, Retried(manifest, results, args, cmp, answerOf))
            == AfterAll(AnalyzeAll(manifest, cmp, results), args, cmp, answerOf)
  {
    hide Chunks, FindChunk, NeedsRetry, Choose, ExpectedText, After;
    var analyzed := AnalyzeAll(manifest, cmp, results);
    var updated := Retried(manifest, results, args, cmp, answerOf);
    forall i | 0 <= i < |results|
      ensures Analyze(manifest, cmp, updated[i]) == After(analyzed[i], args, cmp, answerOf(analyzed[i]))
    {
      OwnChunk(analyzed, args, answerOf, i);
      ChoiceIsAfter(manifest, results[i], args, cmp, answerOf(analyzed[i]));
    }
  }

  /** Where the expected text comes from: the row itself, or the last manifest row of its
      label, or nowhere. */
  lemma {:induction false} ExpectedTextSource(manifest: seq<ManifestRow>, row: AsrResult, j: nat)
    ensures row.expected != "" ==> ExpectedText(manifest, row) == row.expected
    ensures row.expected == "" && j < |manifest| && manifest[j].tag == row.tag
            && (forall k :: j < k < |manifest| ==> manifest[k].tag != row.tag)
            ==> ExpectedText(manifest, row) == manifest[j].expected
    ensures row.expected == "" && (forall k :: 0 <= k < |manifest| ==> manifest[k].tag != row.tag)
            ==> ExpectedText(manifest, row) == ""
  {
    if manifest != [] && manifest[|manifest| - 1].tag != row.tag {
      var front := Init(manifest);
      assert forall k :: 0 <= k < |front| ==> front[k] == manifest[k];
      ExpectedTextSource(front, row, j);
    }
  }

  /** When a row changes: exactly if it is less similar than one of the two thresholds, its
      window is long enough, the retry succeeded, and its text is strictly more similar. */
  lemma RowChangesIff(manifest: seq<ManifestRow>, results: seq<AsrResult>, args: RetryArgs, cmp: Comparison,
                      answerOf: Analyzed -> ChunkAnswer, i: nat)
    requires UniqueTags(results) && i < |results|
    ensures var row := results[i];
            var expected := ExpectedText(manifest, row);
            var similarity := cmp.similarity(expected, row.asrText);
            var answer := answerOf(Analyzed(row, expected, similarity, cmp.weight(expected)));
            Retried(manifest, results, args, cmp, answerOf)[i]
            == if (similarity < args.lowSimilarity || similarity < args.veryLowSimilarity)
                  && row.endMs - row.startMs >= args.chunkMinMs
                  && answer.ok && cmp.similarity(expected, answer.text) > similarity
               then row.(asrText := answer.text) else row
  {
    hide Chunks, FindChunk, Choose, ExpectedText, Retried;
    var rows := AnalyzeAll(manifest, cmp, results);
    RetriedRows(manifest, results, args, cmp, answerOf);
    assert AfterAll(rows, args, cmp, answerOf)[i].result == Retried(manifest, results, args, cmp, answerOf)[i];
  }

  /** Row by row: same label, same expected text, and never a lower similarity. */
  ghost predicate NotWorse(before: Analyzed, after: Analyzed) {
    && after.result == before.result.(asrText := after.result.asrText)
    && after.expected == before.expected && after.weight == before.weight
    && after.similarity >= before.similarity
  }

  ghost predicate AllNotWorse(before: seq<Analyzed>, after: seq<Analyzed>) {
    |before| == |after| && forall i :: 0 <= i < |before| ==> NotWorse(before[i], after[i])
  }

  lemma AfterNotWorse(rows: seq<Analyzed>, args: RetryArgs, cmp: Comparison, answerOf: Analyzed -> ChunkAnswer)
    ensures AllNotWorse(rows, AfterAll(rows, args, cmp, answerOf))
  {
    hide NeedsRetry;
  }

  /** The retry keeps the number, order and labels of the rows and lowers no row's
      similarity, as the final analysis measures it. */
  lemma RetryNeverWorse(manifest: seq<ManifestRow>, results: seq<AsrResult>, args: RetryArgs, cmp: Comparison,
                        answerOf: Analyzed -> ChunkAnswer)
    requires UniqueTags(results)
    ensures AllNotWorse(AnalyzeAll(manifest, cmp, results),
                        AnalyzeAll(manifest, cmp, Retried(manifest, results, args, cmp, answerOf)))
  {
    hide AnalyzeAll, Retried, AfterAll;
    RetriedRows(manifest, results, args, cmp, answerOf);
    AfterNotWorse(AnalyzeAll(manifest, cmp, results), args, cmp, answerOf);
  }

  // ---------------------------------------------------------------- the summary

  /** Rows with a flag. */
  function Count(rows: seq<Analyzed>, flag: Analyzed -> bool): (n: nat)
    ensures n <= |rows|
  {
    if rows == [] then 0 else Count(Init(rows), flag) + if flag(Last(rows)) then 1 else 0
  }

  function OkFlag(): Analyzed -> bool { (a: Analyzed) => a.result.ok }

  function FailedFlag(): Analyzed -> bool { (a: Analyzed) => !a.result.ok }

  function EmptyFlag(): Analyzed -> bool { (a: Analyzed) => Strip(a.result.asrText) == "" }

  function WeirdFlag(cmp: Comparison): Analyzed -> bool { (a: Analyzed) => cmp.weird(a.result.asrText) }

  function LowFlag(args: RetryArgs): Analyzed -> bool { (a: Analyzed) => Low(a, args) }

  function VeryLowFlag(args: RetryArgs): Analyzed -> bool { (a: Analyzed) => VeryLow(a, args) }

  function OkSimilarity(rows: seq<Analyzed>): real {
    if rows == [] then 0.0 else OkSimilarity(Init(rows)) + if Last(rows).result.ok then Last(rows).similarity else 0.0
  }

  function OkWeight(rows: seq<Analyzed>): nat {
    if rows == [] then 0 else OkWeight(Init(rows)) + if Last(rows).result.ok then Last(rows).weight else 0
  }

  function OkWeighted(rows: seq<Analyzed>): real {
    if rows == [] then 0.0
    else OkWeighted(Init(rows)) + if Last(rows).result.ok then Weighted(Last(rows)) else 0.0
  }

  function Weighted(a: Analyzed): real { a.similarity * a.weight as real }

  /** `"\n".join`. */
  function Lines(texts: seq<string>): string {
    if texts == [] then ""
    else if |texts| == 1 then texts[0]
    else Lines(Init(texts)) + "\n" + Last(texts)
  }

  /** Joining lines puts one line break between the texts and nothing else. */
  lemma {:induction false} LinesConcat(a: seq<string>, b: seq<string>)
    requires a != [] && b != []
    ensures Lines(a + b) == Lines(a) + "\n" + Lines(b)
    ensures |b| == 1 ==> Lines(b) == b[0]
  {
    assert Init(a + b) == a + Init(b) && Last(a + b) == Last(b);
    if |b| > 1 {
      LinesConcat(a, Init(b));
    } else {
      assert a + Init(b) == a;
    }
  }

  function ExpectedTexts(rows: seq<Analyzed>): seq<string> {
    seq(|rows|, i requires 0 <= i < |rows| => rows[i].expected)
  }

  function AsrTexts(rows: seq<Analyzed>): seq<string> {
    seq(|rows|, i requires 0 <= i < |rows| => rows[i].result.asrText)
  }

  function TranscriptSimilarity(rows: seq<Analyzed>, cmp: Comparison): real {
    cmp.similarity(Lines(ExpectedTexts(rows)), Lines(AsrTexts(rows)))
  }

  /** The figures of `summarize` that the gate looks at, before rounding. */
  datatype Summary = Summary(
    total: nat,
    ok: nat,
    mean: Option<real>,
    weighted: Option<real>,
    transcript: real,
    blank: nat,
    failed: nat,
    weird: nat,
    veryLow: nat,
    low: nat)

  function MeanOf(rows: seq<Analyzed>): Option<real> {
    var n := Count(rows, OkFlag());
    if n == 0 then None else Some(OkSimilarity(rows) / n as real)
  }

  function WeightedOf(rows: seq<Analyzed>): Option<real> {
    if OkWeight(rows) == 0 then None else Some(OkWeighted(rows) / OkWeight(rows) as real)
  }

  function Summarize(rows: seq<Analyzed>, args: RetryArgs, cmp: Comparison): Summary {
    Summary(
      |rows|,
      Count(rows, OkFlag()),
      MeanOf(rows),
      WeightedOf(rows),
      TranscriptSimilarity(rows, cmp),
      Count(rows, EmptyFlag()),
      Count(rows, FailedFlag()),
      Count(rows, WeirdFlag(cmp)),
      Count(rows, VeryLowFlag(args)),
      Count(rows, LowFlag(args)))
  }

  datatype GateLimits =
    GateLimits(minMean: real, minWeighted: real, minTranscript: real, maxVeryLow: int, maxLow: int)

  const DEFAULT_ARGS := RetryArgs(0.80, 0.60, 20000)

  const DEFAULT_LIMITS := GateLimits(0.86, 0.88, 0.90, 0, 12)

  /** The checks of `gate_summary` that are decided by the similarities and the success of
      the single rows. */
  predicate RowChecksPass(s: Summary, limits: GateLimits) {
    && s.ok >= s.total
    && s.mean.Some? && s.mean.value >= limits.minMean
    && s.weighted.Some? && s.weighted.value >= limits.minWeighted
    && s.failed <= 0
    && s.veryLow <= limits.maxVeryLow
    && s.low <= limits.maxLow
  }

  /** All nine checks of `gate_summary`. */
  predicate GatePasses(s: Summary, limits: GateLimits) {
    && RowChecksPass(s, limits)
    && s.transcript >= limits.minTranscript
    && s.blank <= 0
    && s.weird <= 0
  }

  function SimilarityOf(): Analyzed -> real { (a: Analyzed) => a.similarity }

  function WeightOf(): Analyzed -> real { (a: Analyzed) => a.weight as real }

  function SimilarityByWeight(): Analyzed -> real { (a: Analyzed) => a.similarity * a.weight as real }

  function SumOf(rows: seq<Analyzed>, value: Analyzed -> real): real {
    if rows == [] then 0.0 else value(rows[0]) + SumOf(rows[1..], value)
  }

  lemma {:induction false} SumOfSnoc(rows: seq<Analyzed>, value: Analyzed -> real)
    requires rows != []
    ensures SumOf(rows, value) == SumOf(Init(rows), value) + value(Last(rows))
  {
    if |rows| == 1 {
      assert rows[1..] == [];
    } else {
      SumOfSnoc(rows[1..], value);
      assert Init(rows)[1..] == Init(rows[1..]) && Last(rows[1..]) == Last(rows) && Init(rows)[0] == rows[0];
    }
  }

  /** The windows that were recognised at all. */
  function Recognised(rows: seq<Analyzed>): seq<Analyzed> { Filter(rows, OkFlag()) }

  lemma {:induction false} OkSums(rows: seq<Analyzed>)
    ensures Count(rows, OkFlag()) == |Recognised(rows)|
    ensures OkSimilarity(rows) == SumOf(Recognised(rows), SimilarityOf())
    ensures OkWeight(rows) as real == SumOf(Recognised(rows), WeightOf())
    ensures OkWeighted(rows) == SumOf(Recognised(rows), SimilarityByWeight())
    ensures (forall i :: 0 <= i < |rows| ==> rows[i].result.ok) ==> Recognised(rows) == rows
  {
    hide SumOf, Recognised;
    RecognisedNext(rows);
    if rows == [] {
      SumOfNothing();
    } else {
      var front, last := Init(rows), Last(rows);
      OkSums(front);
      AllOkNext(rows);
      SumOfAppend(Recognised(front), last, SimilarityOf());
      SumOfAppend(Recognised(front), last, WeightOf());
      SumOfAppend(Recognised(front), last, SimilarityByWeight());
    }
  }

  lemma RecognisedNext(rows: seq<Analyzed>)
    ensures rows == [] ==> Recognised(rows) == []
    ensures rows != [] ==>
              Recognised(rows)
              == if Last(rows).result.ok then Recognised(Init(rows)) + [Last(rows)] else Recognised(Init(rows))
  {
  }

  lemma AllOkNext(rows: seq<Analyzed>)
    requires rows != []
    ensures (forall i :: 0 <= i < |rows| ==> rows[i].result.ok) ==>
              Last(rows).result.ok && forall i :: 0 <= i < |Init(rows)| ==> Init(rows)[i].result.ok
    ensures rows == Init(rows) + [Last(rows)]
  {
  }

  lemma SumOfAppend(rows: seq<Analyzed>, row: Analyzed, value: Analyzed -> real)
    ensures SumOf(rows + [row], value) == SumOf(rows, value) + value(row)
  {
    SumOfSnoc(rows + [row], value);
    assert Init(rows + [row]) == rows;
  }

  lemma SumOfNothing()
    ensures forall value :: SumOf([], value) == 0.0
  {
  }

  /** The means are over the recognised windows, the second with their weights. */
  lemma MeansOfRecognised(rows: seq<Analyzed>)
    ensures var ok := Recognised(rows);
            && (MeanOf(rows) == None <==> ok == [])
            && (ok != [] ==> MeanOf(rows).value * |ok| as real == SumOf(ok, SimilarityOf()))
            && (WeightedOf(rows) == None <==> SumOf(ok, WeightOf()) == 0.0)
            && (SumOf(ok, WeightOf()) != 0.0 ==>
                  WeightedOf(rows).value * SumOf(ok, WeightOf()) == SumOf(ok, SimilarityByWeight()))
  {
    hide Count, OkSimilarity, OkWeight, OkWeighted, SumOf, Recognised;
    OkSums(rows);
    var n, m := Count(rows, OkFlag()), OkWeight(rows);
    if n > 0 { QuotientTimes(OkSimilarity(rows), n as real); }
    if m > 0 { QuotientTimes(OkWeighted(rows), m as real); }
  }

  lemma QuotientTimes(x: real, n: real)
    requires n != 0.0
    ensures x / n * n == x
  {
  }

  ghost function Where(rows: seq<Analyzed>, flag: Analyzed -> bool): set<int> {
    set i | 0 <= i < |rows| && flag(rows[i])
  }

  lemma {:induction false} CountIsSize(rows: seq<Analyzed>, flag: Analyzed -> bool)
    ensures Count(rows, flag) == |Where(rows, flag)|
  {
    if rows == [] {
      assert Where(rows, flag) == {};
    } else {
      var front, last := Init(rows), |rows| - 1;
      CountIsSize(front, flag);
      assert forall i :: 0 <= i < last ==> front[i] == rows[i];
      assert Where(rows, flag) == Where(front, flag) + if flag(rows[last]) then {last} else {};
    }
  }

  lemma AtLeastQuotient(x: real, n: real, limit: real)
    requires n > 0.0
    ensures x / n >= limit <==> x >= limit * n
  {
    var q := x / n;
    assert q * n == x;
    assert q >= limit ==> (q - limit) * n >= 0.0;
    assert q < limit ==> (limit - q) * n > 0.0;
  }

  /** Every window was recognised as a text that is neither blank nor a known misrecognition. */
  ghost predicate AllRecognised(rows: seq<Analyzed>, cmp: Comparison) {
    forall i :: 0 <= i < |rows| ==>
      rows[i].result.ok && Strip(rows[i].result.asrText) != "" && !cmp.weird(rows[i].result.asrText)
  }

  lemma FaultsMeaning(rows: seq<Analyzed>, cmp: Comparison)
    ensures Count(rows, FailedFlag()) == 0 && Count(rows, EmptyFlag()) == 0 && Count(rows, WeirdFlag(cmp)) == 0 <==>
              AllRecognised(rows, cmp)
    ensures AllRecognised(rows, cmp) ==> forall i :: 0 <= i < |rows| ==> rows[i].result.ok
  {
    hide Count, Strip;
    CountZero(rows, FailedFlag());
    CountZero(rows, EmptyFlag());
    CountZero(rows, WeirdFlag(cmp));
  }

  lemma LevelsMeaning(rows: seq<Analyzed>, args: RetryArgs)
    ensures Count(rows, VeryLowFlag(args))
            == |set i | 0 <= i < |rows| && rows[i].similarity < args.veryLowSimilarity|
    ensures Count(rows, LowFlag(args))
            == |set i | 0 <= i < |rows| && args.veryLowSimilarity <= rows[i].similarity < args.lowSimilarity|
  {
    hide Count;
    CountIsSize(rows, VeryLowFlag(args));
    CountIsSize(rows, LowFlag(args));
    assert Where(rows, VeryLowFlag(args)) == set i | 0 <= i < |rows| && rows[i].similarity < args.veryLowSimilarity;
    assert Where(rows, LowFlag(args))
           == set i | 0 <= i < |rows| && args.veryLowSimilarity <= rows[i].similarity < args.lowSimilarity;
  }

  lemma MeansMeaning(rows: seq<Analyzed>, minMean: real, minWeighted: real)
    requires forall i :: 0 <= i < |rows| ==> rows[i].result.ok
    ensures Count(rows, OkFlag()) == |rows|
    ensures MeanOf(rows).Some? && MeanOf(rows).value >= minMean <==>
              rows != [] && SumOf(rows, SimilarityOf()) >= minMean * |rows| as real
    ensures WeightedOf(rows).Some? && WeightedOf(rows).value >= minWeighted <==>
              SumOf(rows, WeightOf()) > 0.0
              && SumOf(rows, SimilarityByWeight()) >= minWeighted * SumOf(rows, WeightOf())
  {
    hide Count, OkSimilarity, OkWeight, OkWeighted, SumOf, Recognised;
    OkSums(rows);
    if rows != [] { AtLeastQuotient(OkSimilarity(rows), |rows| as real, minMean); }
    var m := OkWeight(rows);
    if m > 0 { AtLeastQuotient(OkWeighted(rows), m as real, minWeighted); }
  }

  /** What a passing gate says of the windows: there is one, all were recognised as
      unremarkable non-blank text, the mean, the weighted mean and the whole transcript are
      similar enough, and few enough windows are very low or low. */
  lemma GatePassesIff(rows: seq<Analyzed>, args: RetryArgs, cmp: Comparison, limits: GateLimits)
    ensures GatePasses(Summarize(rows, args, cmp), limits) <==>
              && rows != []
              && AllRecognised(rows, cmp)
              && SumOf(rows, SimilarityOf()) >= limits.minMean * |rows| as real
              && SumOf(rows, WeightOf()) > 0.0
              && SumOf(rows, SimilarityByWeight())
                 >= limits.minWeighted * SumOf(rows, WeightOf())
              && TranscriptSimilarity(rows, cmp) >= limits.minTranscript
              && |set i | 0 <= i < |rows| && rows[i].similarity < args.veryLowSimilarity| <= limits.maxVeryLow
              && |set i | 0 <= i < |rows| && args.veryLowSimilarity <= rows[i].similarity < args.lowSimilarity|
                 <= limits.maxLow
  {
    hide TranscriptSimilarity, Count, MeanOf, WeightedOf, SumOf, AllRecognised;
    FaultsMeaning(rows, cmp);
    LevelsMeaning(rows, args);
    if AllRecognised(rows, cmp) { MeansMeaning(rows, limits.minMean, limits.minWeighted); }
  }

  lemma {:induction false} SumsNotWorse(before: seq<Analyzed>, after: seq<Analyzed>)
    requires AllNotWorse(before, after)
    ensures Count(after, OkFlag()) == Count(before, OkFlag())
    ensures Count(after, FailedFlag()) == Count(before, FailedFlag())
    ensures OkSimilarity(after) >= OkSimilarity(before)
    ensures OkWeight(after) == OkWeight(before) && OkWeighted(after) >= OkWeighted(before)
  {
    hide Weighted;
    if before != [] {
      SumsNotWorse(Init(before), Init(after));
      var b, a := before[|before| - 1], after[|after| - 1];
      assert NotWorse(b, a);
      Heavier(b, a);
    }
  }

  lemma Heavier(before: Analyzed, after: Analyzed)
    requires NotWorse(before, after)
    ensures Weighted(before) <= Weighted(after)
  {
    assert (after.similarity - before.similarity) * before.weight as real >= 0.0;
  }

  /** Counting by comparing row by row: a flag of the later rows against two of the earlier. */
  lemma {:induction false} CountsCompare(before: seq<Analyzed>, after: seq<Analyzed>, flag: Analyzed -> bool,
                                         f: Analyzed -> bool, g: Analyzed -> bool)
    requires |before| == |after|
    requires forall i :: 0 <= i < |before| ==> flag(after[i]) ==> f(before[i]) || g(before[i])
    ensures Count(after, flag) <= Count(before, f) + Count(before, g)
    ensures (forall i :: 0 <= i < |before| ==>
               !(f(before[i]) && g(before[i])) && (f(before[i]) || g(before[i]) ==> flag(after[i]))) ==>
              Count(after, flag) == Count(before, f) + Count(before, g)
  {
    if before != [] {
      var b, a := before[|before| - 1], after[|after| - 1];
      assert flag(a) ==> f(b) || g(b);
      forall i | 0 <= i < |Init(before)| ensures Init(before)[i] == before[i] && Init(after)[i] == after[i] {}
      CountsCompare(Init(before), Init(after), flag, f, g);
    }
  }

  function NoFlag(): Analyzed -> bool { (a: Analyzed) => false }

  lemma {:induction false} CountZero(rows: seq<Analyzed>, flag: Analyzed -> bool)
    ensures Count(rows, flag) == 0 <==> forall i :: 0 <= i < |rows| ==> !flag(rows[i])
  {
    if rows != [] {
      CountZero(Init(rows), flag);
      assert Last(rows) == rows[|rows| - 1];
      forall i | 0 <= i < |Init(rows)| ensures Init(rows)[i] == rows[i] {}
    }
  }

  lemma Quotient(x: real, y: real, n: nat)
    requires x <= y && n > 0
    ensures x / n as real <= y / n as real
  {
    var d := n as real;
    var p, q := x / d, y / d;
    assert p * d == x && q * d == y;
    assert p > q ==> (p - q) * d > 0.0;
  }

  /** Figures that only get better. */
  ghost predicate Improved(before: Summary, after: Summary) {
    && after.total == before.total && after.ok == before.ok && after.failed == before.failed
    && (before.mean.Some? <==> after.mean.Some?)
    && (before.mean.Some? ==> after.mean.value >= before.mean.value)
    && (before.weighted.Some? <==> after.weighted.Some?)
    && (before.weighted.Some? ==> after.weighted.value >= before.weighted.value)
    && after.veryLow <= before.veryLow
    && after.low + after.veryLow <= before.low + before.veryLow
  }

  lemma CountsNotWorse(before: seq<Analyzed>, after: seq<Analyzed>, args: RetryArgs)
    requires AllNotWorse(before, after)
    ensures Count(after, VeryLowFlag(args)) <= Count(before, VeryLowFlag(args))
    ensures Count(after, LowFlag(args)) + Count(after, VeryLowFlag(args))
            <= Count(before, LowFlag(args)) + Count(before, VeryLowFlag(args))
  {
    var low, veryLow := LowFlag(args), VeryLowFlag(args);
    var flagged := (a: Analyzed) => low(a) || veryLow(a);
    forall i | 0 <= i < |before| ensures NotWorse(before[i], after[i]) {}
    CountsCompare(before, after, veryLow, veryLow, NoFlag());
    CountZero(before, NoFlag());
    CountsCompare(before, after, flagged, low, veryLow);
    CountsCompare(after, after, flagged, low, veryLow);
  }

  lemma AfterImproves(rows: seq<Analyzed>, args: RetryArgs, cmp: Comparison, answerOf: Analyzed -> ChunkAnswer)
    ensures Improved(Summarize(rows, args, cmp), Summarize(AfterAll(rows, args, cmp, answerOf), args, cmp))
  {
    hide AllNotWorse, AfterAll, Count, OkSimilarity, OkWeight, OkWeighted, TranscriptSimilarity;
    var after := AfterAll(rows, args, cmp, answerOf);
    AfterNotWorse(rows, args, cmp, answerOf);
    SumsNotWorse(rows, after);
    CountsNotWorse(rows, after, args);
    var n := Count(rows, OkFlag());
    if n > 0 { Quotient(OkSimilarity(rows), OkSimilarity(after), n); }
    if OkWeight(rows) > 0 { Quotient(OkWeighted(rows), OkWeighted(after), OkWeight(rows)); }
  }

  /** What the retry does to the summary: mean and weighted similarity never fall, the
      very-low count never rises, and neither does the number of rows flagged low or
      very low together. */
  lemma RetryImprovesSummary(manifest: seq<ManifestRow>, results: seq<AsrResult>, args: RetryArgs, cmp: Comparison,
                             answerOf: Analyzed -> ChunkAnswer)
    requires UniqueTags(results)
    ensures Improved(Summarize(AnalyzeAll(manifest, cmp, results), args, cmp),
                     Summarize(AnalyzeAll(manifest, cmp, Retried(manifest, results, args, cmp, answerOf)), args, cmp))
  {
    hide AnalyzeAll, Retried, AfterAll, Summarize, Improved;
    RetriedRows(manifest, results, args, cmp, answerOf);
    AfterImproves(AnalyzeAll(manifest, cmp, results), args, cmp, answerOf);
  }

  // ---------------------------------------------------------------- the low count

  /** A text that would turn a very low row into a low one. */
  ghost predicate Promotes(a: Analyzed, args: RetryArgs, cmp: Comparison, text: string) {
    args.veryLowSimilarity <= cmp.similarity(a.expected, text) < args.lowSimilarity
  }

  /** A retried row that some answer moves from very low to low. */
  ghost predicate Promotable(a: Analyzed, args: RetryArgs, cmp: Comparison) {
    VeryLow(a, args) && NeedsRetry(a, args) && exists text :: Promotes(a, args, cmp, text)
  }

  ghost function PromotableFlag(args: RetryArgs, cmp: Comparison): Analyzed -> bool {
    a => Promotable(a, args, cmp)
  }

  /** The answers that raise the low count most: a promoting text where there is one, a
      failure everywhere else. */
  ghost function WorstAnswer(a: Analyzed, args: RetryArgs, cmp: Comparison): ChunkAnswer {
    if Promotable(a, args, cmp) then
      var text :| Promotes(a, args, cmp, text);
      ChunkAnswer(true, text)
    else ChunkAnswer(false, "")
  }

  ghost function WorstAnswers(args: RetryArgs, cmp: Comparison): Analyzed -> ChunkAnswer {
    a => WorstAnswer(a, args, cmp)
  }

  /** The low count rises by at most the promotable rows, and for some answers by all of them. */
  lemma LowCountBound(rows: seq<Analyzed>, args: RetryArgs, cmp: Comparison, answerOf: Analyzed -> ChunkAnswer)
    ensures Count(AfterAll(rows, args, cmp, answerOf), LowFlag(args))
            <= Count(rows, LowFlag(args)) + Count(rows, PromotableFlag(args, cmp))
    ensures Count(AfterAll(rows, args, cmp, WorstAnswers(args, cmp)), LowFlag(args))
            == Count(rows, LowFlag(args)) + Count(rows, PromotableFlag(args, cmp))
  {
    hide Count, NeedsRetry, Promotable, AfterAll;
    var low, promotable := LowFlag(args), PromotableFlag(args, cmp);
    LowRows(rows, args, cmp, answerOf);
    CountsCompare(rows, AfterAll(rows, args, cmp, answerOf), low, low, promotable);
    LowRows(rows, args, cmp, WorstAnswers(args, cmp));
    WorstRows(rows, args, cmp);
    CountsCompare(rows, AfterAll(rows, args, cmp, WorstAnswers(args, cmp)), low, low, promotable);
  }

  lemma LowRows(rows: seq<Analyzed>, args: RetryArgs, cmp: Comparison, answerOf: Analyzed -> ChunkAnswer)
    ensures forall i :: 0 <= i < |rows| ==> Low(AfterAll(rows, args, cmp, answerOf)[i], args) ==>
              Low(rows[i], args) || Promotable(rows[i], args, cmp)
  {
    forall i | 0 <= i < |rows| && Low(AfterAll(rows, args, cmp, answerOf)[i], args) && !Low(rows[i], args)
      ensures Promotable(rows[i], args, cmp)
    {
      assert Promotes(rows[i], args, cmp, answerOf(rows[i]).text);
    }
  }

  lemma WorstRows(rows: seq<Analyzed>, args: RetryArgs, cmp: Comparison)
    ensures forall i :: 0 <= i < |rows| ==>
              && !(Low(rows[i], args) && Promotable(rows[i], args, cmp))
              && (Low(rows[i], args) || Promotable(rows[i], args, cmp) ==>
                    Low(AfterAll(rows, args, cmp, WorstAnswers(args, cmp))[i], args))
  {
  }

  // ---------------------------------------------------------------- the gate

  /** The analysis after the retry. */
  function FinalRows(manifest: seq<ManifestRow>, results: seq<AsrResult>, args: RetryArgs, cmp: Comparison,
                     answerOf: Analyzed -> ChunkAnswer): seq<Analyzed> {
    AnalyzeAll(manifest, cmp, Retried(manifest, results, args, cmp, answerOf))
  }

  /** Some outcome of the retry raises the low count if and only if some row is promotable. */
  lemma LowCountRisesIff(manifest: seq<ManifestRow>, results: seq<AsrResult>, args: RetryArgs, cmp: Comparison)
    requires UniqueTags(results)
    ensures var rows := AnalyzeAll(manifest, cmp, results);
            (exists answerOf ::
               Count(FinalRows(manifest, results, args, cmp, answerOf), LowFlag(args)) > Count(rows, LowFlag(args)))
            <==> exists i :: 0 <= i < |rows| && Promotable(rows[i], args, cmp)
  {
    hide Count, Promotable, AfterAll, AnalyzeAll, Retried, FinalRows;
    var rows := AnalyzeAll(manifest, cmp, results);
    var promotable := PromotableFlag(args, cmp);
    CountZero(rows, promotable);
    forall i | 0 <= i < |rows| ensures promotable(rows[i]) <==> Promotable(rows[i], args, cmp) {}
    forall answerOf: Analyzed -> ChunkAnswer
      ensures FinalRows(manifest, results, args, cmp, answerOf) == AfterAll(rows, args, cmp, answerOf)
      ensures Count(AfterAll(rows, args, cmp, answerOf), LowFlag(args))
              <= Count(rows, LowFlag(args)) + Count(rows, promotable)
    {
      FinalIsAfter(manifest, results, args, cmp, answerOf);
      LowCountBound(rows, args, cmp, answerOf);
    }
    LowCountBound(rows, args, cmp, WorstAnswers(args, cmp));
    assert FinalRows(manifest, results, args, cmp, WorstAnswers(args, cmp))
           == AfterAll(rows, args, cmp, WorstAnswers(args, cmp));
  }

  /** A gate whose row checks pass keeps them under every outcome of the retry if and only
      if the low rows and the promotable rows together are no more than allowed. */
  lemma RowChecksKeptIff(manifest: seq<ManifestRow>, results: seq<AsrResult>, args: RetryArgs, cmp: Comparison,
                         limits: GateLimits)
    requires UniqueTags(results)
    requires RowChecksPass(Summarize(AnalyzeAll(manifest, cmp, results), args, cmp), limits)
    ensures var rows := AnalyzeAll(manifest, cmp, results);
            (forall answerOf ::
               RowChecksPass(Summarize(FinalRows(manifest, results, args, cmp, answerOf), args, cmp), limits))
            <==> Count(rows, LowFlag(args)) + Count(rows, PromotableFlag(args, cmp)) <= limits.maxLow
  {
    hide Count, Promotable, AfterAll, AnalyzeAll, Retried, MeanOf, WeightedOf, TranscriptSimilarity, FinalRows;
    var rows := AnalyzeAll(manifest, cmp, results);
    forall answerOf: Analyzed -> ChunkAnswer
      ensures FinalRows(manifest, results, args, cmp, answerOf) == AfterAll(rows, args, cmp, answerOf)
      ensures Count(rows, LowFlag(args)) + Count(rows, PromotableFlag(args, cmp)) <= limits.maxLow ==>
                RowChecksPass(Summarize(AfterAll(rows, args, cmp, answerOf), args, cmp), limits)
    {
      FinalIsAfter(manifest, results, args, cmp, answerOf);
      LowCountBound(rows, args, cmp, answerOf);
      AfterImproves(rows, args, cmp, answerOf);
    }
    LowCountBound(rows, args, cmp, WorstAnswers(args, cmp));
    assert FinalRows(manifest, results, args, cmp, WorstAnswers(args, cmp))
           == AfterAll(rows, args, cmp, WorstAnswers(args, cmp));
  }

  lemma FinalIsAfter(manifest: seq<ManifestRow>, results: seq<AsrResult>, args: RetryArgs, cmp: Comparison,
                     answerOf: Analyzed -> ChunkAnswer)
    requires UniqueTags(results)
    ensures FinalRows(manifest, results, args, cmp, answerOf)
            == AfterAll(AnalyzeAll(manifest, cmp, results), args, cmp, answerOf)
  {
    hide AnalyzeAll, Retried, AfterAll;
    RetriedRows(manifest, results, args, cmp, answerOf);
  }

  /** A blank text scores above another only where that one scores nothing, as when the
      expected text is blank itself. */
  ghost predicate BlankNeverWins(cmp: Comparison) {
    forall e, text, blank :: Strip(blank) == "" && cmp.similarity(e, blank) > cmp.similarity(e, text) ==>
      cmp.similarity(e, text) <= 0.0
  }

  lemma NoNewBlanks(manifest: seq<ManifestRow>, results: seq<AsrResult>, args: RetryArgs, cmp: Comparison,
                    answerOf: Analyzed -> ChunkAnswer)
    requires BlankNeverWins(cmp) && args.veryLowSimilarity > 0.0
    requires Count(AnalyzeAll(manifest, cmp, results), VeryLowFlag(args)) == 0
    ensures var rows := AnalyzeAll(manifest, cmp, results);
            Count(AfterAll(rows, args, cmp, answerOf), EmptyFlag()) <= Count(rows, EmptyFlag())
  {
    hide Count, Strip, NeedsRetry;
    var rows := AnalyzeAll(manifest, cmp, results);
    var veryLow, blank := VeryLowFlag(args), EmptyFlag();
    CountZero(rows, veryLow);
    forall i | 0 <= i < |rows| && blank(AfterAll(rows, args, cmp, answerOf)[i]) ensures blank(rows[i]) {
      assert !veryLow(rows[i]);
      assert rows[i].similarity == cmp.similarity(rows[i].expected, rows[i].result.asrText);
    }
    CountsCompare(rows, AfterAll(rows, args, cmp, answerOf), blank, blank, NoFlag());
    CountZero(rows, NoFlag());
  }

  /** With no very-low row allowed, as by default, the retry of a passing audit keeps all
      checks but two: the gate still passes exactly when the retried texts make the whole
      transcript similar enough and contain no known misrecognition. */
  lemma RetryKeepsGateIff(manifest: seq<ManifestRow>, results: seq<AsrResult>, args: RetryArgs, cmp: Comparison,
                          answerOf: Analyzed -> ChunkAnswer, limits: GateLimits)
    requires UniqueTags(results) && limits.maxVeryLow == 0
    requires BlankNeverWins(cmp) && args.veryLowSimilarity > 0.0
    requires GatePasses(Summarize(AnalyzeAll(manifest, cmp, results), args, cmp), limits)
    ensures var after := Summarize(FinalRows(manifest, results, args, cmp, answerOf), args, cmp);
            GatePasses(after, limits) <==> after.transcript >= limits.minTranscript && after.weird <= 0
  {
    hide Count, AfterAll, AnalyzeAll, Retried, MeanOf, WeightedOf, TranscriptSimilarity, FinalRows, BlankNeverWins;
    var rows := AnalyzeAll(manifest, cmp, results);
    FinalIsAfter(manifest, results, args, cmp, answerOf);
    AfterImproves(rows, args, cmp, answerOf);
    NoNewBlanks(manifest, results, args, cmp, answerOf);
  }

  /** A retried row that some answer would replace. */
  ghost predicate Improvable(a: Analyzed, args: RetryArgs, cmp: Comparison) {
    NeedsRetry(a, args) && exists text :: cmp.similarity(a.expected, text) > a.similarity
  }

  ghost function BetterAnswer(a: Analyzed, args: RetryArgs, cmp: Comparison): ChunkAnswer {
    if Improvable(a, args, cmp) then
      var text :| cmp.similarity(a.expected, text) > a.similarity;
      ChunkAnswer(true, text)
    else ChunkAnswer(false, "")
  }

  ghost function BetterAnswers(args: RetryArgs, cmp: Comparison): Analyzed -> ChunkAnswer {
    a => BetterAnswer(a, args, cmp)
  }

  /** The results, and with them every figure and every check, are certain to stay as they
      are if and only if no row is improvable, as when none is flagged and long enough. */
  lemma RetryIdleIff(manifest: seq<ManifestRow>, results: seq<AsrResult>, args: RetryArgs, cmp: Comparison)
    requires UniqueTags(results)
    ensures var rows := AnalyzeAll(manifest, cmp, results);
            (forall answerOf :: Retried(manifest, results, args, cmp, answerOf) == results)
            <==> forall i :: 0 <= i < |rows| ==> !Improvable(rows[i], args, cmp)
  {
    hide NeedsRetry, Chunks, FindChunk, Choose, ExpectedText, Retried;
    var rows := AnalyzeAll(manifest, cmp, results);
    forall answerOf: Analyzed -> ChunkAnswer, i: nat | i < |rows|
      ensures Retried(manifest, results, args, cmp, answerOf)[i]
              == After(rows[i], args, cmp, answerOf(rows[i])).result
    {
      RetriedRows(manifest, results, args, cmp, answerOf);
      assert AfterAll(rows, args, cmp, answerOf)[i].result == Retried(manifest, results, args, cmp, answerOf)[i];
    }
    if i :| 0 <= i < |rows| && Improvable(rows[i], args, cmp) {
      assert Retried(manifest, results, args, cmp, BetterAnswers(args, cmp))[i] != results[i];
    } else {
      forall answerOf: Analyzed -> ChunkAnswer
        ensures Retried(manifest, results, args, cmp, answerOf) == results
      {
        forall i | 0 <= i < |rows| ensures Retried(manifest, results, args, cmp, answerOf)[i] == results[i] {
          assert !Replaced(rows[i], args, cmp, answerOf(rows[i]));
        }
      }
    }
  }
}
