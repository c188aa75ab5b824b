/** Concrete audits in which a retry makes a check fail that had passed. */
module RetryExample {
  import opened Numbers
  import opened Sequences
  import opened Text
  import opened ChunkRetry

  // ---------------------------------------------------------------- plain texts

  ghost predicate Letters(s: string) { forall c :: c in s ==> 'a' <= c <= 'z' }

  /** Letters and line ends: comparing drops the line ends and keeps the rest. */
  ghost predicate Plain(s: string) { forall c :: c in s ==> 'a' <= c <= 'z' || c == '\n' }

  ghost predicate Near(x: real, y: real) { y - 0.00005 <= x <= y + 0.00005 }

  /** How the source compares two plain texts one of which starts with the other: the
      shorter one is the matching block, so the ratio is twice its length over both
      lengths, rounded to four digits. */
  ghost predicate RatesPrefixes(cmp: Comparison) {
    && (forall e, t ::
          Plain(e) && Plain(t) && Squeeze(e) != "" && CountChars(t) < 200
          && (Squeeze(e) <= Squeeze(t) || Squeeze(t) <= Squeeze(e)) ==>
            Near(cmp.similarity(e, t), PrefixRatio(CountChars(e), CountChars(t))))
    && (forall e :: Plain(e) ==> cmp.weight(e) == CountChars(e) && !cmp.weird(e))
  }

  function PrefixRatio(e: nat, t: nat): real
    requires e + t > 0
  {
    (2 * Min(e, t)) as real / (e + t) as real
  }

  lemma {:induction false} LettersStay(s: string)
    requires Letters(s)
    ensures Squeeze(s) == s && Plain(s)
  {
    if s != "" {
      assert s[0] in s;
      forall c | c in s[1..] ensures 'a' <= c <= 'z' { assert c in s; }
      LettersStay(s[1..]);
    }
  }

  lemma PlainConcat(a: string, b: string)
    requires Plain(a) && Plain(b)
    ensures Plain(a + b) && Squeeze(a + b) == Squeeze(a) + Squeeze(b)
  {
    SqueezeConcat(a, b);
  }

  lemma LineEnd()
    ensures Plain("\n") && Squeeze("\n") == ""
  {
    assert "\n"[1..] == "";
  }

  /** Three rows as one transcript. */
  lemma ThreeLines(a: string, b: string, c: string)
    requires Letters(a) && Letters(b) && Letters(c)
    ensures Plain(Lines([a, b, c])) && Squeeze(Lines([a, b, c])) == a + b + c
  {
    hide Squeeze;
    assert Init([a, b, c]) == [a, b] && Init([a, b]) == [a];
    assert Lines([a]) == a;
    assert Lines([a, b]) == (a + "\n") + b;
    assert Lines([a, b, c]) == (((a + "\n") + b) + "\n") + c;
    LettersStay(a);
    LettersStay(b);
    LettersStay(c);
    LineEnd();
    PlainConcat(a, "\n");
    PlainConcat(a + "\n", b);
    PlainConcat((a + "\n") + b, "\n");
    PlainConcat(((a + "\n") + b) + "\n", c);
    assert ((((a + "") + b) + "") + c) == a + b + c;
  }

  lemma CountThree(a: Analyzed, b: Analyzed, c: Analyzed, flag: Analyzed -> bool)
    ensures Count([a, b, c], flag)
            == (if flag(a) then 1 else 0) + (if flag(b) then 1 else 0) + (if flag(c) then 1 else 0)
  {
    assert Init([a, b, c]) == [a, b] && Init([a, b]) == [a] && Init([a]) == [];
    assert Count([a], flag) == if flag(a) then 1 else 0;
    assert Count([a, b], flag) == Count([a], flag) + if flag(b) then 1 else 0;
  }

  lemma WeightedTwenty(a: Analyzed)
    requires a.weight == 20
    ensures Weighted(a) == a.similarity * 20.0
  {
  }

  lemma SumsOfThree(a: Analyzed, b: Analyzed, c: Analyzed)
    requires a.result.ok && b.result.ok && c.result.ok
    requires a.weight == 20 && b.weight == 20 && c.weight == 20
    ensures OkSimilarity([a, b, c]) == a.similarity + b.similarity + c.similarity
    ensures OkWeight([a, b, c]) == 60
    ensures OkWeighted([a, b, c]) == (a.similarity + b.similarity + c.similarity) * 20.0
  {
    hide Weighted;
    assert Init([a, b, c]) == [a, b] && Init([a, b]) == [a] && Init([a]) == [];
    assert OkSimilarity([]) == 0.0 && OkWeight([]) == 0 && OkWeighted([]) == 0.0;
    assert OkSimilarity([a]) == a.similarity && OkWeight([a]) == 20 && OkWeighted([a]) == Weighted(a);
    assert OkSimilarity([a, b]) == a.similarity + b.similarity && OkWeight([a, b]) == 40;
    assert OkWeighted([a, b]) == Weighted(a) + Weighted(b);
    WeightedTwenty(a);
    WeightedTwenty(b);
    WeightedTwenty(c);
  }

  /** The figures of three rows of twenty characters each. */
  lemma SummaryOfThree(a: Analyzed, b: Analyzed, c: Analyzed, args: RetryArgs, cmp: Comparison)
    requires a.result.ok && b.result.ok && c.result.ok
    requires a.weight == 20 && b.weight == 20 && c.weight == 20
    ensures var s := Summarize([a, b, c], args, cmp); var total := a.similarity + b.similarity + c.similarity;
            && s.total == 3 && s.ok == 3 && s.failed == 0
            && s.mean == Some(total / 3.0) && s.weighted == Some(total * 20.0 / 60.0)
            && s.transcript == cmp.similarity(Lines([a.expected, b.expected, c.expected]),
                                              Lines([a.result.asrText, b.result.asrText, c.result.asrText]))
  {
    hide Lines, Count, OkSimilarity, OkWeight, OkWeighted;
    var rows := [a, b, c];
    CountThree(a, b, c, OkFlag());
    CountThree(a, b, c, FailedFlag());
    SumsOfThree(a, b, c);
    assert ExpectedTexts(rows) == [a.expected, b.expected, c.expected];
    assert AsrTexts(rows) == [a.result.asrText, b.result.asrText, c.result.asrText];
  }

  function Heard(tag: string, expected: string, text: string): AsrResult {
    AsrResult(tag, true, expected, text, 0, 20000)
  }

  /** The analysis of a plain row that is heard as far as `text` goes. */
  lemma PrefixRow(manifest: seq<ManifestRow>, cmp: Comparison, tag: string, expected: string, text: string)
    requires RatesPrefixes(cmp) && Letters(expected) && Letters(text) && |expected| == 20 && 8 <= |text| < 200
    requires text <= expected || expected <= text
    ensures var a := Analyze(manifest, cmp, Heard(tag, expected, text));
            && a.result == Heard(tag, expected, text) && a.expected == expected && a.weight == 20
            && Near(a.similarity, PrefixRatio(20, |text|))
            && !cmp.weird(text) && Strip(text) != ""
  {
    LettersStay(expected);
    LettersStay(text);
    StripEmpty(text);
  }

  /** The whole transcript when the first two rows are heard and the third to some length. */
  lemma TranscriptOf(cmp: Comparison, p: string, q: string, e: string, text: string)
    requires RatesPrefixes(cmp) && Letters(p) && Letters(q) && Letters(e) && Letters(text)
    requires |p| == |q| == |e| == 20 && |text| < 100 && (text <= e || e <= text)
    ensures Near(cmp.similarity(Lines([p, q, e]), Lines([p, q, text])), PrefixRatio(60, 40 + |text|))
  {
    hide Squeeze, Lines, PrefixRatio;
    ThreeLines(p, q, e);
    ThreeLines(p, q, text);
    var expected, asr := Lines([p, q, e]), Lines([p, q, text]);
    assert Squeeze(expected) == p + q + e && Squeeze(asr) == p + q + text;
    if text <= e {
      assert p + q + text <= p + q + e;
    } else {
      assert p + q + e <= p + q + text;
    }
  }

  function Rows(manifest: seq<ManifestRow>, cmp: Comparison, p: string, q: string, e: string, text: string)
    : seq<Analyzed>
  {
    [Analyze(manifest, cmp, Heard("1", p, p)), Analyze(manifest, cmp, Heard("2", q, q)),
     Analyze(manifest, cmp, Heard("3", e, text))]
  }

  /** The figures of three rows of which the third is heard as far as `text` goes. */
  lemma RowsFigures(manifest: seq<ManifestRow>, cmp: Comparison, p: string, q: string, e: string, text: string)
    requires RatesPrefixes(cmp) && Letters(p) && Letters(q) && Letters(e) && Letters(text)
    requires |p| == |q| == |e| == 20 && |text| in {8, 10, 38} && (text <= e || e <= text)
    ensures var s := Summarize(Rows(manifest, cmp, p, q, e, text), DEFAULT_ARGS, cmp);
            var mean := (2.0 + PrefixRatio(20, |text|)) / 3.0;
            && s.ok == s.total && s.failed == 0 && s.blank == 0 && s.weird == 0
            && s.mean.Some? && Near(s.mean.value, mean) && s.weighted.Some? && Near(s.weighted.value, mean)
            && s.veryLow == (if |text| == 8 then 1 else 0) && s.low == (if |text| == 8 then 0 else 1)
            && Near(s.transcript, PrefixRatio(60, 40 + |text|))
  {
    hide Squeeze, Strip, Lines, Count, Analyze, RatesPrefixes, Letters, PrefixRatio;
    PrefixRow(manifest, cmp, "1", p, p);
    PrefixRow(manifest, cmp, "2", q, q);
    PrefixRow(manifest, cmp, "3", e, text);
    Ratios();
    var rows := Rows(manifest, cmp, p, q, e, text);
    var a, b, c := rows[0], rows[1], rows[2];
    SummaryOfThree(a, b, c, DEFAULT_ARGS, cmp);
    CountThree(a, b, c, EmptyFlag());
    CountThree(a, b, c, WeirdFlag(cmp));
    CountThree(a, b, c, VeryLowFlag(DEFAULT_ARGS));
    CountThree(a, b, c, LowFlag(DEFAULT_ARGS));
    TranscriptOf(cmp, p, q, e, text);
  }

  lemma Ratios()
    ensures PrefixRatio(20, 20) == 1.0 && PrefixRatio(20, 8) == 16.0 / 28.0
    ensures PrefixRatio(20, 10) == 20.0 / 30.0 && PrefixRatio(20, 38) == 40.0 / 58.0
  {
  }

  lemma LetterParts(e: string, x: string)
    requires Letters(e) && Letters(x) && |e| == 20
    ensures Letters(e[..8]) && Letters(e[..10]) && Letters(e + x)
  {
    forall c | c in e[..8] ensures 'a' <= c <= 'z' { assert c in e; }
    forall c | c in e[..10] ensures 'a' <= c <= 'z' { assert c in e; }
    forall c | c in e + x ensures 'a' <= c <= 'z' { assert c in e || c in x; }
  }

  /** Only the third row is retried, and it is replaced. */
  lemma RowsAfter(manifest: seq<ManifestRow>, cmp: Comparison, answerOf: Analyzed -> ChunkAnswer,
                  p: string, q: string, e: string, text: string, better: string)
    requires RatesPrefixes(cmp)
    requires Letters(p) && Letters(q) && Letters(e) && Letters(text) && Letters(better)
    requires |p| == |q| == |e| == 20 && text <= e && (better <= e || e <= better)
    requires (|text| == 8 && |better| == 10) || (|text| == 10 && |better| == 38)
    requires forall a :: answerOf(a) == ChunkAnswer(true, better)
    ensures AfterAll(Rows(manifest, cmp, p, q, e, text), DEFAULT_ARGS, cmp, answerOf)
            == Rows(manifest, cmp, p, q, e, better)
  {
    hide RatesPrefixes, Letters, Strip, FindRow, PrefixRatio;
    PrefixRow(manifest, cmp, "1", p, p);
    PrefixRow(manifest, cmp, "2", q, q);
    PrefixRow(manifest, cmp, "3", e, text);
    PrefixRow(manifest, cmp, "3", e, better);
    Ratios();
    var rows := Rows(manifest, cmp, p, q, e, text);
    var after := Rows(manifest, cmp, p, q, e, better);
    assert After(rows[0], DEFAULT_ARGS, cmp, answerOf(rows[0])) == after[0];
    assert After(rows[1], DEFAULT_ARGS, cmp, answerOf(rows[1])) == after[1];
    assert After(rows[2], DEFAULT_ARGS, cmp, answerOf(rows[2])) == after[2];
  }

  function Results(p: string, q: string, e: string, text: string): seq<AsrResult> {
    [Heard("1", p, p), Heard("2", q, q), Heard("3", e, text)]
  }

  /** The figures before and after the retry of the third row. */
  lemma FiguresAfter(manifest: seq<ManifestRow>, cmp: Comparison, answerOf: Analyzed -> ChunkAnswer,
                     p: string, q: string, e: string, text: string, better: string)
    requires RatesPrefixes(cmp)
    requires Letters(p) && Letters(q) && Letters(e) && Letters(text) && Letters(better)
    requires |p| == |q| == |e| == 20 && text <= e && (better <= e || e <= better)
    requires (|text| == 8 && |better| == 10) || (|text| == 10 && |better| == 38)
    requires forall a :: answerOf(a) == ChunkAnswer(true, better)
    ensures AnalyzeAll(manifest, cmp, Results(p, q, e, text)) == Rows(manifest, cmp, p, q, e, text)
    ensures FinalRows(manifest, Results(p, q, e, text), DEFAULT_ARGS, cmp, answerOf)
            == Rows(manifest, cmp, p, q, e, better)
  {
    hide FinalRows, Letters, RatesPrefixes, Analyze, AfterAll;
    assert AnalyzeAll(manifest, cmp, Results(p, q, e, text)) == Rows(manifest, cmp, p, q, e, text);
    FinalIsAfter(manifest, Results(p, q, e, text), DEFAULT_ARGS, cmp, answerOf);
    RowsAfter(manifest, cmp, answerOf, p, q, e, text, better);
  }

  // ---------------------------------------------------------------- two checks that can fail

  /** Of 20 characters 8 are heard: very low. The retry hears 10: low. So the low count
      rises, and a gate that tolerates a very low row but no low one fails after passing,
      although everything that was heard got closer. */
  lemma LowCountMayRise(manifest: seq<ManifestRow>, cmp: Comparison, answerOf: Analyzed -> ChunkAnswer,
                        p: string, q: string, e: string)
    requires RatesPrefixes(cmp) && Letters(p) && Letters(q) && Letters(e) && |p| == |q| == |e| == 20
    requires forall a :: answerOf(a) == ChunkAnswer(true, e[..10])
    ensures var results := Results(p, q, e, e[..8]);
            var before := Summarize(AnalyzeAll(manifest, cmp, results), DEFAULT_ARGS, cmp);
            var after := Summarize(FinalRows(manifest, results, DEFAULT_ARGS, cmp, answerOf), DEFAULT_ARGS, cmp);
            var limits := GateLimits(0.85, 0.85, 0.88, 1, 0);
            && before.low == 0 && after.low == 1 && after.veryLow == 0
            && GatePasses(before, limits) && !GatePasses(after, limits)
  {
    hide FinalRows, AnalyzeAll, Summarize, Letters, RatesPrefixes, Rows;
    LetterParts(e, e);
    FiguresAfter(manifest, cmp, answerOf, p, q, e, e[..8], e[..10]);
    RowsFigures(manifest, cmp, p, q, e, e[..8]);
    RowsFigures(manifest, cmp, p, q, e, e[..10]);
    assert |e[..8]| == 8 && |e[..10]| == 10;
    assert PrefixRatio(20, 8) == 16.0 / 28.0 && PrefixRatio(60, 48) == 96.0 / 108.0;
  }

  /** A row is heard halfway, 10 of 20 characters: low, but not very low. Its retry hears
      everything and 18 foreign characters more, which is a little closer to the row and
      so replaces it. At the default limits an audit that passed then fails, by the one
      check that looks at the whole transcript. */
  lemma TranscriptMayFall(manifest: seq<ManifestRow>, cmp: Comparison, answerOf: Analyzed -> ChunkAnswer,
                          p: string, q: string, e: string, x: string)
    requires RatesPrefixes(cmp)
    requires Letters(p) && Letters(q) && Letters(e) && Letters(x)
    requires |p| == |q| == |e| == 20 && |x| == 18
    requires forall a :: answerOf(a) == ChunkAnswer(true, e + x)
    ensures var results := Results(p, q, e, e[..10]);
            var before := Summarize(AnalyzeAll(manifest, cmp, results), DEFAULT_ARGS, cmp);
            var after := Summarize(FinalRows(manifest, results, DEFAULT_ARGS, cmp, answerOf), DEFAULT_ARGS, cmp);
            && GatePasses(before, DEFAULT_LIMITS) && !GatePasses(after, DEFAULT_LIMITS)
            && RowChecksPass(after, DEFAULT_LIMITS) && after.transcript < 0.90 <= before.transcript
  {
    hide FinalRows, AnalyzeAll, Summarize, Letters, RatesPrefixes, Rows;
    LetterParts(e, x);
    FiguresAfter(manifest, cmp, answerOf, p, q, e, e[..10], e + x);
    RowsFigures(manifest, cmp, p, q, e, e[..10]);
    RowsFigures(manifest, cmp, p, q, e, e + x);
    assert |e[..10]| == 10 && |e + x| == 38;
    Ratios();
    assert PrefixRatio(60, 50) == 100.0 / 110.0 && PrefixRatio(60, 78) == 120.0 / 138.0;
  }
}
