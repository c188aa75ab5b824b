/** The resumable ASR batch (`run_asr_batch`): two files, interrupted runs. */
module AsrBatch {
  import opened Numbers
  import opened Sequences

  /** A window to transcribe. */
  datatype Item = Item(tag: string, episodeId: int, chapter: int, segment: int)

  /** What the recogniser says about one window. */
  datatype Answer = Answer(ok: bool, text: string)

  /** A recorded result. */
  datatype AsrRow = AsrRow(item: Item, answer: Answer)

  /** One execution of the batch script: it answers items in order and may be cut short
      by an exception after some number of them; without an exception all are answered. */
  datatype Batch = Batch(answerOf: Item -> Answer, fails: bool, answered: nat)

  datatype Outcome = Finished(rows: seq<AsrRow>) | Interrupted

  function Label(row: AsrRow): string { row.item.tag }

  function Labels(rows: seq<AsrRow>): set<string> { set r | r in rows :: Label(r) }

  // ---------------------------------------------------------------- the label dictionary

  /** Position of a label in an insertion-ordered dictionary. */
  function Slot(dict: seq<AsrRow>, tag: string): (k: nat)
    ensures k <= |dict|
    ensures k < |dict| ==> Label(dict[k]) == tag
    ensures forall i :: 0 <= i < k ==> Label(dict[i]) != tag
  {
    if dict == [] then 0
    else
      var k := Slot(Init(dict), tag);
      if k == |dict| - 1 && Label(Last(dict)) != tag then |dict| else k
  }

  /** `by_label[label] = row` for a non-empty label: replaces in place or appends. */
  function Put(dict: seq<AsrRow>, row: AsrRow): seq<AsrRow> {
    if Label(row) == "" then dict
    else
      var k := Slot(dict, Label(row));
      if k < |dict| then dict[k := row] else dict + [row]
  }

  function PutAll(dict: seq<AsrRow>, rows: seq<AsrRow>): seq<AsrRow> {
    if rows == [] then dict else Put(PutAll(dict, Init(rows)), Last(rows))
  }

  method PutEach(dict: seq<AsrRow>, rows: seq<AsrRow>) returns (result: seq<AsrRow>)
    ensures result == PutAll(dict, rows)
  {
    result := dict;
    for k := 0 to |rows|
      invariant result == PutAll(dict, rows[..k])
    {
      assert Init(rows[..k + 1]) == rows[..k];
      result := Put(result, rows[k]);
    }
    assert rows[..|rows|] == rows;
  }

  // ---------------------------------------------------------------- one run

  /** The two result files; None is a file that does not exist. */
  datatype Files = Files(raw: Option<seq<AsrRow>>, remaining: Option<seq<AsrRow>>)

  function Content(file: Option<seq<AsrRow>>): seq<AsrRow> {
    match file case Some(rows) => rows case None => []
  }

  function OfEpisode(rows: seq<AsrRow>, episode: int): seq<AsrRow> {
    if rows == [] then []
    else OfEpisode(Init(rows), episode) + if Last(rows).item.episodeId == episode then [Last(rows)] else []
  }

  /** The results a run starts from: with resume, the rows of this episode in the two
      files; a row of the remaining file replaces the raw row of the same label. */
  function Known(files: Files, resume: bool, episode: int): seq<AsrRow> {
    PutAll([], OfEpisode(if resume then Content(files.raw) + Content(files.remaining) else [], episode))
  }

  function Without(manifest: seq<Item>, labels: set<string>): seq<Item> {
    if manifest == [] then []
    else Without(Init(manifest), labels) + if Last(manifest).tag in labels then [] else [Last(manifest)]
  }

  /** The windows sent to the recogniser. */
  function Pending(files: Files, resume: bool, episode: int, manifest: seq<Item>): seq<Item> {
    Without(manifest, Labels(Known(files, resume, episode)))
  }

  function AnsweredCount(pending: seq<Item>, batch: Batch): nat {
    if batch.fails then Min(batch.answered, |pending|) else |pending|
  }

  /** What the batch script leaves in the remaining file. */
  function BatchRows(pending: seq<Item>, batch: Batch): (rows: seq<AsrRow>)
    ensures |rows| == AnsweredCount(pending, batch)
  {
    seq(AnsweredCount(pending, batch),
        i requires 0 <= i < |pending| => AsrRow(pending[i], batch.answerOf(pending[i])))
  }

  predicate RowLe(a: AsrRow, b: AsrRow) {
    a.item.chapter < b.item.chapter || (a.item.chapter == b.item.chapter && a.item.segment <= b.item.segment)
  }

  function SortRows(rows: seq<AsrRow>): seq<AsrRow> { StableSort(rows, RowLe) }

  /** The files and the outcome after a run. */
  function Run(files: Files, resume: bool, episode: int, manifest: seq<Item>, batch: Batch): (Files, Outcome) {
    var known := Known(files, resume, episode);
    var pending := Pending(files, resume, episode, manifest);
    if pending == [] then
      (files.(raw := Some(SortRows(known))), Finished(SortRows(known)))
    else
      var rows := BatchRows(pending, batch);
      var merged := SortRows(PutAll(known, rows));
      var after := Files(if rows == [] then files.raw else Some(merged), if rows == [] then None else Some(rows));
      (after, if batch.fails then Interrupted else Finished(merged))
  }

  /** The output directory of one audit. */
  class OutputDir {
    var raw: Option<seq<AsrRow>>
    var remaining: Option<seq<AsrRow>>

    function State(): Files
      reads this
    {
      Files(raw, remaining)
    }

    constructor ()
      ensures State() == Files(None, None)
    {
      raw, remaining := None, None;
    }

    /** One run of the batch. The block that follows the script runs whether or not the
        script was interrupted, the last lines only when it was not. */
    method RunAsrBatch(resume: bool, episode: int, manifest: seq<Item>, batch: Batch) returns (outcome: Outcome)
      modifies this
      ensures (State(), outcome) == Run(old(State()), resume, episode, manifest, batch)
    {
      hide StableSort, PutAll;
      var existing: seq<AsrRow> := [];
      if resume && raw.Some? { existing := raw.value; }
      if resume && remaining.Some? { existing := existing + remaining.value; }
      var own := KeepEpisode(existing, episode);
      assert existing == if resume then Content(raw) + Content(remaining) else [];
      var byLabel := PutEach([], own);
      var pending := KeepPending(manifest, byLabel);
      existing := byLabel;
      if pending != [] {
        remaining := None;
        var rows := RunScript(pending, batch);
        if rows != [] { remaining := Some(rows); }
        if remaining.Some? {
          byLabel := PutEach(byLabel, remaining.value);
          existing := SortRows(byLabel);
          raw := Some(existing);
        }
        if batch.fails { return Interrupted; }
        SortSorted(byLabel);
      }
      existing := SortRows(existing);
      raw := Some(existing);
      outcome := Finished(existing);
    }
  }

  method KeepEpisode(rows: seq<AsrRow>, episode: int) returns (kept: seq<AsrRow>)
    ensures kept == OfEpisode(rows, episode)
  {
    kept := [];
    for k := 0 to |rows|
      invariant kept == OfEpisode(rows[..k], episode)
    {
      assert Init(rows[..k + 1]) == rows[..k];
      if rows[k].item.episodeId == episode { kept := kept + [rows[k]]; }
    }
    assert rows[..|rows|] == rows;
  }

  method KeepPending(manifest: seq<Item>, known: seq<AsrRow>) returns (pending: seq<Item>)
    ensures pending == Without(manifest, Labels(known))
  {
    var done := Labels(known);
    pending := [];
    for k := 0 to |manifest|
      invariant pending == Without(manifest[..k], done)
    {
      assert Init(manifest[..k + 1]) == manifest[..k];
      if manifest[k].tag !in done { pending := pending + [manifest[k]]; }
    }
    assert manifest[..|manifest|] == manifest;
  }

  /** The batch script writes its results after every item. */
  method RunScript(pending: seq<Item>, batch: Batch) returns (written: seq<AsrRow>)
    ensures written == BatchRows(pending, batch)
  {
    written := [];
    var index := 0;
    while index < |pending| && !(batch.fails && index == batch.answered)
      invariant 0 <= index <= |pending| && |written| == index
      invariant batch.fails ==> index <= batch.answered
      invariant forall k :: 0 <= k < index ==> written[k] == AsrRow(pending[k], batch.answerOf(pending[k]))
    {
      written := written + [AsrRow(pending[index], batch.answerOf(pending[index]))];
      index := index + 1;
    }
  }

  lemma {:induction false} SortOfSorted(rows: seq<AsrRow>)
    requires IsSorted(rows, RowLe)
    ensures SortRows(rows) == rows
  {
    if rows != [] {
      SortOfSorted(Init(rows));
      assert rows == Init(rows) + [Last(rows)];
    }
  }

  /** Sorting twice is sorting once. */
  lemma SortSorted(rows: seq<AsrRow>)
    ensures SortRows(SortRows(rows)) == SortRows(rows)
  {
    assert TotalPreorder(RowLe);
    SortSorts(rows, RowLe);
    SortOfSorted(SortRows(rows));
  }

  // ---------------------------------------------------------------- facts about the parts

  /** Labels are non-empty and no two rows share one. */
  ghost predicate Unique(rows: seq<AsrRow>) {
    && (forall i :: 0 <= i < |rows| ==> Label(rows[i]) != "")
    && (forall i, j :: 0 <= i < j < |rows| ==> Label(rows[i]) != Label(rows[j]))
  }

  ghost predicate AllOf(rows: seq<AsrRow>, episode: int) {
    forall i :: 0 <= i < |rows| ==> rows[i].item.episodeId == episode
  }

  lemma LabelsConcat(a: seq<AsrRow>, b: seq<AsrRow>)
    ensures Labels(a + b) == Labels(a) + Labels(b)
  {
  }

  lemma PutFacts(dict: seq<AsrRow>, row: AsrRow, episode: int)
    requires Unique(dict)
    ensures var r := Put(dict, row);
            && Unique(r)
            && Labels(r) == Labels(dict) + (if Label(row) == "" then {} else {Label(row)})
            && (AllOf(dict, episode) && row.item.episodeId == episode ==> AllOf(r, episode))
            && (Label(row) != "" ==> row in r)
            && (forall x :: x in dict && Label(x) != Label(row) ==> x in r)
  {
    var r, k := Put(dict, row), Slot(dict, Label(row));
    if Label(row) != "" {
      if k < |dict| {
        assert r[k] == row && forall i :: 0 <= i < |r| && i != k ==> r[i] == dict[i];
        forall l ensures l in Labels(r) <==> l in Labels(dict) || l == Label(row) {
          if l in Labels(dict) && l != Label(row) {
            var x :| x in dict && Label(x) == l;
            var i :| 0 <= i < |dict| && dict[i] == x;
            assert r[i] == x;
          }
        }
        forall x | x in dict && Label(x) != Label(row) ensures x in r {
          var i :| 0 <= i < |dict| && dict[i] == x;
          assert r[i] == x;
        }
      } else {
        LabelsConcat(dict, [row]);
      }
    }
  }

  lemma {:induction false} PutAllFacts(dict: seq<AsrRow>, rows: seq<AsrRow>, episode: int)
    requires Unique(dict) && AllOf(dict, episode) && AllOf(rows, episode)
    ensures var r := PutAll(dict, rows);
            Unique(r) && AllOf(r, episode) && Labels(r) == Labels(dict) + (Labels(rows) - {""})
  {
    hide Put, Unique;
    if rows != [] {
      PutAllFacts(dict, Init(rows), episode);
      PutFacts(PutAll(dict, Init(rows)), Last(rows), episode);
      assert rows == Init(rows) + [Last(rows)];
      LabelsConcat(Init(rows), [Last(rows)]);
    }
  }

  lemma {:induction false} OfEpisodeMembers(rows: seq<AsrRow>, episode: int)
    ensures AllOf(OfEpisode(rows, episode), episode)
    ensures forall r :: r in OfEpisode(rows, episode) ==> r in rows
  {
    if rows != [] {
      var front, last := Init(rows), Last(rows);
      OfEpisodeMembers(front, episode);
      assert rows == front + [last];
    }
  }

  lemma {:induction false} OfEpisodeOwn(rows: seq<AsrRow>, episode: int)
    requires AllOf(rows, episode)
    ensures OfEpisode(rows, episode) == rows
  {
    if rows != [] {
      var front, last := Init(rows), rows[|rows| - 1];
      OfEpisodeOwn(front, episode);
      assert rows == front + [last];
    }
  }

  /** Unique labels, told without positions. */
  lemma UniqueByMembers(rows: seq<AsrRow>)
    ensures Unique(rows) <==>
              Distinct(rows)
              && forall x, y :: x in rows && y in rows ==> Label(x) != "" && (Label(x) == Label(y) ==> x == y)
  {
  }

  lemma SortRowsFacts(rows: seq<AsrRow>, episode: int)
    ensures Labels(SortRows(rows)) == Labels(rows)
    ensures Unique(rows) ==> Unique(SortRows(rows))
    ensures AllOf(rows, episode) ==> AllOf(SortRows(rows), episode)
    ensures forall x :: x in SortRows(rows) <==> x in rows
    ensures InPlayingOrder(SortRows(rows))
  {
    var s := SortRows(rows);
    SortMembers(rows, RowLe);
    SortPermutes(rows, RowLe);
    assert TotalPreorder(RowLe);
    SortSorts(rows, RowLe);
    UniqueByMembers(rows);
    UniqueByMembers(s);
    if Unique(rows) { PermutationDistinct(rows, s); }
    forall i | AllOf(rows, episode) && 0 <= i < |s| ensures s[i].item.episodeId == episode {
      assert s[i] in rows;
    }
  }

  lemma {:induction false} UniqueCount(rows: seq<AsrRow>)
    requires Unique(rows)
    ensures |Labels(rows)| == |rows|
  {
    if rows != [] {
      var front, last := Init(rows), Last(rows);
      UniqueCount(front);
      assert rows == front + [last];
      LabelsConcat(front, [last]);
      assert Labels([last]) == {Label(last)};
      assert Label(last) !in Labels(front);
    }
  }

  /** The manifest of one episode: its own windows, each with its own label. */
  ghost predicate GoodManifest(manifest: seq<Item>, episode: int) {
    && (forall i :: 0 <= i < |manifest| ==> manifest[i].episodeId == episode && manifest[i].tag != "")
    && (forall i, j :: 0 <= i < j < |manifest| ==> manifest[i].tag != manifest[j].tag)
  }

  lemma {:induction false} WithoutFacts(manifest: seq<Item>, labels: set<string>, episode: int)
    requires GoodManifest(manifest, episode)
    ensures var p := Without(manifest, labels);
            && GoodManifest(p, episode)
            && (forall i :: 0 <= i < |p| ==> p[i].tag !in labels && p[i] in manifest)
            && (forall i :: 0 <= i < |manifest| ==> manifest[i].tag in labels || manifest[i] in p)
  {
    if manifest != [] {
      var front, last := Init(manifest), Last(manifest);
      WithoutFacts(front, labels, episode);
      var p, q := Without(manifest, labels), Without(front, labels);
      forall i | 0 <= i < |q| ensures q[i].tag != last.tag {
        var k :| 0 <= k < |front| && front[k] == q[i];
        assert manifest[k] == q[i];
      }
      forall i | 0 <= i < |p| ensures p[i] in manifest {
        if i < |q| {
          var k :| 0 <= k < |front| && front[k] == q[i];
          assert manifest[k] == p[i];
        }
      }
      forall i | 0 <= i < |manifest| ensures manifest[i].tag in labels || manifest[i] in p {
        if i < |front| { assert front[i] == manifest[i]; }
      }
    }
  }

  lemma BatchRowsFacts(pending: seq<Item>, batch: Batch, episode: int)
    requires GoodManifest(pending, episode)
    ensures var rows := BatchRows(pending, batch);
            && Unique(rows) && AllOf(rows, episode)
            && (forall l :: l in Labels(rows) <==> exists i :: 0 <= i < |rows| && pending[i].tag == l)
  {
    var rows := BatchRows(pending, batch);
    forall l ensures l in Labels(rows) <==> exists i :: 0 <= i < |rows| && pending[i].tag == l {
      if l in Labels(rows) {
        var r :| r in rows && Label(r) == l;
        var i :| 0 <= i < |rows| && rows[i] == r;
        assert pending[i].tag == l;
      }
      if exists i :: 0 <= i < |rows| && pending[i].tag == l {
        var i :| 0 <= i < |rows| && pending[i].tag == l;
        assert rows[i] in rows && Label(rows[i]) == l;
      }
    }
  }

  // ---------------------------------------------------------------- one run, all states

  /** What resumed runs of one episode keep true of the files: both hold only this
      episode's rows under unique labels, and every label of the remaining file is already
      in the raw file. */
  ghost predicate Consistent(files: Files, episode: int) {
    && Unique(Content(files.raw)) && AllOf(Content(files.raw), episode)
    && Unique(Content(files.remaining)) && AllOf(Content(files.remaining), episode)
    && Labels(Content(files.remaining)) <= Labels(Content(files.raw))
  }

  /** The labels of this episode in a file that may hold rows of others. */
  ghost function OwnLabels(file: Option<seq<AsrRow>>, episode: int): set<string> {
    Labels(OfEpisode(Content(file), episode)) - {""}
  }

  /** What the raw file records for this episode. */
  ghost function Recorded(files: Files, episode: int): set<string> { OwnLabels(files.raw, episode) }

  /** What a resumed run of this episode finds in the two files together. */
  ghost function Found(files: Files, episode: int): set<string> {
    OwnLabels(files.raw, episode) + OwnLabels(files.remaining, episode)
  }

  /** The weaker invariant, which asks nothing of the rows of other episodes: no label of
      this episode is in the remaining file alone. */
  ghost predicate Resumable(files: Files, episode: int) {
    OwnLabels(files.remaining, episode) <= OwnLabels(files.raw, episode)
  }

  lemma {:induction false} OfEpisodeConcat(a: seq<AsrRow>, b: seq<AsrRow>, episode: int)
    ensures OfEpisode(a + b, episode) == OfEpisode(a, episode) + OfEpisode(b, episode)
  {
    if b == [] {
      assert a + b == a;
    } else {
      assert Init(a + b) == a + Init(b) && Last(a + b) == Last(b);
      OfEpisodeConcat(a, Init(b), episode);
    }
  }

  lemma KnownFacts(files: Files, resume: bool, episode: int)
    ensures Unique(Known(files, resume, episode)) && AllOf(Known(files, resume, episode), episode)
    ensures resume ==> Labels(Known(files, resume, episode)) == Found(files, episode)
  {
    hide PutAll, OfEpisode, Labels, Unique;
    var raw, rest := Content(files.raw), Content(files.remaining);
    var all := if resume then raw + rest else [];
    OfEpisodeMembers(all, episode);
    EmptyFile(episode);
    PutAllFacts([], OfEpisode(all, episode), episode);
    OfEpisodeConcat(raw, rest, episode);
    LabelsConcat(OfEpisode(raw, episode), OfEpisode(rest, episode));
  }

  /** In a file of this episode alone all labels are its own. */
  lemma OwnFile(rows: seq<AsrRow>, episode: int)
    requires Unique(rows) && AllOf(rows, episode)
    ensures OwnLabels(Some(rows), episode) == Labels(rows)
  {
    OfEpisodeOwn(rows, episode);
    UniqueNoEmpty(rows);
  }

  lemma ConsistentIsResumable(files: Files, episode: int)
    requires Consistent(files, episode)
    ensures Resumable(files, episode) && Found(files, episode) == Labels(Content(files.raw))
    ensures Recorded(files, episode) == Labels(Content(files.raw))
  {
    hide Unique, AllOf, Labels;
    OwnFile(Content(files.raw), episode);
    OwnFile(Content(files.remaining), episode);
  }

  /** By chapter, and within a chapter by segment. */
  ghost predicate InPlayingOrder(rows: seq<AsrRow>) {
    forall i, j :: 0 <= i < j < |rows| ==>
      || rows[i].item.chapter < rows[j].item.chapter
      || (rows[i].item.chapter == rows[j].item.chapter && rows[i].item.segment <= rows[j].item.segment)
  }

  /** Whatever another episode left in the directory, a run that finishes returns rows of
      its own episode only, under unique labels, in playing order, covering its manifest. */
  lemma FinishedRunIsOwn(files: Files, resume: bool, episode: int, manifest: seq<Item>, batch: Batch)
    requires GoodManifest(manifest, episode)
    ensures var (after, outcome) := Run(files, resume, episode, manifest, batch);
            outcome.Finished? ==>
              && after.raw == Some(outcome.rows)
              && Unique(outcome.rows) && AllOf(outcome.rows, episode) && InPlayingOrder(outcome.rows)
              && forall i :: 0 <= i < |manifest| ==> manifest[i].tag in Labels(outcome.rows)
  {
    hide PutAll, OfEpisode, SortRows, Labels, Unique, AllOf, GoodManifest, Known, BatchRows;
    var known := Known(files, resume, episode);
    var pending := Pending(files, resume, episode, manifest);
    KnownFacts(files, resume, episode);
    WithoutFacts(manifest, Labels(known), episode);
    BatchRowsFacts(pending, batch, episode);
    var rows := BatchRows(pending, batch);
    PutAllFacts(known, rows, episode);
    SortRowsFacts(known, episode);
    SortRowsFacts(PutAll(known, rows), episode);
    PendingHasLabels(pending, episode);
    if Run(files, resume, episode, manifest, batch).1.Finished? && pending != [] {
      BatchRowsLength(pending, batch);
      forall i | 0 <= i < |manifest| ensures manifest[i].tag in Labels(PutAll(known, rows)) {
        if manifest[i].tag !in Labels(known) {
          var k :| 0 <= k < |pending| && pending[k] == manifest[i];
          assert pending[k].tag in Labels(rows);
        }
      }
    }
  }

  lemma BatchRowsLength(pending: seq<Item>, batch: Batch)
    ensures |BatchRows(pending, batch)| == AnsweredCount(pending, batch)
  {
  }

  lemma PendingHasLabels(pending: seq<Item>, episode: int)
    requires GoodManifest(pending, episode)
    ensures forall i :: 0 <= i < |pending| ==> pending[i].tag != ""
  {
  }

  /** The raw file after a run: what was known plus what was answered, sorted. When
      nothing was answered, it is the old raw file or a rewrite of it. */
  lemma RunShape(files: Files, episode: int, manifest: seq<Item>, batch: Batch)
    ensures var known := Known(files, true, episode);
            var pending := Pending(files, true, episode, manifest);
            var rows := BatchRows(pending, batch);
            var after := Run(files, true, episode, manifest, batch).0;
            && (rows != [] ==> after == Files(Some(SortRows(PutAll(known, rows))), Some(rows)))
            && (rows == [] && pending != [] ==> after == Files(files.raw, None))
            && (pending == [] ==> rows == [] && after == Files(Some(SortRows(known)), files.remaining))
  {
  }

  /** What is sent is new, and so is every label that gets answered. */
  lemma SentIsNew(files: Files, episode: int, manifest: seq<Item>, batch: Batch)
    requires GoodManifest(manifest, episode)
    ensures var pending := Pending(files, true, episode, manifest);
            && GoodManifest(pending, episode)
            && (forall i :: 0 <= i < |pending| ==> pending[i].tag !in Found(files, episode))
            && Found(files, episode) !! Labels(BatchRows(pending, batch))
  {
    hide Known, BatchRows, Without, Unique, AllOf, GoodManifest, Labels, Found;
    var pending := Pending(files, true, episode, manifest);
    KnownFacts(files, true, episode);
    WithoutFacts(manifest, Labels(Known(files, true, episode)), episode);
    BatchRowsFacts(pending, batch, episode);
    BatchRowsLength(pending, batch);
  }

  /** The labels of this episode in the two files after a run, whatever they held before. */
  lemma RunLabels(files: Files, episode: int, manifest: seq<Item>, batch: Batch)
    requires GoodManifest(manifest, episode)
    ensures var pending := Pending(files, true, episode, manifest);
            var rows := BatchRows(pending, batch);
            var after := Run(files, true, episode, manifest, batch).0;
            && (rows != [] || pending == [] ==>
                  Recorded(after, episode) == Found(files, episode) + Labels(rows))
            && (rows != [] ==> OwnLabels(after.remaining, episode) == Labels(rows))
            && (pending == [] ==> after.remaining == files.remaining)
            && (rows == [] && pending != [] ==> after == Files(files.raw, None))
  {
    hide PutAll, SortRows, Labels, Unique, AllOf, GoodManifest, Known, BatchRows, IsSorted, RowLe, Run, Pending,
         OwnLabels, Found;
    var known := Known(files, true, episode);
    var pending := Pending(files, true, episode, manifest);
    var rows := BatchRows(pending, batch);
    RunShape(files, episode, manifest, batch);
    KnownFacts(files, true, episode);
    SentIsNew(files, episode, manifest, batch);
    BatchRowsFacts(pending, batch, episode);
    EmptyFile(episode);
    OwnFile(rows, episode);
    UniqueNoEmpty(rows);
    PutAllFacts(known, rows, episode);
    SortRowsFacts(PutAll(known, rows), episode);
    OwnFile(SortRows(PutAll(known, rows)), episode);
    SortRowsFacts(known, episode);
    OwnFile(SortRows(known), episode);
    assert Labels(rows) - {""} == Labels(rows);
  }

  /** The first resumed run of an episode takes over any directory, whatever other episodes
      or broken runs left in it: nothing found in either file is sent, and the invariant of
      the following runs holds afterwards. The raw file then records all that was found and
      answered, except in one case: a label was in the remaining file alone, and the run
      sent windows and got no answer, so that it only deleted the remaining file. */
  lemma AnyDirectoryTakenOver(files: Files, episode: int, manifest: seq<Item>, batch: Batch)
    requires GoodManifest(manifest, episode)
    ensures var pending := Pending(files, true, episode, manifest);
            var after := Run(files, true, episode, manifest, batch).0;
            && Resumable(after, episode)
            && (forall i :: 0 <= i < |pending| ==> pending[i].tag !in Found(files, episode))
            && (Recorded(after, episode) == Found(files, episode) + Labels(BatchRows(pending, batch)) <==>
                  Resumable(files, episode) || pending == [] || AnsweredCount(pending, batch) > 0)
  {
    hide Labels, GoodManifest, BatchRows, Run, AnsweredCount, Pending, OwnLabels;
    var pending := Pending(files, true, episode, manifest);
    SentIsNew(files, episode, manifest, batch);
    RunLabels(files, episode, manifest, batch);
    BatchRowsLength(pending, batch);
    EmptyFile(episode);
    OwnNone(episode);
  }

  /** The exceptional case: a label that lies in the remaining file alone is gone after a
      run that sends another window and gets no answer. */
  lemma LoneRemainingRowIsLost(episode: int, answerOf: Item -> Answer)
    ensures var done, open := Item("c01_s0001_seg1", episode, 1, 1), Item("c01_s0002_seg2", episode, 1, 2);
            var files := Files(None, Some([AsrRow(done, Answer(true, "text"))]));
            var after := Run(files, true, episode, [done, open], Batch(answerOf, true, 0)).0;
            Found(files, episode) == {done.tag} && Found(after, episode) == {}
  {
    hide PutAll, Known, Without, Labels;
    var done, open := Item("c01_s0001_seg1", episode, 1, 1), Item("c01_s0002_seg2", episode, 1, 2);
    var row := AsrRow(done, Answer(true, "text"));
    var files := Files(None, Some([row]));
    var batch := Batch(answerOf, true, 0);
    OneRow(row, episode);
    OwnFile([row], episode);
    OwnNone(episode);
    KnownFacts(files, true, episode);
    var manifest := [done, open];
    assert done.tag[8] != open.tag[8];
    assert GoodManifest(manifest, episode);
    assert Found(files, episode) == {done.tag};
    WithoutFacts(manifest, {done.tag}, episode);
    var pending := Pending(files, true, episode, manifest);
    assert manifest[1] in pending;
    assert BatchRows(pending, batch) == [];
    RunShape(files, episode, manifest, batch);
  }

  lemma OwnNone(episode: int)
    ensures OwnLabels(None, episode) == {}
  {
  }

  /** The stronger invariant is kept as well. */
  lemma ResumedRunConsistent(files: Files, episode: int, manifest: seq<Item>, batch: Batch)
    requires Consistent(files, episode) && GoodManifest(manifest, episode)
    ensures Consistent(Run(files, true, episode, manifest, batch).0, episode)
  {
    hide PutAll, SortRows, Labels, Unique, AllOf, GoodManifest, Known, BatchRows, IsSorted, RowLe, Run, Pending,
         OwnLabels, Found;
    var known := Known(files, true, episode);
    var pending := Pending(files, true, episode, manifest);
    var rows := BatchRows(pending, batch);
    ConsistentIsResumable(files, episode);
    RunShape(files, episode, manifest, batch);
    KnownFacts(files, true, episode);
    SentIsNew(files, episode, manifest, batch);
    BatchRowsFacts(pending, batch, episode);
    EmptyFile(episode);
    if rows != [] {
      PutAllFacts(known, rows, episode);
      SortRowsFacts(PutAll(known, rows), episode);
      UniqueNoEmpty(rows);
      assert Labels(rows) - {""} == Labels(rows);
    } else {
      SortRowsFacts(known, episode);
    }
  }

  /** A resumed run keeps the files resumable, whether it is interrupted or not. No
      recorded label is lost or sent again, and exactly the answered windows are added. */
  lemma ResumedRunStep(files: Files, episode: int, manifest: seq<Item>, batch: Batch)
    requires Resumable(files, episode) && GoodManifest(manifest, episode)
    ensures var pending := Pending(files, true, episode, manifest);
            var after := Run(files, true, episode, manifest, batch).0;
            && Resumable(after, episode)
            && (Consistent(files, episode) ==> Consistent(after, episode))
            && (forall i :: 0 <= i < |pending| ==> pending[i].tag !in Recorded(files, episode))
            && Recorded(after, episode) == Recorded(files, episode) + Labels(BatchRows(pending, batch))
            && Recorded(files, episode) !! Labels(BatchRows(pending, batch))
            && |Recorded(after, episode)| == |Recorded(files, episode)| + AnsweredCount(pending, batch)
  {
    hide Labels, Unique, AllOf, GoodManifest, BatchRows, Run, AnsweredCount, Pending, Consistent, OwnLabels;
    var pending := Pending(files, true, episode, manifest);
    assert Found(files, episode) == Recorded(files, episode);
    SentIsNew(files, episode, manifest, batch);
    AnyDirectoryTakenOver(files, episode, manifest, batch);
    if Consistent(files, episode) { ResumedRunConsistent(files, episode, manifest, batch); }
    BatchRowsFacts(pending, batch, episode);
    BatchRowsLength(pending, batch);
    UniqueCount(BatchRows(pending, batch));
  }

  lemma UniqueNoEmpty(rows: seq<AsrRow>)
    requires Unique(rows)
    ensures "" !in Labels(rows)
  {
  }

  lemma EmptyFile(episode: int)
    ensures Labels([]) == {} && Unique([]) && AllOf([], episode)
  {
  }

  // ---------------------------------------------------------------- whole sequences of runs

  /** What happens to the directory: a resumed run of the batch, or the rewrite of the raw
      file by the retry that follows a finished run, which may change any answer. */
  datatype Step = Resume(manifest: seq<Item>, batch: Batch) | Rewrite(improve: AsrRow -> Answer)

  function Improved(rows: seq<AsrRow>, improve: AsrRow -> Answer): (r: seq<AsrRow>)
    ensures |r| == |rows|
  {
    seq(|rows|, i requires 0 <= i < |rows| => rows[i].(answer := improve(rows[i])))
  }

  function TakeStep(files: Files, episode: int, step: Step): Files {
    match step
    case Resume(manifest, batch) => Run(files, true, episode, manifest, batch).0
    case Rewrite(improve) =>
      if files.raw == None then files else files.(raw := Some(Improved(files.raw.value, improve)))
  }

  /** How many windows a step transcribes. */
  function StepAnswers(files: Files, episode: int, step: Step): nat {
    match step
    case Resume(manifest, batch) => AnsweredCount(Pending(files, true, episode, manifest), batch)
    case Rewrite(_) => 0
  }

  /** A sequence of steps on the directory of one episode. */
  ghost function RunAll(files: Files, episode: int, steps: seq<Step>): Files {
    if steps == [] then files else TakeStep(RunAll(files, episode, Init(steps)), episode, Last(steps))
  }

  /** How many windows were transcribed in all runs together. */
  ghost function Transcribed(files: Files, episode: int, steps: seq<Step>): nat {
    if steps == [] then 0
    else
      Transcribed(files, episode, Init(steps))
      + StepAnswers(RunAll(files, episode, Init(steps)), episode, Last(steps))
  }

  ghost predicate GoodSteps(steps: seq<Step>, episode: int) {
    forall i :: 0 <= i < |steps| ==> steps[i].Resume? ==> GoodManifest(steps[i].manifest, episode)
  }

  lemma ImprovedFacts(rows: seq<AsrRow>, improve: AsrRow -> Answer, episode: int)
    ensures var r := Improved(rows, improve);
            && Labels(r) == Labels(rows)
            && (Unique(rows) ==> Unique(r)) && (AllOf(rows, episode) ==> AllOf(r, episode))
  {
    var r := Improved(rows, improve);
    assert forall i :: 0 <= i < |rows| ==> r[i].item == rows[i].item;
    forall tag ensures tag in Labels(r) <==> tag in Labels(rows) {
      if tag in Labels(r) {
        var i :| 0 <= i < |r| && Label(r[i]) == tag;
        assert rows[i] in rows && Label(rows[i]) == tag;
      }
      if tag in Labels(rows) {
        var i :| 0 <= i < |rows| && Label(rows[i]) == tag;
        assert r[i] in r && Label(r[i]) == tag;
      }
    }
  }

  lemma {:induction false} ImprovedOwn(rows: seq<AsrRow>, improve: AsrRow -> Answer, episode: int)
    ensures OfEpisode(Improved(rows, improve), episode) == Improved(OfEpisode(rows, episode), improve)
  {
    if rows != [] {
      var front, last := Init(rows), Last(rows);
      ImprovedOwn(front, improve, episode);
      assert Init(Improved(rows, improve)) == Improved(front, improve);
      assert Last(Improved(rows, improve)) == last.(answer := improve(last));
    }
  }

  lemma StepFacts(files: Files, episode: int, step: Step)
    requires Resumable(files, episode) && (step.Resume? ==> GoodManifest(step.manifest, episode))
    ensures var after := TakeStep(files, episode, step);
            && Resumable(after, episode)
            && (Consistent(files, episode) ==> Consistent(after, episode))
            && Recorded(files, episode) <= Recorded(after, episode)
            && |Recorded(after, episode)| == |Recorded(files, episode)| + StepAnswers(files, episode, step)
  {
    hide Labels, Unique, AllOf, GoodManifest, BatchRows, Run, AnsweredCount, Pending, Improved, OfEpisode;
    match step
    case Resume(manifest, batch) =>
      ResumedRunStep(files, episode, manifest, batch);
    case Rewrite(improve) =>
      ImprovedFacts(Content(files.raw), improve, episode);
      ImprovedOwn(Content(files.raw), improve, episode);
      ImprovedFacts(OfEpisode(Content(files.raw), episode), improve, episode);
  }

  /** Over any sequence of resumed runs, each possibly interrupted, with the rewrites of the
      retry in between, the files stay resumable, no recorded label is ever lost, and no
      window is answered twice: as many windows are answered as labels are gained. Rows of
      other episodes may lie in both files at the start. */
  lemma {:induction false} ResumedRunsKeepRecord(files: Files, episode: int, steps: seq<Step>)
    requires Resumable(files, episode) && GoodSteps(steps, episode)
    ensures Resumable(RunAll(files, episode, steps), episode)
    ensures Consistent(files, episode) ==> Consistent(RunAll(files, episode, steps), episode)
    ensures Recorded(files, episode) <= Recorded(RunAll(files, episode, steps), episode)
    ensures |Recorded(RunAll(files, episode, steps), episode)|
            == |Recorded(files, episode)| + Transcribed(files, episode, steps)
  {
    hide TakeStep, StepAnswers, Consistent, Resumable, Recorded, GoodManifest;
    if steps != [] {
      assert GoodSteps(Init(steps), episode);
      assert Last(steps).Resume? ==> GoodManifest(steps[|steps| - 1].manifest, episode);
      ResumedRunsKeepRecord(files, episode, Init(steps));
      StepFacts(RunAll(files, episode, Init(steps)), episode, Last(steps));
    }
  }

  /** A directory without rows of this episode is a good start, an empty one in particular. */
  lemma ForeignDirectoryResumable(files: Files, episode: int)
    requires forall row :: row in Content(files.raw) + Content(files.remaining) ==> row.item.episodeId != episode
    ensures Resumable(files, episode) && Recorded(files, episode) == {}
    ensures Consistent(Files(None, None), episode)
  {
    hide OfEpisode;
    var raw, rest := Content(files.raw), Content(files.remaining);
    assert forall row :: row in raw || row in rest ==> row in raw + rest;
    NoneOfEpisode(raw, episode);
    NoneOfEpisode(rest, episode);
  }

  lemma {:induction false} NoneOfEpisode(rows: seq<AsrRow>, episode: int)
    requires forall row :: row in rows ==> row.item.episodeId != episode
    ensures OfEpisode(rows, episode) == []
  {
    if rows != [] {
      assert Last(rows) in rows;
      NoneOfEpisode(Init(rows), episode);
    }
  }

  lemma {:induction false} WithoutTwice(items: seq<Item>, a: set<string>, b: set<string>)
    ensures Without(items, a + b) == Without(Without(items, a), b)
  {
    if items != [] {
      var front, last := Init(items), Last(items);
      WithoutTwice(front, a, b);
      if last.tag !in a {
        WithoutConcat(Without(front, a), [last], b);
        assert Init([last]) == [] && [] + [last] == [last];
      } else {
        assert Without(front, a) + [] == Without(front, a);
        assert Without(front, a + b) + [] == Without(front, a + b);
      }
    }
  }

  lemma {:induction false} WithoutConcat(x: seq<Item>, y: seq<Item>, labels: set<string>)
    ensures Without(x + y, labels) == Without(x, labels) + Without(y, labels)
  {
    if y == [] {
      assert x + y == x && Without(x, labels) + [] == Without(x, labels);
    } else {
      var front, last := Init(y), Last(y);
      assert Init(x + y) == x + front && Last(x + y) == last;
      WithoutConcat(x, front, labels);
      var one := if last.tag in labels then [] else [last];
      assert Without(x, labels) + Without(front, labels) + one == Without(x, labels) + (Without(front, labels) + one);
    }
  }

  lemma {:induction false} WithoutNone(items: seq<Item>, labels: set<string>)
    requires forall i :: 0 <= i < |items| ==> items[i].tag !in labels
    ensures Without(items, labels) == items
  {
    if items != [] {
      var front, last := Init(items), items[|items| - 1];
      forall i | 0 <= i < |front| ensures front[i] == items[i] {}
      WithoutNone(front, labels);
      assert items == front + [last];
    }
  }

  lemma {:induction false} WithoutAll(items: seq<Item>, labels: set<string>)
    requires forall i :: 0 <= i < |items| ==> items[i].tag in labels
    ensures Without(items, labels) == []
  {
    if items != [] {
      var front, last := Init(items), items[|items| - 1];
      forall i | 0 <= i < |front| ensures front[i] == items[i] {}
      WithoutAll(front, labels);
      assert items == front + [last];
    }
  }

  /** Removing the labels of a prefix leaves the suffix. */
  lemma WithoutPrefix(items: seq<Item>, n: nat, labels: set<string>, episode: int)
    requires GoodManifest(items, episode) && n <= |items|
    requires forall l :: l in labels <==> exists i :: 0 <= i < n && items[i].tag == l
    ensures Without(items, labels) == items[n..]
  {
    assert items == items[..n] + items[n..];
    WithoutConcat(items[..n], items[n..], labels);
    WithoutAll(items[..n], labels);
    forall i | 0 <= i < |items[n..]| ensures items[n..][i].tag !in labels {
      assert items[n..][i] == items[n + i];
    }
    WithoutNone(items[n..], labels);
  }

  /** Interrupted runs make progress: the next run of the same manifest starts exactly
      where the interrupted one stopped. */
  lemma NextRunContinues(files: Files, episode: int, manifest: seq<Item>, batch: Batch)
    requires Resumable(files, episode) && GoodManifest(manifest, episode)
    ensures var pending := Pending(files, true, episode, manifest);
            var after := Run(files, true, episode, manifest, batch).0;
            Pending(after, true, episode, manifest) == pending[AnsweredCount(pending, batch)..]
  {
    hide Run, Known, Without, BatchRows, GoodManifest, Unique, Labels, AllOf, OwnLabels, Consistent;
    var pending := Pending(files, true, episode, manifest);
    var after := Run(files, true, episode, manifest, batch).0;
    var n := AnsweredCount(pending, batch);
    ResumedRunStep(files, episode, manifest, batch);
    assert Found(files, episode) == Recorded(files, episode) && Found(after, episode) == Recorded(after, episode);
    KnownFacts(files, true, episode);
    KnownFacts(after, true, episode);
    WithoutFacts(manifest, Recorded(files, episode), episode);
    BatchRowsFacts(pending, batch, episode);
    BatchRowsLength(pending, batch);
    var rows := BatchRows(pending, batch);
    WithoutTwice(manifest, Recorded(files, episode), Labels(rows));
    WithoutPrefix(pending, n, Labels(rows), episode);
  }

  // ---------------------------------------------------------------- which rows a run records

  lemma PutMember(dict: seq<AsrRow>, row: AsrRow, x: AsrRow)
    requires Unique(dict) && Label(row) != ""
    ensures x in Put(dict, row) <==> x == row || (x in dict && Label(x) != Label(row))
  {
    var r, k := Put(dict, row), Slot(dict, Label(row));
    if k < |dict| {
      assert r[k] == row;
      if x in dict && Label(x) != Label(row) {
        var i :| 0 <= i < |dict| && dict[i] == x;
        assert r[i] == x;
      }
    } else {
      assert r == dict + [row];
    }
  }

  /** The dictionary after a list of rows: the rows, and the old ones of other labels. */
  lemma {:induction false} PutAllMember(dict: seq<AsrRow>, rows: seq<AsrRow>, x: AsrRow, episode: int)
    requires Unique(dict) && AllOf(dict, episode) && Unique(rows) && AllOf(rows, episode)
    ensures x in PutAll(dict, rows) <==> x in rows || (x in dict && Label(x) !in Labels(rows))
  {
    hide Put;
    if rows != [] {
      var front, last := Init(rows), rows[|rows| - 1];
      PutAllMember(dict, front, x, episode);
      PutAllFacts(dict, front, episode);
      PutMember(PutAll(dict, front), last, x);
      assert rows == front + [last];
      LabelsConcat(front, [last]);
      assert Labels([last]) == {Label(last)};
    }
  }

  lemma {:induction false} PutAllConcat(dict: seq<AsrRow>, a: seq<AsrRow>, b: seq<AsrRow>)
    ensures PutAll(dict, a + b) == PutAll(PutAll(dict, a), b)
  {
    if b == [] {
      assert a + b == a;
    } else {
      assert Init(a + b) == a + Init(b);
      PutAllConcat(dict, a, Init(b));
    }
  }

  /** Nothing enters the dictionary but what was there and what is put. */
  lemma {:induction false} PutAllOnly(dict: seq<AsrRow>, rows: seq<AsrRow>)
    ensures forall x :: x in PutAll(dict, rows) ==> x in dict || x in rows
  {
    if rows != [] {
      var front, last := Init(rows), Last(rows);
      PutAllOnly(dict, front);
      assert rows == front + [last];
      var d := PutAll(dict, front);
      forall x | x in Put(d, last) ensures x in d || x == last { PutOnly(d, last, x); }
    }
  }

  lemma PutOnly(dict: seq<AsrRow>, row: AsrRow, x: AsrRow)
    requires x in Put(dict, row)
    ensures x in dict || x == row
  {
  }

  lemma KnownOnly(files: Files, resume: bool, episode: int)
    ensures forall x :: x in Known(files, resume, episode) ==> x in Content(files.raw) || x in Content(files.remaining)
  {
    hide PutAll, OfEpisode;
    var all := if resume then Content(files.raw) + Content(files.remaining) else [];
    OfEpisodeMembers(all, episode);
    PutAllOnly([], OfEpisode(all, episode));
  }

  /** The script answers the windows in order, all of them unless it is interrupted. */
  ghost predicate Answered(pending: seq<Item>, batch: Batch, i: int) {
    0 <= i < |pending| && (batch.fails ==> i < batch.answered)
  }

  /** A row as the recogniser gives it: the window with its own answer. */
  ghost predicate TrueAnswer(row: AsrRow, batch: Batch) { row.answer == batch.answerOf(row.item) }

  lemma BatchRowsTrue(pending: seq<Item>, batch: Batch)
    ensures forall i :: Answered(pending, batch, i) ==>
              AsrRow(pending[i], batch.answerOf(pending[i])) in BatchRows(pending, batch)
    ensures forall x :: x in BatchRows(pending, batch) ==>
              TrueAnswer(x, batch) && exists i :: Answered(pending, batch, i) && pending[i] == x.item
  {
    var rows := BatchRows(pending, batch);
    forall i | Answered(pending, batch, i) ensures AsrRow(pending[i], batch.answerOf(pending[i])) in rows {
      assert rows[i] == AsrRow(pending[i], batch.answerOf(pending[i]));
    }
    forall x | x in rows
      ensures TrueAnswer(x, batch) && exists i :: Answered(pending, batch, i) && pending[i] == x.item
    {
      var i :| 0 <= i < |rows| && rows[i] == x;
      assert Answered(pending, batch, i);
    }
  }

  /** Every window that is answered has its own answer in the raw file afterwards, and the
      raw file holds nothing but such rows and rows that were in the two files before. */
  lemma RunRecordsOwnAnswers(files: Files, resume: bool, episode: int, manifest: seq<Item>, batch: Batch)
    requires GoodManifest(manifest, episode)
    ensures var pending := Pending(files, resume, episode, manifest);
            var raw := Content(Run(files, resume, episode, manifest, batch).0.raw);
            && (forall i :: Answered(pending, batch, i) ==> AsrRow(pending[i], batch.answerOf(pending[i])) in raw)
            && (forall x :: x in raw ==>
                  || x in Content(files.raw) || x in Content(files.remaining)
                  || (TrueAnswer(x, batch) && exists i :: Answered(pending, batch, i) && pending[i] == x.item))
  {
    hide PutAll, SortRows, Labels, Unique, AllOf, GoodManifest, Known, BatchRows, Answered, TrueAnswer;
    var known := Known(files, resume, episode);
    var pending := Pending(files, resume, episode, manifest);
    var rows := BatchRows(pending, batch);
    KnownFacts(files, resume, episode);
    KnownOnly(files, resume, episode);
    WithoutFacts(manifest, Labels(known), episode);
    assert pending == Without(manifest, Labels(known));
    BatchRowsFacts(pending, batch, episode);
    BatchRowsTrue(pending, batch);
    NothingAnswered(batch);
    SortRowsFacts(known, episode);
    SortRowsFacts(PutAll(known, rows), episode);
    forall x ensures x in PutAll(known, rows) <==> x in rows || (x in known && Label(x) !in Labels(rows)) {
      PutAllMember(known, rows, x, episode);
    }
  }

  lemma NothingAnswered(batch: Batch)
    ensures forall i :: !Answered([], batch, i)
  {
  }

  /** A run finishes unless windows were sent and the script failed. After a finished run
      every window of the manifest has a row: the recogniser's answer for this window, or
      a row under its label that was in the files before. */
  lemma FinishedRunAnswersAll(files: Files, resume: bool, episode: int, manifest: seq<Item>, batch: Batch)
    requires GoodManifest(manifest, episode)
    ensures var (after, outcome) := Run(files, resume, episode, manifest, batch);
            && (outcome.Finished? <==> Pending(files, resume, episode, manifest) == [] || !batch.fails)
            && (outcome.Finished? ==>
                  forall w :: w in manifest ==>
                    || AsrRow(w, batch.answerOf(w)) in outcome.rows
                    || exists x :: x in outcome.rows && Label(x) == w.tag
                         && (x in Content(files.raw) || x in Content(files.remaining)))
  {
    hide PutAll, SortRows, Labels, Unique, AllOf, GoodManifest, Known, BatchRows, Without, TrueAnswer,
         InPlayingOrder;
    var known := Known(files, resume, episode);
    var pending := Pending(files, resume, episode, manifest);
    var (after, outcome) := Run(files, resume, episode, manifest, batch);
    if outcome.Finished? {
      FinishedRunIsOwn(files, resume, episode, manifest, batch);
      RunRecordsOwnAnswers(files, resume, episode, manifest, batch);
      KnownFacts(files, resume, episode);
      WithoutFacts(manifest, Labels(known), episode);
      forall w | w in manifest
        ensures AsrRow(w, batch.answerOf(w)) in outcome.rows
                || exists x :: x in outcome.rows && Label(x) == w.tag
                     && (x in Content(files.raw) || x in Content(files.remaining))
      {
        var m :| 0 <= m < |manifest| && manifest[m] == w;
        RowOfLabel(outcome.rows, w.tag);
        var x :| x in outcome.rows && Label(x) == w.tag;
        if x !in Content(files.raw) && x !in Content(files.remaining) {
          var i :| Answered(pending, batch, i) && pending[i] == x.item;
          AnsweredIsPending(pending, batch, i);
          SameTagSameItem(manifest, episode, w, x.item);
          OwnAnswer(x, batch);
        }
      }
    }
  }

  lemma RowOfLabel(rows: seq<AsrRow>, tag: string)
    requires tag in Labels(rows)
    ensures exists x :: x in rows && Label(x) == tag
  {
  }

  lemma AnsweredIsPending(pending: seq<Item>, batch: Batch, i: int)
    requires Answered(pending, batch, i)
    ensures 0 <= i < |pending| && pending[i] in pending
  {
  }

  lemma OwnAnswer(row: AsrRow, batch: Batch)
    requires TrueAnswer(row, batch)
    ensures row == AsrRow(row.item, batch.answerOf(row.item))
  {
  }

  lemma SameTagSameItem(manifest: seq<Item>, episode: int, a: Item, b: Item)
    requires GoodManifest(manifest, episode) && a in manifest && b in manifest && a.tag == b.tag
    ensures a == b
  {
    var i :| 0 <= i < |manifest| && manifest[i] == a;
    var j :| 0 <= j < |manifest| && manifest[j] == b;
  }

  // ---------------------------------------------------------------- stale rows

  /** What a resumed run starts from: the rows of the remaining file, and the raw rows of
      other labels. */
  lemma KnownMember(files: Files, episode: int, x: AsrRow)
    requires Consistent(files, episode)
    ensures x in Known(files, true, episode) <==>
              x in Content(files.remaining)
              || (x in Content(files.raw) && Label(x) !in Labels(Content(files.remaining)))
  {
    hide PutAll, OfEpisode, Labels;
    var raw, rest := Content(files.raw), Content(files.remaining);
    OfEpisodeOwn(raw + rest, episode);
    PutAllConcat([], raw, rest);
    PutAllFacts([], raw, episode);
    PutAllMember([], raw, x, episode);
    PutAllMember(PutAll([], raw), rest, x, episode);
  }

  /** When a recorded row survives a resumed run, for instance one that the retry improved:
      exactly if the remaining file has no other row of its label, or the run sends windows
      and gets no answer at all, because then it leaves the raw file alone. */
  lemma RecordedRowSurvivesIff(files: Files, episode: int, manifest: seq<Item>, batch: Batch, row: AsrRow)
    requires Consistent(files, episode) && GoodManifest(manifest, episode)
    requires row in Content(files.raw)
    ensures var pending := Pending(files, true, episode, manifest);
            row in Content(Run(files, true, episode, manifest, batch).0.raw) <==>
              || Label(row) !in Labels(Content(files.remaining))
              || row in Content(files.remaining)
              || (pending != [] && AnsweredCount(pending, batch) == 0)
  {
    hide PutAll, Known, Pending, SortRows, Labels, BatchRows, Run, GoodManifest, Unique, AllOf, AnsweredCount;
    var known := Known(files, true, episode);
    var pending := Pending(files, true, episode, manifest);
    var rows := BatchRows(pending, batch);
    RunShape(files, episode, manifest, batch);
    KnownMember(files, episode, row);
    KnownFacts(files, true, episode);
    ConsistentIsResumable(files, episode);
    SentIsNew(files, episode, manifest, batch);
    BatchRowsFacts(pending, batch, episode);
    BatchRowsLength(pending, batch);
    LabelOfMember(Content(files.raw), row);
    LabelOfMember(rows, row);
    PutAllMember(known, rows, row, episode);
    SortRowsFacts(known, episode);
    SortRowsFacts(PutAll(known, rows), episode);
  }

  lemma LabelOfMember(rows: seq<AsrRow>, row: AsrRow)
    ensures row in rows ==> Label(row) in Labels(rows)
  {
  }

  /** A concrete directory that loses an improved row: an older row of the same label is
      still in the remaining file, and nothing is left to send. */
  lemma StaleRowReturns(episode: int, batch: Batch)
    ensures var item := Item("c01_s0001_seg1", episode, 1, 1);
            var better, stale := AsrRow(item, Answer(true, "better")), AsrRow(item, Answer(true, "worse"));
            var files := Files(Some([better]), Some([stale]));
            && Consistent(files, episode)
            && Content(Run(files, true, episode, [item], batch).0.raw) == [stale]
  {
    hide PutAll, Known, SortRows, Without;
    var item := Item("c01_s0001_seg1", episode, 1, 1);
    var better, stale := AsrRow(item, Answer(true, "better")), AsrRow(item, Answer(true, "worse"));
    var files := Files(Some([better]), Some([stale]));
    OneRow(better, episode);
    OneRow(stale, episode);
    assert Consistent(files, episode);
    ConsistentIsResumable(files, episode);
    KnownFacts(files, true, episode);
    WithoutAll([item], Labels(Known(files, true, episode)));
    var known := Known(files, true, episode);
    UniqueCount(known);
    KnownMember(files, episode, known[0]);
    assert known == [stale];
    SortOfSorted([stale]);
  }

  lemma OneRow(row: AsrRow, episode: int)
    requires row.item.episodeId == episode && Label(row) != ""
    ensures Unique([row]) && AllOf([row], episode) && Labels([row]) == {Label(row)}
  {
  }
}
