# Verified model of the LoRA dubbing tools

HoloDub's LoRA tools turn one subtitle segment into timed parts, synthesise and join the
parts, pick one audio candidate per sample, mix a whole episode and audit the result by
speech recognition. This project models the deterministic core of those tools in Dafny and
proves what it keeps, over every text, every list of rows and every sequence of runs.

`dafny verify dfyconfig.toml` checks everything. Loops of the tools are methods with loops,
proved equal to a specification function; the properties are lemmas about those functions.
Files that are rewritten in place are fields of a class, sample buffers are arrays.

| module | models |
|---|---|
| `Numbers`, `Sequences`, `Text` | Python arithmetic, stable sort, sub-sequences, `strip`/`join`/`isspace` |
| `Delimiters`, `LongRun`, `ProtectedTerms`, `Breath` | cutting a text at punctuation and cutting long runs around protected terms |
| `Packing`, `Islands`, `PartPlan`, `PlanTerms` | packing groups into parts, folding islands, re-splitting, the whole text pipeline and its terms |
| `PlanExamples`, `RetryExample` | concrete inputs on which the tools miss what they aim at |
| `Timing` | milliseconds for the parts and the audio cuts made from them |
| `Windows`, `AsrBatch`, `ChunkRetry` | the final-mix audit: windows, the resumable batch, the keep-the-better retry |
| `TailRecall`, `CandidateGate` | longest common sub-sequence and the candidate gate |
| `SplitAssemble`, `EpisodeMix`, `Tempo` | tail fades, silence padding, clipping and mixing, tempo factor chains |
| `TextBudget`, `CanarySelect` | rewriting to a character budget, quota apportionment and selection |

## Results

- **Text conservation.** Whitespace aside, a plan always carries an in-order sub-sequence of
  its source text, and carries all of it if and only if the slice of the re-split loop
  (`tools/lora_split_plan.py:382-383`) never fires. It can fire: `PlanExamples` plans a
  text of two lines with the source's own tables and loses visible text.
- **Part limit.** A plan exceeds the limit if and only if the parts before re-splitting, islands
  folded, do. Without forced breaks it exceeds `max(2, max_parts)` if and only if the packer
  left a single part and the run cut of the whole text yields more pieces than that.
  `PlanExamples` has such a text, 24 characters planned in three parts where two are allowed.
- **Protected terms** survive the long-run cutter if and only if every turn of its loop has a
  safe index; a text without an over-long cluster of overlapping terms always has one. The
  early `break` of that loop is never taken. When no run cut is unsafe and the slice never
  fires, every occurrence of every term lies inside one planned part, at the same place of
  the visible text as in the source. For plans that are not re-split it is enough that no
  stretch of the text longer than the limit is one cluster of overlapping terms.
- **Balance.** The greedy packer yields 1 to k parts, all but the last reaching
  ceil(total/k) characters and none exceeding that by more than the longest group less one;
  each is closed by the first group with which it gets there. The part count is the least
  that holds all characters and seconds, within its limits.
- **Resumable batch.** The first resumed run of an episode takes over any directory, whatever
  rows of other episodes it holds. From there on, over any sequence of resumed runs, each
  possibly interrupted, with the rewrites of the retry in between, no recorded label is lost
  and no window is answered twice. A first run can lose a label in exactly one way: it lay in
  the remaining file alone, and the run sends windows and gets no answer at all. A recorded
  row, such as an improved one, survives a resumed run if and only if the remaining file has
  no other row of its label, or the run sends windows and gets no answer at all. Every answered
  window is recorded with its own answer, and a finished run has a row for every window.
- **Retry.** The retry lowers no row's similarity, the mean or the weighted one. It can raise the
  low count exactly when some retried very low row has a text that would make it merely low,
  and a gate keeps its checks on rows under every outcome if and only if the low rows and those
  rows together are within the limit. With no very low row allowed a passing gate can newly fail
  two checks only: known misrecognitions, and the similarity of the whole transcript, which
  can fall although no row gets less similar (`RetryExample`, at the default limits). Nothing can
  change exactly when no retried row has a more similar text.
- **Gate safety.** Every selected candidate is within every limit on similarity, drift, fit,
  recall and join; nothing is selected for a sample exactly when all its candidates miss one (and
  no override names one); two error paths of the source are unreachable and
  three of the nine components of the fallback key are constant where they are compared.
- **Time.** Durations exceed the speech time by at most 50 ms a part; the audio cuts tile the
  planned time if and only if the plan fits into the audio, which pauses of 101 ms or more
  guarantee when the target has room for the pauses and 50 ms a part. Longer parts get no less
  time than shorter ones among all but the last; the last takes the remainder, and the order
  holds for it, too, if and only if that lies between the shares of its two neighbours in size.
- **Joins.** Repairing loud tails never makes the loud-tail check fail. It makes the jump check
  fail if and only if some pause is at most 20 ms and a loud tail is faded to more than the
  limit below the next head, or a fade reaches the head of its own part and leaves that as far
  below the tail before. Two equal parts without a pause show it at the default limit.
- **Windows** over a manifest are disjoint in order if and only if their starts strictly
  increase; cut short by nothing, a window covers its segment and its synthesised audio.
- **Overlays** of a chapter keep a breath between them if and only if its starts are more than
  a breath apart (when every row sounds), and speech is clipped by no more than that takes.
- **Text budget.** Whatever path the rewriter takes, its result stays within the maximum and ends
  a sentence, uses up the budget, or is blank; where a sentence of the minimum length ends within
  the budget, a cut ends one. Normalising can leave a doubled full stop.

## Model

| member | source | states |
|---|---|---|
| Delimiters.SplitWithDelimiters | tools/lora_split_plan.py:123-139 | The collecting loop over the pieces of the pattern split yields exactly the clauses: cut after every delimiter, stripped, blank ones dropped |
| Delimiters.ClausesFacts | tools/lora_split_plan.py:123-139 | Clause splitting keeps the whole visible text in order; every clause is stripped and non-empty |
| Delimiters.ClausesCutEverywhere | tools/lora_split_plan.py:123-139 | A delimiter stands only at the end of a clause |
| Delimiters.ClausesCutNowhereElse | tools/lora_split_plan.py:123-139 | There is at most one clause more than delimiters |
| Delimiters.ClausesEmpty | tools/lora_split_plan.py:143-145 | No clause is found exactly in a blank text, so the fallback of the caller adds nothing |
| LongRun.Find | tools/lora_split_plan.py:190-192 | First occurrence of a term at or after a position, ignoring case, or none |
| LongRun.OccursIff | tools/lora_split_plan.py:183-195 | A term occurs exactly where every character of it stands, ASCII letters in either case |
| LongRun.ProtectedSpans | tools/lora_split_plan.py:183-195 | The spans are exactly the occurrences of the protected terms, overlapping ones included |
| LongRun.IsSafeSplitIndex | tools/lora_split_plan.py:198-201 | True exactly for an index strictly inside the text that lies strictly inside no occurrence |
| LongRun.ChooseSafeSplitIndex | tools/lora_split_plan.py:219-240 | The two candidate passes and the choice of the first best score give the specified cut |
| LongRun.ChooseCutFacts | tools/lora_split_plan.py:219-240 | The chosen index is the best safe one of the search window, the first of several; without a safe one there the best of the text; without any the wanted index; it is safe exactly when a safe index exists |
| LongRun.WindowMeaning | tools/lora_split_plan.py:222-226 | The search window in plain numbers: within 8 characters of the wanted index, or within 30 and a quarter of the text, leaving 8 characters or a fifth, and at least one, on either side |
| LongRun.CutPreferences | tools/lora_split_plan.py:204-216 | Among cuts alike but for one thing: the nearer wins; one after punctuation is worth ten characters, one before a connective six, not being after a weak character four, not being before punctuation eight |
| LongRun.SplitLongRun | tools/lora_split_plan.py:164-180 | The cutting loop terminates, never takes its early exit, and yields the specified chunks |
| LongRun.ChunksConserve | tools/lora_split_plan.py:164-180 | Cutting a run loses no visible character |
| LongRun.ChunksShape | tools/lora_split_plan.py:164-180 | Chunks are clean, the last is within the limit, and a run is cut in two or more exactly when it is over the limit |
| LongRun.SplitRunFacts | tools/lora_split_plan.py:164-180 | The same for any input text, blank ones and non-positive limits included |
| LongRun.ChunkLengths | tools/lora_split_plan.py:170-177 | When every turn has a safe index in its window no chunk exceeds the limit plus 30 |
| ProtectedTerms.DefaultTermsWellFormed | tools/lora_split_plan.py:13-30 | Every term of the source table starts and ends with a visible character |
| ProtectedTerms.SpansLocateChunks | tools/lora_split_plan.py:164-180 | Chunks are disjoint slices of the text, in order |
| ProtectedTerms.TermsSurviveIffEveryTurnSafe | tools/lora_split_plan.py:164-240 | Every occurrence of every term lies wholly in one chunk if and only if every turn of the cutter has a safe index |
| ProtectedTerms.ShortClustersAreSafe | tools/lora_split_plan.py:183-240 | A text in which every slice over the limit has a safe cut makes every turn safe |
| Breath.SplitBreathGroups | tools/lora_split_plan.py:142-161 | Sentences, then clauses, then cut runs, as specified |
| Breath.BreathGroupsFacts | tools/lora_split_plan.py:142-161 | Breath groups are clean and carry the whole text in order |
| Breath.FittingSentencesAreGroups | tools/lora_split_plan.py:147-149 | When every sentence is within the limit the groups are the sentences |
| Breath.LongSentenceIsCut | tools/lora_split_plan.py:150-160 | An over-long sentence becomes its comma clauses when they are within the limit, and is cut as a run when it has no inner comma |
| Breath.BreathGroupsShort | tools/lora_split_plan.py:142-177 | No group exceeds the limit by more than 30 when the runs that may be cut have safe cuts in their search windows |
| PlanTerms.PlainTextGroupsShort | tools/lora_split_plan.py:142-240 | In particular none does in a text in which no protected term occurs |
| Packing.PackShortGroups | tools/lora_split_plan.py:243-261 | The accumulating loop, including the leftover folded into the last part, equals its specification |
| Packing.PackShortFacts | tools/lora_split_plan.py:243-261 | Nothing is lost; with a positive minimum and several groups the result is one part or only parts of at least the minimum |
| Packing.PackShortTight | tools/lora_split_plan.py:243-261 | Parts are closed as early as possible: all but the last stay below the minimum plus the longest group |
| Packing.PackToPartCount | tools/lora_split_plan.py:270-287 | The greedy packing loop equals its specification |
| Packing.PackCountBalanced | tools/lora_split_plan.py:270-287 | With c the total over k, rounded up: 1 to k parts in order and complete, all but the last at least c characters, none above c - 1 + the longest group |
| Packing.PackCountIsGreedy | tools/lora_split_plan.py:270-287 | Which groups make up each part: a part is closed as soon as it has c characters, without its last group it would not, and the k-th part takes all the rest |
| Packing.PartCountSuffices | tools/lora_split_plan.py:264-267 | At least two parts and at most the limit; below the limit full parts hold all characters and all seconds, and beyond two one part fewer would not |
| Packing.ForceBreakBlocks | tools/lora_split_plan.py:298-308 | The block loop closes a block at every matching group |
| Packing.BlocksFlatten | tools/lora_split_plan.py:298-308 | The blocks partition the groups in order |
| Packing.PackWithForcedBoundaries | tools/lora_split_plan.py:311-324 | Both branches, with and without patterns, as specified |
| Packing.PackForcedFacts | tools/lora_split_plan.py:311-324 | Packing with forced boundaries loses nothing and keeps parts clean |
| Packing.BlockPartsBounded | tools/lora_split_plan.py:318-323 | No part of a forced block exceeds the part limit by a whole longest group |
| Packing.ForcedBreakEndsPart | tools/lora_split_plan.py:294-324 | A matching group always ends a part: the list packs as the part up to it followed by the rest on its own |
| Packing.UnbrokenGroups | tools/lora_split_plan.py:298-324 | Nothing else ends a block: groups of which at most the last matches are packed together, into the least number of full parts that holds them |
| Islands.MergeTinyIslands | tools/lora_split_plan.py:349-363 | The deleting loop terminates and equals its specification |
| Islands.MergeTinyFacts | tools/lora_split_plan.py:349-363 | Nothing is lost; if several parts remain each has more than three characters and some meaningful one |
| Islands.MergeTinyIdempotent | tools/lora_split_plan.py:349-363 | A second pass changes nothing |
| Islands.OnlyIslandsMerge | tools/lora_split_plan.py:349-363 | At least as many parts remain as stood alone before: such parts are never merged with each other |
| Islands.StandsAloneIff | tools/lora_split_plan.py:354-354 | A part stands alone exactly with at least four visible characters, one of them alphanumeric or an ideograph |
| Islands.IslandJoinsPart | tools/lora_split_plan.py:357-359 | The first island joins the part before it |
| Islands.LeadingIslandJoinsNext | tools/lora_split_plan.py:360-362 | An island at the head of the list joins the part behind it |
| PartPlan.WorstIsFirstLongest | tools/lora_split_plan.py:327-333 | The part with the first largest estimate is the first part with the most characters |
| PartPlan.EstimatesShareSpeech | tools/lora_split_plan.py:327-333 | The estimates are in proportion to the characters and add up to the seconds less the pauses, at least 50 ms a part |
| PartPlan.SplitPartOnce | tools/lora_split_plan.py:336-346 | Packing in two, or else cutting the run at half its characters |
| PartPlan.SplitOnceFacts | tools/lora_split_plan.py:336-346 | Splitting a part loses nothing and yields two or more pieces exactly when the part has two or more visible characters |
| PartPlan.SplitOnceHalves | tools/lora_split_plan.py:336-346 | Two packed groups are the halves; more are parted where half the characters are reached first; with one, or when that takes the last group, the run is cut at half its characters |
| PartPlan.EnforceMaxPartSeconds | tools/lora_split_plan.py:366-385 | The re-split loop terminates and equals its specification, slice included |
| PartPlan.TurnSplitsLongest | tools/lora_split_plan.py:369-384 | A turn replaces the first part with the most characters by the pieces it splits into, as many as fit the limit |
| PartPlan.FastPartsStay | tools/lora_split_plan.py:369-377 | Parts within the seconds limit, and a list that fills the part limit, stay as they are |
| PartPlan.ResplitLoopStops | tools/lora_split_plan.py:370-384 | The loop ends at the part limit, or with every estimate within the limit, or with no part of more than one visible character |
| PartPlan.ResplitLoopSize | tools/lora_split_plan.py:366-385 | Never fewer parts than given, never more than the larger of that and the limit |
| PartPlan.SliceOnlyAfterRunCut | tools/lora_split_plan.py:377-383 | The slice can fire only when the long-run cutter gave three or more pieces |
| PartPlan.ResplitLoopText | tools/lora_split_plan.py:366-385 | The loop keeps an in-order sub-sequence of the text, all of it exactly when no turn slices |
| PartPlan.PlanTexts | tools/lora_split_plan.py:406-420 | The whole text pipeline of `planned_parts`, as specified |
| PartPlan.PlanConservesText | tools/lora_split_plan.py:406-420 | A plan carries an in-order sub-sequence of the source text, and all of it if and only if the slice never fires |
| PartPlan.PlanShape | tools/lora_split_plan.py:406-420 | Planned parts are stripped and non-empty, free of islands when several, and no more than the larger of the limit and the parts before re-splitting |
| PartPlan.PlanSizeIff | tools/lora_split_plan.py:406-420 | For all settings a plan exceeds the part limit if and only if the parts before re-splitting, islands folded, do, and then these are the plan |
| PartPlan.UnforcedPlanSizeIff | tools/lora_split_plan.py:406-420 | Without forced breaks a plan exceeds max(2, max_parts) parts if and only if the packer leaves one part and the run cut at half the characters, islands folded, yields more pieces than that |
| PartPlan.ForcedPlanSize | tools/lora_split_plan.py:311-324 | With forced breaks, and the part limit apart, a plan packed in several parts has at most one part a block and one more for every max_part_chars characters, and one packed in a single part at most the pieces of its run cut, islands folded |
| PlanExamples.PlanCanExceedLimit | tools/lora_split_plan.py:417-418 | With the source tables and two parts allowed, the plan of a concrete text of 24 characters has three parts |
| PlanTerms.DefaultTermsGood | tools/lora_split_plan.py:13-30 | No term of the source table contains a character that sentences or clauses are cut at |
| PlanTerms.ClausesAt | tools/lora_split_plan.py:123-139 | Cutting at punctuation keeps every occurrence of such a term whole and in its place, and makes none |
| PlanTerms.BreathAt | tools/lora_split_plan.py:142-161 | When every run is cut safely, breath groups contain exactly the occurrences of the text, each at its place of the visible text |
| PlanTerms.TermsSurvivePlanning | tools/lora_split_plan.py:406-420 | When no run cut of the planner is unsafe and the slice never fires, every occurrence of every protected term lies inside one planned part, at its place of the visible text |
| PlanTerms.ShortClustersSurvivePlanning | tools/lora_split_plan.py:406-420 | If no stretch of the text longer than the limit it is cut at is one cluster of overlapping terms, a plan that is not re-split cuts safely, so every occurrence survives it |
| PartPlan.SecondMergeRedundant | tools/lora_split_plan.py:419-420 | After a re-split the second island pass changes nothing |
| PlanExamples.PlanCanDropText | tools/lora_split_plan.py:381-384 | With the source tables and three parts allowed, the plan of a concrete text fires the slice and loses visible text |
| Timing.AllotMs | tools/lora_split_plan.py:427-435 | The assigning loop gives every part but the last its rounded share and the last the remainder, both floored at 50 ms |
| Timing.AllotTotal | tools/lora_split_plan.py:422-435 | Every part has at least 50 ms; the total is at least the speech time rounded to the millisecond, at most 50 ms a part above it, and equal to it exactly when 50 ms were left for the last part |
| Timing.ShareFacts | tools/lora_split_plan.py:434-434 | A share is the floor of 50 ms or within half a millisecond of the exact one, and more characters never get a smaller share |
| Timing.TimeFollowsCharsIff | tools/lora_split_plan.py:427-435 | All parts but the last get their time in the order of their characters; all parts do if and only if the remainder left for the last lies between the shares of the longest part that is not longer and the shortest that is not shorter |
| Timing.LastPartCanLose | tools/lora_split_plan.py:431-432 | A concrete plan gives 96 ms to 40 characters and 50 ms to the 41 of its last part |
| Timing.LastShareNear | tools/lora_split_plan.py:427-435 | When nobody was lifted to the floor, the last part is within half a millisecond a part of its exact share, and loses to no part whose exact share is smaller by that and a half |
| Timing.PlannedParts | tools/lora_split_plan.py:406-464 | Rows carry the planned texts, numbered from one, with the allotted durations |
| Timing.PlanDurations | tools/lora_split_plan.py:422-435 | The durations of a whole plan, bounded by the speech time and by twice the speech time |
| Timing.CutAudio | tools/lora_build_split_part_manifest.py:210-228 | The cursor loop, skipping parts without a duration, gives the specified cuts |
| Timing.CutsStayInside | tools/lora_build_split_part_manifest.py:217-218 | With at least 50 ms of audio every cut lies inside it and has at least 50 ms |
| Timing.CutsGiveWay | tools/lora_build_split_part_manifest.py:217-218 | A cut starts where the parts before it end, or 50 ms before the end of the audio, and has the length of its part, or what is left of the audio |
| Timing.EmptyPartsSkipped | tools/lora_build_split_part_manifest.py:213-216 | Parts without a duration are as if they were not there |
| Timing.CutsTileIffPlanFits | tools/lora_build_split_part_manifest.py:206-228 | The cuts tile the planned time without gap or overlap if and only if the plan fits into the audio |
| Timing.PlannedCutsTile | tools/lora_build_split_part_manifest.py:200-228 | Audio with room for the speech time and 50 ms a part is tiled by the planned durations |
| Timing.PlanFitsAudio | tools/lora_build_split_part_manifest.py:200-228 | The plan of a text in several parts, with pauses of at least 101 ms and a target with room for them and 50 ms a part, fits into audio as long as the target, and its cuts tile it |
| Windows.WindowForRow | tools/lora_final_mix_asr_audit.py:172-213 | The step-by-step computation equals the window in closed form, the bounded flag included |
| Windows.BuildManifest | tools/lora_final_mix_asr_audit.py:216-280 | One item per row in playing order, chapter starts overridden where measured, each with the window bounded by its successor |
| Windows.ManifestOrder | tools/lora_final_mix_asr_audit.py:227-233 | The manifest lists every segment once, by chapter and segment number; a measured chapter start replaces the recorded one and nothing else |
| Sequences.SortIsStable | tools/lora_final_mix_asr_audit.py:168-169 | Rows that compare equal keep their order |
| Windows.LastResortIff | tools/lora_final_mix_asr_audit.py:203-204 | The last-resort extension fires exactly when a set episode duration does not reach past the window start, and gives the minimum length |
| Windows.WindowNeverEmpty | tools/lora_final_mix_asr_audit.py:183-204 | No setting makes a window empty |
| Windows.WindowsNonEmptyInEpisode | tools/lora_final_mix_asr_audit.py:183-205 | All windows are non-empty and end by the end of the episode |
| Windows.WindowCoversSpeech | tools/lora_final_mix_asr_audit.py:183-202 | A window starts the padding before its segment; bounded neither by the next segment nor by the episode it ends the padding past the end of the segment, the end of the synthesised audio or at the minimum length, whichever is last |
| Windows.WindowBoundedByNext | tools/lora_final_mix_asr_audit.py:189-195 | The next segment bounds a window exactly when the padded speech reaches into the gap before it, and the window then ends at that gap |
| Windows.EpisodeOnlyCuts | tools/lora_final_mix_asr_audit.py:196-202 | A known episode length cuts the window at the end of the episode and changes nothing else |
| Windows.WindowsDisjointIff | tools/lora_final_mix_asr_audit.py:183-205 | With padding at most the gap, windows are pairwise disjoint in order if and only if their starts strictly increase |
| Windows.IncreasingSegmentsDisjoint | tools/lora_final_mix_asr_audit.py:227-251 | Without padding strictly increasing absolute starts from zero on make all windows disjoint |
| AsrBatch.OutputDir.RunAsrBatch | tools/lora_final_mix_asr_audit.py:527-587 | One run on the two result files, the block after the script executed on success and on failure alike |
| AsrBatch.KeepEpisode | tools/lora_final_mix_asr_audit.py:543-546 | Exactly the rows of the requested episode are reused |
| AsrBatch.KeepPending | tools/lora_final_mix_asr_audit.py:553-554 | Exactly the windows without a recorded label are sent |
| AsrBatch.RunScript | tools/lora_final_mix_asr_audit.py:320-345 | The script leaves the answers to a prefix of its list, or to all of it when it is not interrupted |
| AsrBatch.FinishedRunIsOwn | tools/lora_final_mix_asr_audit.py:538-587 | Whatever the directory held, a finished run returns only its own episode, unique labels, in order, covering its manifest |
| AsrBatch.RunRecordsOwnAnswers | tools/lora_final_mix_asr_audit.py:326-338 | Every answered window has its own answer in the raw file after the run, and any other row there was in one of the two files before |
| AsrBatch.FinishedRunAnswersAll | tools/lora_final_mix_asr_audit.py:538-587 | A run finishes unless windows were sent and the script failed; then every manifest window has its own answer or a row under its label from before |
| AsrBatch.AnyDirectoryTakenOver | tools/lora_final_mix_asr_audit.py:538-587 | Whatever another episode or run left, a resumed run sends nothing found in either file and leaves the directory resumable; it records all that was found and answered unless a label lay in the remaining file alone and windows were sent without any answer, and only then not |
| AsrBatch.LoneRemainingRowIsLost | tools/lora_final_mix_asr_audit.py:558-587 | A concrete directory in that exceptional case loses its one label |
| AsrBatch.ResumedRunStep | tools/lora_final_mix_asr_audit.py:527-587 | A resumed run keeps the files resumable, and consistent if they were, sends nothing recorded, loses nothing, and adds exactly what was answered |
| AsrBatch.ResumedRunsKeepRecord | tools/lora_final_mix_asr_audit.py:527-587 | From any resumable directory, rows of other episodes included, over any sequence of resumed runs and rewrites by the retry no label is lost and windows transcribed equal labels gained |
| AsrBatch.NextRunContinues | tools/lora_final_mix_asr_audit.py:553-583 | The next run of the same manifest sends exactly what the interrupted one left unanswered |
| AsrBatch.ForeignDirectoryResumable | tools/lora_final_mix_asr_audit.py:538-546 | A directory without rows of the episode is resumable and records nothing, and an empty one satisfies the stronger invariant too |
| AsrBatch.RecordedRowSurvivesIff | tools/lora_final_mix_asr_audit.py:536-583 | A recorded row survives a resumed run if and only if the remaining file has no other row of its label, or windows are sent and none is answered |
| AsrBatch.StaleRowReturns | tools/lora_final_mix_asr_audit.py:536-552 | In a concrete consistent directory a resumed run replaces the improved row by the one left in the remaining file |
| ChunkRetry.RetryLowSimilarity | tools/lora_final_mix_asr_audit.py:690-754 | Long flagged rows are retried and replaced exactly when the retry succeeded and is strictly more similar |
| ChunkRetry.RetriedRows | tools/lora_final_mix_asr_audit.py:690-754 | The final analysis is the first one with exactly those rows replaced whose own retry was due, succeeded and is strictly more similar |
| ChunkRetry.RowChangesIff | tools/lora_final_mix_asr_audit.py:690-754 | A row changes exactly if it is below one of the two thresholds, its window is long enough, the retry succeeded, and the new text is strictly more similar |
| ChunkRetry.ExpectedTextSource | tools/lora_final_mix_asr_audit.py:651-655 | The expected text is the one of the row, else of the last manifest row of its label, else blank |
| ChunkRetry.RetryNeverWorse | tools/lora_final_mix_asr_audit.py:690-754 | Number, order, labels and expected texts of the rows stay, and no similarity falls |
| ChunkRetry.RetryImprovesSummary | tools/lora_final_mix_asr_audit.py:757-799 | Mean and weighted similarity never fall, the very-low count and the combined count never rise |
| ChunkRetry.MeansOfRecognised | tools/lora_final_mix_asr_audit.py:757-799 | The means are over the recognised windows, the second one by the length of their expected text |
| ChunkRetry.GatePassesIff | tools/lora_final_mix_asr_audit.py:802-825 | The gate passes exactly when there are windows, all were recognised as non-blank text without a known misrecognition, mean, weighted mean and transcript reach their limits, and at most as many windows as allowed are very low and low |
| ChunkRetry.LowCountRisesIff | tools/lora_final_mix_asr_audit.py:667-670 | Some outcome of the retry raises the low count if and only if some retried very low row has a text that would make it low |
| ChunkRetry.RowChecksKeptIff | tools/lora_final_mix_asr_audit.py:802-825 | A gate passing its checks on rows (success, mean, weighted, very low, low) keeps them under every outcome of the retry if and only if low and promotable rows together are within the low limit |
| ChunkRetry.RetryKeepsGateIff | tools/lora_final_mix_asr_audit.py:802-825 | With no very-low row allowed, and blank texts scoring above nothing but a similarity of 0, a passing gate passes after the retry if and only if the whole transcript stays similar enough and no known misrecognition appears: the other seven checks cannot newly fail |
| ChunkRetry.RetryIdleIff | tools/lora_final_mix_asr_audit.py:707-754 | The retry is certain to leave the results, and so every gate figure, as they are if and only if no retried row has a more similar text |
| RetryExample.LowCountMayRise | tools/lora_final_mix_asr_audit.py:667-670 | A retry that hears 10 of 20 characters instead of 8 raises the low count and fails a gate that passed, for any comparison that rates a text and its beginning as the source does |
| RetryExample.TranscriptMayFall | tools/lora_final_mix_asr_audit.py:806-809 | At the default limits a retry that makes no row less similar makes the whole transcript less similar and fails a gate that passed, for any comparison that rates a text and its beginning as the source does |
| TailRecall.LcsLen | tools/lora_candidate_gate.py:123-135 | The rolling two-row table computes the recursive longest-common-subsequence length |
| TailRecall.LcsIsUpperBound | tools/lora_candidate_gate.py:123-135 | No common sub-sequence is longer |
| TailRecall.LcsIsReached | tools/lora_candidate_gate.py:123-135 | A common sub-sequence of that length exists |
| TailRecall.LcsFullIffSubseq | tools/lora_candidate_gate.py:123-135 | The length equals that of the left text exactly when it is a sub-sequence of the right one |
| TailRecall.TailCompleteness | tools/lora_candidate_gate.py:138-150 | Absent for short or unheard texts, otherwise the share of the expected tail found in the observed window |
| TailRecall.SpokenFacts | tools/lora_candidate_gate.py:114-120 | Normalising keeps the spoken characters in order, all of them and nothing else |
| TailRecall.TailRecallRange | tools/lora_candidate_gate.py:145-145 | Tail recall lies in [0, 1] and is 1 exactly when the tail is heard in order |
| CandidateGate.EligibleFallbackPool | tools/lora_candidate_gate.py:311-321 | The pool is exactly the candidates without hard or unsupported reasons, in order |
| CandidateGate.EligibleIffNoHardReason | tools/lora_candidate_gate.py:10-19 | A candidate is eligible exactly when it has no hard reason, and then only flat F0 can remain |
| CandidateGate.ReasonListed | tools/lora_candidate_gate.py:195-220 | Each of the seven reasons is listed exactly when its measurement misses its limit |
| CandidateGate.HardReasonIff | tools/lora_candidate_gate.py:195-220 | A candidate has a hard reason exactly when it misses a limit, and none at all exactly when it also has enough melody |
| CandidateGate.SelectListeningOverride | tools/lora_candidate_gate.py:283-308 | Only the first override of a sample counts; it selects the best match or aborts |
| CandidateGate.UnsupportedReasonUnreachable | tools/lora_candidate_gate.py:301-306 | The abort for unsupported reasons cannot happen |
| CandidateGate.OverrideHonoured | tools/lora_candidate_gate.py:283-308 | The only candidate that goes by the name an override asks for is taken, unless it misses a limit, and then the run aborts |
| CandidateGate.DecideSample | tools/lora_candidate_gate.py:426-480 | Override, best clean candidate, best fallback, or no selection, in that order |
| CandidateGate.DecideSound | tools/lora_candidate_gate.py:426-480 | Each tier selects a best candidate of its kind, a fallback has exactly the reason flat F0, and the strict-gate reason for no selection is never given |
| CandidateGate.EarliestIsTaken | tools/lora_candidate_gate.py:426-480 | Of several best candidates the first in the input order is taken |
| CandidateGate.RunGate | tools/lora_candidate_gate.py:417-497 | The loop over the samples records one decision each and the chosen rows, or aborts where some sample aborts |
| CandidateGate.SampleOrderFacts | tools/lora_candidate_gate.py:413-419 | Every sample of the input has exactly one turn, in the order of the ids |
| CandidateGate.GateIsSafe | tools/lora_candidate_gate.py:409-497 | In any run that finishes each sample has one sound decision, and every selected row is an input row within every limit: similarity, drift, fit, term recall, tail recall and join |
| CandidateGate.NoSelectionIff | tools/lora_candidate_gate.py:450-475 | Without an override nothing is selected if and only if every candidate has a hard reason |
| CandidateGate.UnselectedIffAllMiss | tools/lora_candidate_gate.py:450-475 | Without an override a sample stays without a choice if and only if every one of its input rows misses a limit |
| CandidateGate.ScoreMonotone | tools/lora_candidate_gate.py:223-239 | A candidate that is as good in every measurement never scores lower |
| CandidateGate.ScoreLandmarks | tools/lora_candidate_gate.py:223-239 | What each measurement is worth to a candidate on all its targets |
| CandidateGate.FallbackThresholdsConstant | tools/lora_candidate_gate.py:253-260 | The three threshold components of the fallback key are constant on the pool |
| CandidateGate.FallbackRanking | tools/lora_candidate_gate.py:242-263 | One fallback ranks below another exactly if it is worse in the first of similarity, term recall, latin recall, drift, fit and score in which they differ |
| SplitAssemble.FadeTail | tools/lora_split_assemble.py:94-107 | The nested loops overwrite the samples in place with the specified fade |
| SplitAssemble.FadeShrinks | tools/lora_split_assemble.py:101-107 | Every sample moves towards zero and not past it; the prefix is untouched |
| SplitAssemble.FadeIsLinear | tools/lora_split_assemble.py:101-107 | Of n frames, frame j keeps (n - 1 - j) / n of every sample, rounded towards zero |
| SplitAssemble.FadeExtent | tools/lora_split_assemble.py:94-100 | In a file of whole frames the fade covers the last frames, as many as it has or the whole file |
| SplitAssemble.FadeMeasured | tools/lora_split_assemble.py:97-97 | A fade has the whole frames of its time, which is at least 1 ms, and at least one |
| SplitAssemble.FadeSilencesLastFrame | tools/lora_split_assemble.py:97-107 | The last frame of a file of whole frames is zero after the fade |
| SplitAssemble.FadeEnergy | tools/lora_split_assemble.py:101-107 | The energy of any stretch of samples never rises |
| SplitAssemble.EnergyConcat | tools/lora_split_assemble.py:115-122 | Energy is the sum of the squares |
| SplitAssemble.RepairLoudBoundaryTails | tools/lora_split_assemble.py:182-215 | Exactly the parts before a join with a loud tail are faded, and their numbers reported |
| SplitAssemble.RepairSoftensTails | tools/lora_split_assemble.py:182-215 | Lengths, the last part and quiet parts stay, every loud tail before a join is faded, and no tail gets louder |
| SplitAssemble.TailAndHead | tools/lora_split_assemble.py:125-131 | Tail and head are the last and the first samples of the join window, the whole samples of a time of at least 1 ms |
| SplitAssemble.JoinChecksAfterRepair | tools/lora_split_assemble.py:262-289 | The loud-tail check never newly fails; the jump check does if and only if a pause is at most 20 ms and fading made a loud tail too quiet for the next head, or reached a head and made that too quiet for the tail before |
| SplitAssemble.OnlyTailsOpenJumps | tools/lora_split_assemble.py:262-284 | When no fade reaches a head the jump check newly fails if and only if a pause is at most 20 ms and some loud tail fades more than the limit below the next head |
| SplitAssemble.RepairCanOpenJump | tools/lora_split_assemble.py:262-284 | For any loudness with the source's values for silence and for one sample of 100, two equal parts without a pause pass the jump check at 16 dB before the repair and fail it afterwards |
| SplitAssemble.DistributeSilence | tools/lora_split_assemble.py:240-258 | Base, extra and unapplied padding add up to the target, pauses stay within their limit, and padding is left unapplied exactly when all joins are full |
| EpisodeMix.CollectNextStarts | tools/lora_episode_assemble.py:538-540 | The table of following starts, by segment id |
| EpisodeMix.NextStartsFacts | tools/lora_episode_assemble.py:538-540 | With unique ids every row but the last gets the start of its successor |
| EpisodeMix.PlaceChapter | tools/lora_episode_assemble.py:542-620 | The slot limits, clipped lengths and overlays of a chapter, as specified |
| EpisodeMix.KeptPlusClipped | tools/lora_episode_assemble.py:150-159 | Kept and clipped length add up to the audio, and something is always kept |
| EpisodeMix.ClippedOnlyWhenNeeded | tools/lora_episode_assemble.py:574-580 | A row is clipped exactly by what it runs past the point 300 ms before the following start; the last row and a row without room before that point never are |
| EpisodeMix.OverlayTurns | tools/lora_episode_assemble.py:574-620 | Every row with audio has one overlay, in the order of the rows, that starts with the row and ends with its audio or 300 ms before the following start; nothing else has one |
| EpisodeMix.SpacedRowsNeverCollide | tools/lora_episode_assemble.py:574-620 | Starts more than 300 ms apart make all overlays pairwise disjoint with a gap of at least 300 ms |
| EpisodeMix.CollisionFreeIffSpaced | tools/lora_episode_assemble.py:574-620 | When every row sounds that spacing is also necessary |
| EpisodeMix.RenderVoice | tools/lora_episode_assemble.py:332-341 | Mixing in passes of thirty and adding the passes equals mixing all overlays at once |
| EpisodeMix.MixIsOneVoice | tools/lora_episode_assemble.py:334-341 | In a collision-free chapter the mix is a single overlay wherever one sounds |
| Tempo.AtempoFilter | tools/lora_duration_fit.py:40-53 | For every positive tempo the loops terminate with factors in [0.5, 2] that multiply to the tempo, all but the last at the end of the range |
| Tempo.FewestFactors | tools/lora_duration_fit.py:40-53 | No chain of factors in that range with the same product is shorter |
| TextBudget.CharBudgetRange | tools/lora_build_text_repair_features.py:339-348 | 1 <= min <= max <= max(1, original - 1) |
| TextBudget.BudgetReachesRate | tools/lora_build_text_repair_features.py:341-342 | A text cut to a budget of more than one character no longer needs more than the wanted rate |
| TextBudget.BudgetIsLargest | tools/lora_build_text_repair_features.py:339-348 | One character more would not be shorter than the original or would exceed the wanted rate; the minimum is the largest within its share of the maximum |
| TextBudget.NormalizeShrinks | tools/lora_build_text_repair_features.py:115-123 | Normalising punctuation never adds visible characters |
| TextBudget.NormalizeRemoves | tools/lora_build_text_repair_features.py:115-123 | No long dash, doubled comma or comma before a full stop is left |
| TextBudget.DoubleStopCanRemain | tools/lora_build_text_repair_features.py:115-123 | A doubled full stop can be left: a concrete text |
| TextBudget.NormalizeLeaves | tools/lora_build_text_repair_features.py:115-123 | A text without quotes, long dashes and those doubles is only stripped |
| TextBudget.ReplaceFirst | tools/lora_build_text_repair_features.py:118-122 | The first occurrence is replaced and the rest treated alike |
| TextBudget.CollapseDouble | tools/lora_build_text_repair_features.py:119-120 | One repetition less of the collapsed character leaves the result as it is |
| TextBudget.CurlyPair | tools/lora_build_text_repair_features.py:117-117 | The first pair of straight quotes around a non-empty stretch of one line becomes curly and the rest is treated alike |
| TextBudget.CurlyLone | tools/lora_build_text_repair_features.py:117-117 | A straight quote that opens no such pair stays |
| TextBudget.EnsureTerminalWithin | tools/lora_build_text_repair_features.py:126-132 | The added full stop never breaks a budget that held |
| TextBudget.EnsureTerminalEnds | tools/lora_build_text_repair_features.py:126-132 | The result ends a sentence unless it is blank or the budget is used up, and adds nothing but a full stop |
| TextBudget.ShorteningTableShrinks | tools/lora_build_text_repair_features.py:172-175 | Replacements by phrases that are no longer never add characters, and a text within the budget is left alone |
| TextBudget.ShortenedIsLeast | tools/lora_build_text_repair_features.py:172-175 | Exactly as many replacements are made, in the order of the table, as the budget needs |
| TextBudget.ClarifiedIff | tools/lora_build_text_repair_features.py:176-191 | The clearer text is taken exactly when all its terms occur and it is in budget |
| TextBudget.HeuristicRewrite | tools/lora_build_text_repair_features.py:152-218 | Replacements, clarification, sentence prefix, trimmed prefix and backward scan, as specified |
| TextBudget.RewriteSteps | tools/lora_build_text_repair_features.py:152-218 | The normalised text, the fewest replacements that fit it, the clearer text where it applies, then a full stop or a cut |
| TextBudget.RewriteEndsOrFills | tools/lora_build_text_repair_features.py:152-218 | Whatever the path, the result ends a sentence, uses up the budget, or is blank |
| TextBudget.RewriteWithinBudget | tools/lora_build_text_repair_features.py:152-218 | Every path stays within the maximum |
| TextBudget.WithinIsLongest | tools/lora_build_text_repair_features.py:206-213 | A text over the budget is trimmed to exactly the budget |
| TextBudget.CutKeepsPrefix | tools/lora_build_text_repair_features.py:194-217 | Cutting at a sentence end keeps an initial stretch of the visible text |
| TextBudget.KeptIsLongest | tools/lora_build_text_repair_features.py:194-202 | As many first sentences are kept as fit |
| TextBudget.CutEndsSentence | tools/lora_build_text_repair_features.py:194-218 | When a sentence of the minimum length ends within the budget, the cut text is in budget, ends a sentence and is an initial stretch; otherwise it may be all characters the budget allows |
| TextBudget.SentencesPreferred | tools/lora_build_text_repair_features.py:194-204 | When as many first sentences as fit end a sentence and have the minimum length, they are the result |
| TextBudget.CutAtLastEnd | tools/lora_build_text_repair_features.py:206-218 | Otherwise the characters that fit are cut at the last sentence end that leaves the minimum length, or kept whole |
| TextBudget.ChooseRepairedText | tools/lora_build_text_repair_features.py:229-251 | An in-budget text whenever a candidate is in budget, the preferred one first, else one of least distance, too long before too short |
| TextBudget.RepairText | tools/lora_build_text_repair_features.py:372-389 | The repaired text exceeds its maximum in exactly one case: the language-model rewrite is too long by no more than the heuristic one is too short |
| CanarySelect.ComputeQuotas | tools/lora_canary_select.py:78-91 | Quotas always sum to the count; with proper shares each is strictly within one of its exact share, at least its floor, with the extra seats at the largest remainders; shares that come to too much are taken from the largest buckets |
| CanarySelect.FirstIsTaken | tools/lora_canary_select.py:84-90 | Of equal buckets the first is taken |
| CanarySelect.BucketChoiceIsTop | tools/lora_canary_select.py:98-104 | As many rows as asked for or all, and none left out with a lower split rank, or the same and more risk, than one taken |
| CanarySelect.RebalanceCompletes | tools/lora_canary_select.py:107-119 | Filling up gives min(count, rows) rows, none of them twice |
| CanarySelect.BestRowsFillUp | tools/lora_canary_select.py:107-119 | Selected rows stay, and no row left out ranks above one that filled up |
| CanarySelect.SelectCanary | tools/lora_canary_select.py:144-152 | min(count, rows) distinct rows of the input, with every bucket filled to its quota as far as it has rows, and no row left out ranking above a selected one of its bucket |

## Left out

- ffmpeg, ffprobe, docker, psql, HTTP and file formats. The recogniser is any function of the window, the chunk retry any function of the row, audio a sequence of samples or an interval of milliseconds.
- A process killed outright, so that the `finally` block of `run_asr_batch` does not run, and files with broken JSON.
- Floating-point rounding: seconds, shares, levels, scores and tempos are real numbers, and the similarity figures of a summary are taken before they are rounded to four digits (rounding keeps their order).
- `str.lower` beyond ASCII: the protected terms contain only ASCII letters and characters without case. U+0130, whose lower case is two characters, would shift the spans found after it.
- `SequenceMatcher`, the list of known misrecognitions, the phrase table of the heuristic rewriter, `str.isalnum`, force-break regular expressions, the random shuffle and the loudness formula are parameters, any functions with the facts the theorems name.
- ProtectedTerms.ShortClustersAreSafe: one direction only. A cluster of terms longer than the limit can still survive, because a chunk before the last may exceed the limit by up to 30 characters.
- AsrBatch.OutputDir.RunAsrBatch: the manifest and script files it also writes are not modelled, as nothing reads them back.
- ChunkRetry.RetriedRows: needs unique labels, which the batch guarantees, and so do the theorems that follow from it; with repeated labels the source compares a row with the retry of another.
- PlanTerms.TermsSurvivePlanning: one direction only, because packing joins groups again and can restore a term that an unsafe cut had broken.
- EpisodeMix.RenderVoice: the limiters and fades inside the ffmpeg filters; the mix is the plain sum that `normalize=0` asks for.
- Speech-rate flags, duration tokens, summary figures that no gate check reads, reports, and the choice of rows to plan or to augment.
- The language-model rewrite call, training and inference, and the acceptance, monitoring, clone and enqueue scripts.
