# Data_process in Dafny

This project models the core of Data_process, a set of Python scripts that curate code
snippets for training a code model. The scripts load Python code, measure it, throw away
the bad snippets, and reshape the rest into chat-format and fill-in-the-middle (FIM)
training records. The model covers their deterministic text and sequence processing:

- **Quality classification** (`preprocessing.py`, `ml_validation.py`, `pipeline.py`):
  comment stripping, the special-character ratio, comment-line counting, the two
  preprocessing stages, the four-rule good/bad split, the two outlier filters, the
  collection of the removed rows, and the chunked JSON Lines export.
- **Dataset shaping**:
  - newline normalisation (`enter_remove.py`);
  - moving trailing imports from a FIM prefix into the hole (`move_import.py`);
  - the keyed, first-wins merge of FIM files (`jsonl_merge.py`);
  - the long and short FIM chunkers (`codetolongfim.py`, `codetoshortfim.py`);
  - the persona-styled FIM conversations (`comment.py`);
  - the FIM-to-chat reformatting (`reformat_fim_data_for_training.py`);
  - the error-injection and FIM scenarios of `prompt.py`;
  - code-fence extraction (`jsonl_code_extractor.py`).
- **Instruction generation** (the two `anthropic_prompt_by_*.py` scripts): node-source
  dedenting, the chunk filter, the record each chunk or file yields, and the
  processed-ID and batched-write bookkeeping of the main loops.

There is one Dafny module per source file, named after it. Shared modules hold what
several scripts use:

- `Wrappers`: Option and Result.
- `Text`: Python `str` operations over `seq<char>`.
- `Json`: parsed JSON values whose objects keep their insertion order.
- `Frames`: pandas tables as rows that carry their index label.
- `Streams`: per-line loops where a failing line is skipped.
- `Chat`: role/content messages.
- `Fim`: prefix/hole/suffix samples and their token strings.
- `Generation`: what the two instruction-generation scripts share.

Code that works by recursion or by building values is modelled as functions and lemmas.
Code that loops over counters, buffers and accumulators is modelled as methods with
loops. Each such method is proved equal to a specification function, and that function's
properties are proved as lemmas.

Everything outside the scripts becomes a parameter:

- the Python parser, radon's metrics and the AST walk (the `Analysers`, `collect` and
  `parse` parameters);
- the two outlier detectors (`Detector`);
- `json.loads` (`decode`);
- the language model (`llm`);
- every `random` call (the draw datatypes).

`data_processing/data_load_processing/preprocessing.py` is byte-identical to
`data_processing/data_load_process/preprocessing.py`, so the one `Preprocessing` module
stands for both.

## Model

| member | source | states |
|---|---|---|
| Text.Strip | prompt_processing/enter_remove.py:22 | `strip()` never lengthens the text, leaves no whitespace at either end, and is empty exactly for blank text |
| Text.StripIdempotent | prompt_processing/enter_remove.py:22 | stripping twice is stripping once |
| Text.IndexOf | prompt.py:88-89 | the first occurrence of the pattern: it is there, and nowhere before; absent means nowhere |
| Text.PartitionSound | completion_processing/reformat_fim_data_for_training.py:37-42 | the parts around the first separator give back the text |
| Text.BetweenWrapped | completion_processing/reformat_fim_data_for_training.py:55-58 | the text wrapped in a head and a tail is found again between them |
| Text.JoinBlank | prompt_processing/anthropic_prompt_by_function_from_original_code.py:150 | lines joined with a blank separator are blank exactly when every line is |
| Text.SplitLinesKeepEnds | move_import.py:9 | `splitlines(keepends=True)` gives non-empty lines whose concatenation is the text |
| Text.SplitLines | prompt.py:49 | `splitlines()` gives one line per kept-ends line, none exactly for the empty text |
| Text.Words | prompt.py:73 | `split()` gives only non-empty runs without whitespace |
| Text.WordsJoin | prompt.py:80 | words joined with single spaces split back into the same words |
| Streams.CappedIsPrefix | comment_processing/comment.py:175-199 | a loop that stops at the target keeps the first successes up to the target, or all of them when there are fewer |
| Streams.GatherFails | prompt_processing/jsonl_code_extractor.py:21-29 | one failing turn makes the whole loop fail |
| Json.Set | prompt_processing/enter_remove.py:52 | assigning a key sets it, leaves every other key alone, and adds a field only when the key was new |
| Frames.Reindexed | data_processing/data_load_process/preprocessing.py:152 | `reset_index(drop=True)` keeps the records in order and labels them 0..n-1 |
| Frames.Where | data_processing/data_load_process/preprocessing.py:194 | a boolean mask keeps, in order and with their labels, exactly the rows that satisfy it |
| Frames.WherePartition | data_processing/data_load_process/pipeline.py:99-100 | a mask and its negation split the rows with nothing lost and nothing repeated |
| Frames.NotLabelled | data_processing/data_load_process/pipeline.py:116 | `~index.isin(labels)` keeps, in order, exactly the rows whose label is not among the labels |
| Frames.NotLabelledConsecutive | data_processing/data_load_process/pipeline.py:116 | on rows labelled b, b+1, ..., dropping the labels 0..k-1 drops a prefix by position |
| Frames.Select | data_processing/data_load_process/ml_validation.py:25 | a per-position mask keeps as many rows as it has true flags |
| Frames.SelectSnoc | data_processing/data_load_process/ml_validation.py:25 | appending a row and its flag appends the row exactly when the flag holds |
| Frames.SelectAtPositions | data_processing/data_load_process/ml_validation.py:25 | a mask keeps exactly the rows at the positions where it holds, in their original order |
| Frames.SelectPartition | data_processing/data_load_process/pipeline.py:99-100 | a positional mask and its negation split the rows with nothing lost and nothing repeated |
| Frames.SelectSubseq | data_processing/data_load_process/ml_validation.py:25 | a positional mask keeps a subsequence of the rows |
| Frames.SelectAllTrue | data_processing/data_load_process/ml_validation.py:25 | an all-true mask keeps every row |
| Frames.MaskOf | data_processing/data_load_process/preprocessing.py:194 | one verdict per row, each that row's own |
| Frames.WhereIsSelect | data_processing/data_load_process/preprocessing.py:194 | a mask by value is the positional mask of its verdicts, so `SelectAtPositions` says which rows it keeps, repeated rows included |
| Frames.WhereAllKept | data_processing/data_load_process/preprocessing.py:194 | a mask every row satisfies keeps every row |
| Preprocessing.DropHashComments | data_processing/data_load_process/preprocessing.py:15 | the `#` pass leaves no `#`, only deletes characters, never lengthens the text, and leaves text without `#` unchanged |
| Preprocessing.DropHashKeepsLines | data_processing/data_load_process/preprocessing.py:15 | the `#` pass keeps every newline, so the text keeps its line count |
| Preprocessing.HashCutsLine | data_processing/data_load_process/preprocessing.py:15 | on a last line, everything from the first `#` on is removed and the text before it is kept |
| Preprocessing.KeptBeforeHash | data_processing/data_load_process/preprocessing.py:15 | a character other than `#` at the front is kept in front of the rest's result |
| Preprocessing.HashLineDropped | data_processing/data_load_process/preprocessing.py:15 | a `#` with no newline after it takes the whole rest of the text |
| Preprocessing.DropTripleQuoted | data_processing/data_load_process/preprocessing.py:16-17 | the non-greedy DOTALL block pass only deletes characters, never lengthens, and changes nothing when no triple quote occurs |
| Preprocessing.LoneTripleQuoteStays | data_processing/data_load_process/preprocessing.py:16-17 | an unmatched triple quote survives both block passes |
| Preprocessing.RemoveComments | data_processing/data_load_process/preprocessing.py:11-18 | a non-string gives ""; the result never holds `#` and is never longer than the input; code without `#`, `"""` and `'''` comes back unchanged |
| Preprocessing.HashCutsDocstring | data_processing/data_load_process/preprocessing.py:15-16 | a one-line docstring whose text holds `#` loses its closing quotes to the `#` pass, leaving the opening `"""` and the text before the `#` |
| Preprocessing.HashPassRunsFirst | data_processing/data_load_process/preprocessing.py:11-18 | because the `#` pass runs first, `"""#"""` comes out as an unterminated `"""` rather than as "" |
| Preprocessing.SpecialCount | data_processing/data_load_process/preprocessing.py:23 | the number of characters outside `[a-zA-Z0-9\s]` is at most the length and is zero exactly when no such character occurs |
| Preprocessing.SpecialCharRatio | data_processing/data_load_process/preprocessing.py:20-24 | non-strings and blank strings score 1; otherwise the ratio is special characters over length, between 0 and 1, and 0 exactly when no special character occurs |
| Preprocessing.MaintainabilityIndex | data_processing/data_load_process/preprocessing.py:36-45 | non-strings and blank code score 0.0, an analyser failure scores 0.0, otherwise radon's value |
| Preprocessing.CyclomaticComplexity | data_processing/data_load_process/preprocessing.py:47-59 | non-strings, blank code, analyser failure and no blocks score 0; otherwise the score is the sum of the blocks' complexities, so at least each of them |
| Preprocessing.Sum | data_processing/data_load_process/preprocessing.py:56 | the total is at least every term, and 0 for no terms |
| Preprocessing.SumAppend | data_processing/data_load_process/preprocessing.py:56 | the total over two runs of blocks is the sum of their totals |
| Preprocessing.CountCommentLines | data_processing/data_load_process/preprocessing.py:82-88 | the number of comment lines never exceeds the number of lines |
| Preprocessing.CountCommentLinesZero | data_processing/data_load_process/preprocessing.py:82-88 | the count is 0 exactly when no line, stripped, opens with `#`, `"""` or `'''` |
| Preprocessing.CountCommentLinesAll | data_processing/data_load_process/preprocessing.py:82-88 | the count equals the number of lines exactly when every line is a comment line |
| Preprocessing.CountCommentLinesAppend | data_processing/data_load_process/preprocessing.py:82-88 | the comment lines of two runs of lines add up |
| Preprocessing.CountCommentLinesSnoc | data_processing/data_load_process/preprocessing.py:83-88 | one more line adds one to the count exactly when that line, stripped, opens with `#`, `"""` or `'''` |
| Preprocessing.StructureInfoOf | data_processing/data_load_process/preprocessing.py:63-136 | blank or non-string code gives the empty summary; otherwise the line count is that of `splitlines()` and positive, the comment lines are those `CountCommentLines` counts over the same lines, and the AST facts are the parser's or none when it fails; comment lines never exceed lines, so the comment ratio is at most 1 |
| Preprocessing.ExtractCodeStructureInfo | data_processing/data_load_process/preprocessing.py:63-136 | the line-by-line counting loop returns exactly the summary `StructureInfoOf` specifies |
| Preprocessing.OriginalLength | data_processing/data_load_process/preprocessing.py:147-149 | the length of a string cell, 0 for anything else |
| Preprocessing.Annotate | data_processing/data_load_process/preprocessing.py:147-149 | every row keeps its label and columns and gains `original_content_length` of its own content |
| Preprocessing.PreprocessRule1 | data_processing/data_load_process/preprocessing.py:142-154 | fails exactly when there is no `content` column; otherwise its records are exactly those the content mask keeps, in order and relabelled 0..n-1: only rows with non-empty string content, and every such row |
| Preprocessing.Rule1KeepsEveryRow | data_processing/data_load_process/preprocessing.py:146-152 | one kept row per row with non-empty string content, duplicates included: the j-th kept record is the annotated record at the j-th such position |
| Preprocessing.KeptRows | data_processing/data_load_process/preprocessing.py:152 | the content mask keeps every row with non-empty string content, and each kept row's length is that of its non-empty string |
| Preprocessing.Rule1EmptyWithoutCode | data_processing/data_load_process/preprocessing.py:152 | with no non-empty string content anywhere, stage 1 returns an empty table |
| Preprocessing.DropDuplicates | data_processing/data_load_process/preprocessing.py:162 | the kept rows are a subsequence of the input with pairwise distinct contents, none of them already taken |
| Preprocessing.DropDuplicatesKeepsFirst | data_processing/data_load_process/preprocessing.py:162 | the first row of every content not already taken is kept |
| Preprocessing.DropDuplicatesOfDistinct | data_processing/data_load_process/preprocessing.py:162 | a table with distinct contents comes back unchanged |
| Preprocessing.EnrichAll | data_processing/data_load_process/preprocessing.py:166-190 | every row gets the measurements of its own content, the stage 1 records stay as they were, and labels become 0..n-1 |
| Preprocessing.PreprocessRule2 | data_processing/data_load_process/preprocessing.py:160-197 | the result is labelled 0..n-1 |
| Preprocessing.PreprocessRule2Order | data_processing/data_load_process/preprocessing.py:160-197 | stage 2 keeps at most its input rows, in their original order |
| Preprocessing.PreprocessRule2Distinct | data_processing/data_load_process/preprocessing.py:162 | no two rows stage 2 keeps share a content |
| Preprocessing.PreprocessRule2Measured | data_processing/data_load_process/preprocessing.py:166-194 | every kept row carries the measurements of its own content, and its comment-stripped length is at least `min_len` |
| Preprocessing.PreprocessRule2KeepsFirst | data_processing/data_load_process/preprocessing.py:162-194 | the first row of every content that is long enough after comment removal survives stage 2 |
| Preprocessing.Rule2OutputLong | data_processing/data_load_process/preprocessing.py:194 | every row stage 2 keeps passes the length floor |
| Preprocessing.Rule2OutputEnriched | data_processing/data_load_process/preprocessing.py:166-190 | measuring stage 2's rows again gives the same rows |
| Preprocessing.Rule2Idempotent | data_processing/data_load_process/preprocessing.py:160-197 | running stage 2 on its own output changes nothing |
| MlValidation.WithoutColumn | data_processing/data_load_process/ml_validation.py:25 | dropping the anomaly column removes only that pass-through column and leaves the content, measurements and rule label unchanged |
| MlValidation.DropColumn | data_processing/data_load_process/ml_validation.py:25 | every row keeps its label and loses only the named column |
| MlValidation.PruneFeatures | data_processing/data_load_process/ml_validation.py:12-16 | the `remove`-while-iterating loop leaves exactly the list `Pruned` describes, and at least half of the list, rounded up, survives |
| MlValidation.PruneAt | data_processing/data_load_process/ml_validation.py:13-16 | one turn: a present feature stays, a missing one is deleted at the iterator's position, and what is left to prune is unchanged |
| MlValidation.PrunedFromEnd | data_processing/data_load_process/ml_validation.py:12 | once the iterator passes the end, the list is final |
| MlValidation.PruneStep | data_processing/data_load_process/ml_validation.py:16 | deleting the current element and moving on skips the element that shifted into its place |
| MlValidation.PrunedKeepsHalf | data_processing/data_load_process/ml_validation.py:12-20 | at least half of the features survive pruning, so a list of two or more never becomes empty and the `if not features` branch is unreachable for the four features |
| MlValidation.PrunedKeepsMissingColumns | data_processing/data_load_process/ml_validation.py:9-16 | with none of the four features present, `cyclomatic_complexity` and `comment_ratio` survive pruning |
| MlValidation.PresentFeatures | data_processing/data_load_process/ml_validation.py:11-16 | the intended pruning: a feature is kept exactly when the table has it, in the original order |
| MlValidation.PrunedOnFullSchema | data_processing/data_load_process/ml_validation.py:11-16 | with every feature present, pruning as written and the intended selection both keep the whole list |
| MlValidation.FeatureMatrix | data_processing/data_load_process/ml_validation.py:24 | one feature line per row |
| MlValidation.Verdicts | data_processing/data_load_process/ml_validation.py:24-25 | one keep flag per row |
| MlValidation.OutlierFilter | data_processing/data_load_process/ml_validation.py:18-27 | raises `KeyError` exactly when a feature is missing, and `ValueError` exactly when there are features but fewer rows than the detector needs; with no features returns the table unchanged; otherwise returns, relabelled 0..k-1, exactly the rows at the positions with verdict 1, in order, each without the anomaly column |
| MlValidation.IsolationFilter | data_processing/data_load_process/ml_validation.py:7-27 | never grows the table, relabels 0..k-1, leaves no `anomaly_iso` column; with the four features present it succeeds exactly when the table has a row, and otherwise raises `ValueError` |
| MlValidation.LofFilter | data_processing/data_load_process/ml_validation.py:30-50 | never grows the table, relabels 0..k-1, leaves no `anomaly_lof` column; with the four features present it succeeds exactly when the table has at least two rows, and otherwise raises `ValueError` |
| MlValidation.OutlierFilterOrigin | data_processing/data_load_process/ml_validation.py:23-25 | every row a filter returns is one of its input rows, up to the anomaly column |
| MlValidation.IsolationFilterOrigin | data_processing/data_load_process/ml_validation.py:7-27 | every row the isolation filter returns comes from its input |
| MlValidation.LofFilterOrigin | data_processing/data_load_process/ml_validation.py:30-50 | every row the LOF filter returns comes from its input |
| MlValidation.FiltersKeepAll | data_processing/data_load_process/ml_validation.py:22-27 | a detector that accepts every row, on a table with enough rows for it, makes each filter only drop its anomaly column and relabel |
| Pipeline.WithLabel | data_processing/data_load_process/pipeline.py:103-104 | every row keeps its label and record and gets the given `label` value |
| Pipeline.UnlabelledWithLabel | data_processing/data_load_process/pipeline.py:103-104 | adding the `label` column and taking it off again gives the rows back |
| Pipeline.RuleSplitLabels | data_processing/data_load_process/pipeline.py:92-104 | every good row is labelled 1 and no rule flags it; every bad row is labelled 0 and some rule flags it |
| Pipeline.RuleSplitPartition | data_processing/data_load_process/pipeline.py:99-100 | the good and bad parts together are the table, every row exactly once |
| Pipeline.RuleSplitOrder | data_processing/data_load_process/pipeline.py:99-100 | both parts keep the table's order and labels |
| Pipeline.LengthRuleRedundant | data_processing/data_load_process/pipeline.py:81-97 | on the stage 2 table a row is bad exactly when one of the other three rules flags it: the length rule never decides |
| Pipeline.StripAnomalyColumns | data_processing/data_load_process/pipeline.py:140-148 | each row keeps its label and snippet and loses only the two anomaly columns |
| Pipeline.BadDataCleaned | data_processing/data_load_process/pipeline.py:137-148 | the collection has as many rows as the three tables together and is labelled 0..n-1 |
| Pipeline.BadDataCleanedParts | data_processing/data_load_process/pipeline.py:137 | the bad rows come first, then the isolation removals, then the LOF removals, each snippet in its own position |
| Pipeline.CleanedSameSnippets | data_processing/data_load_process/pipeline.py:137-148 | relabelling and dropping the anomaly columns keeps every snippet in its position |
| Pipeline.Classify | data_processing/data_load_process/pipeline.py:92-148 | with the four features present it succeeds exactly when there is a rule-good row and at least two rows pass the isolation forest, and otherwise raises `ValueError`; the final good table is no larger than the rule-good part and is labelled 0..n-1; the bad collection is the bad part plus both removal tables |
| Pipeline.ClassifyFailsOnOneGoodRow | data_processing/data_load_process/pipeline.py:114-119 | with a single rule-good row the LOF step is given at most one row and the run raises `ValueError` |
| Pipeline.AllGoodThroughFilters | data_processing/data_load_process/pipeline.py:115-119 | rows that pass either filter are still rule-good and labelled 1 |
| Pipeline.StripKeepsGood | data_processing/data_load_process/pipeline.py:140-143 | dropping the anomaly columns keeps rows good and leaves neither anomaly column behind |
| Pipeline.FinalGoodIsGood | data_processing/data_load_process/pipeline.py:99-143 | every row that reaches the good collection is rule-good, labelled 1, and has no anomaly column |
| Pipeline.RemovedByLabelIsTail | data_processing/data_load_process/pipeline.py:116-120 | when both tables are labelled 0, 1, ..., the rows reported removed are the last ones by position, whatever the detector rejected |
| Pipeline.SplitExample | data_processing/data_load_process/pipeline.py:99-104 | in a three-row table whose first row is rule-bad, the good part keeps labels 1 and 2 |
| Pipeline.IsoKeepsAllExample | data_processing/data_load_process/ml_validation.py:22-27 | with detectors that accept every row, the two good rows labelled 1 and 2 come back labelled 0 and 1, so the row labelled 2 counts as removed |
| Pipeline.IsoRemovedMislabels | data_processing/data_load_process/pipeline.py:115-120 | in the example the isolation step rejects nothing, yet the row labelled 2 is reported removed, so it lands in both the good and the bad collection |
| Pipeline.SplitByVerdict | data_processing/data_load_process/ml_validation.py:18-25 | raises exactly when there are features but fewer rows than the detector needs; otherwise the kept and rejected rows are two subsequences of the input, with their labels, whose sizes add up to it |
| Pipeline.SplitByVerdictPartition | data_processing/data_load_process/ml_validation.py:24-25 | when the split succeeds, kept and rejected rows together are the input, every row exactly once |
| Pipeline.SplitKeepsAsManyAsFilter | data_processing/data_load_process/ml_validation.py:18-27 | on the full schema the split succeeds exactly when the filter does, and keeps as many rows as the filter returns |
| Pipeline.ClassifyCorrected | data_processing/data_load_process/pipeline.py:115-137 | raises exactly where the pipeline as written raises; otherwise the final good rows and the two removal tables together are exactly as many as the rule-good rows, and both stored tables are labelled 0..n-1 |
| Pipeline.ClassifyCorrectedPartition | data_processing/data_load_process/pipeline.py:115-137 | when it succeeds, every rule-good row ends in exactly one of the final good table, the isolation removals or the LOF removals, and the removals are the rows each detector rejected |
| Pipeline.RunPipeline | data_processing/data_load_process/pipeline.py:48-176 | a load that `df.empty` calls empty (no rows, or no columns, as when every document holds only `_id`) stops the run; any other load without a `content` column raises; with that column the only error is `ValueError` from a detector given too few rows |
| Pipeline.RunPipelineRaisesOnOneGoodRow | data_processing/data_load_process/pipeline.py:114-119 | a run whose stage 2 table has exactly one rule-good row raises `ValueError` |
| Pipeline.RunPipelineStopsWithoutCode | data_processing/data_load_process/pipeline.py:74-77 | a table with no non-empty string of code stops after stage 1 |
| Pipeline.Chunks | data_processing/data_load_process/pipeline.py:24-32 | there are `(len + size - 1) // size` chunks |
| Pipeline.ChunkCountCovers | data_processing/data_load_process/pipeline.py:24 | the chunks together cover every row |
| Pipeline.ChunkStartInside | data_processing/data_load_process/pipeline.py:29-31 | every chunk starts inside the table, so none is empty |
| Pipeline.ChunksSized | data_processing/data_load_process/pipeline.py:29-34 | every chunk holds between 1 and `chunk_size` rows |
| Pipeline.ChunkStep | data_processing/data_load_process/pipeline.py:30-32 | chunk k continues exactly where the rows before it end |
| Pipeline.ChunksPrefix | data_processing/data_load_process/pipeline.py:29-32 | the first j chunks are the first j * size rows |
| Pipeline.ChunksFlatten | data_processing/data_load_process/pipeline.py:29-41 | the chunks written in order are the whole table |
| Pipeline.JsonlFile.constructor | data_processing/data_load_process/pipeline.py:22 | a file handle that exists or not and has had nothing appended |
| Pipeline.JsonlFile.AppendInChunks | data_processing/data_load_process/pipeline.py:12-44 | appends exactly the chunks in order, so the file gains exactly the table's records; the saved count is the table's length; the file exists afterwards exactly when it did or something was written |
| Pipeline.SaveOutcome | data_processing/data_load_process/pipeline.py:158-171 | the good file gains the final good records and the bad file the bad collection, in that order when both paths name the same file; a file exists afterwards exactly when it did before or something was appended to it, so an empty good table and an empty bad collection create nothing |
| EnterRemove.NewlineRun | prompt_processing/enter_remove.py:26 | the length of the maximal run of newlines the text starts with |
| EnterRemove.CollapseNewlines | prompt_processing/enter_remove.py:26 | the substitution never lengthens the text and keeps its first and last characters |
| EnterRemove.CollapseNoTriple | prompt_processing/enter_remove.py:24-26 | after the substitution no three newlines stand in a row |
| EnterRemove.CollapseFixed | prompt_processing/enter_remove.py:26 | a text without three newlines in a row is left unchanged |
| EnterRemove.ShortRun | prompt_processing/enter_remove.py:26 | in such a text a leading run of newlines is at most two long and the rest keeps the property |
| EnterRemove.RunSplit | prompt_processing/enter_remove.py:26 | a leading run of one or two newlines followed by the rest of the text |
| EnterRemove.Normalize | prompt_processing/enter_remove.py:14-28 | the result neither starts nor ends with whitespace, and it is empty exactly when the code is blank |
| EnterRemove.NormalizeNoTriple | prompt_processing/enter_remove.py:14-28 | normalised code never holds three newlines in a row, so no more than one blank line separates any two lines |
| EnterRemove.NormalizeIdempotent | prompt_processing/enter_remove.py:14-28 | normalising normalised code changes nothing |
| EnterRemove.DropNewlines | prompt_processing/enter_remove.py:26 | the text with every newline deleted holds no newline |
| EnterRemove.DropNewlinesAppend | prompt_processing/enter_remove.py:26 | deleting newlines distributes over concatenation |
| EnterRemove.DropNewlinesOfRun | prompt_processing/enter_remove.py:26 | a run of newlines disappears entirely |
| EnterRemove.CollapseKeepsText | prompt_processing/enter_remove.py:26 | the substitution only deletes newlines: every other character stays, in order |
| EnterRemove.CollapseRunText | prompt_processing/enter_remove.py:26 | what a leading run of newlines becomes holds no other character |
| EnterRemove.RunText | prompt_processing/enter_remove.py:26 | a leading run of newlines holds no other character |
| EnterRemove.NormalizeKeepsText | prompt_processing/enter_remove.py:14-28 | apart from newlines, the normalised code is exactly the stripped code |
| EnterRemove.RewriteMessage | prompt_processing/enter_remove.py:51-53 | rewriting succeeds exactly when the content is a string; then the content becomes its normalised form and every other key keeps its value |
| EnterRemove.FirstAssistant | prompt_processing/enter_remove.py:49-50 | the position of the first dict message with role `assistant` and a `content` key, or the end |
| EnterRemove.FirstAssistantIsFirst | prompt_processing/enter_remove.py:49-50 | no message before that position qualifies |
| EnterRemove.RewriteFlag | prompt_processing/enter_remove.py:48-55 | when the loop completes, it rewrote a message exactly when some assistant message has content, and otherwise the messages are unchanged |
| EnterRemove.RewriteOnlyFirstAssistant | prompt_processing/enter_remove.py:49-55 | only the first assistant message with content is rewritten, thanks to the `break`; every other message stays in place |
| EnterRemove.RewriteAtHead | prompt_processing/enter_remove.py:49-55 | an assistant message in first position is the one rewritten |
| EnterRemove.RewriteSkipsHead | prompt_processing/enter_remove.py:49-50 | a first message that is not the assistant's is passed over and kept |
| EnterRemove.ProcessRecord | prompt_processing/enter_remove.py:44-58 | a record in which nothing was normalised is written unchanged; in an object every key but `messages` keeps its value; when a block was normalised, the record had a `messages` list and `messages` becomes exactly that list with its first assistant message rewritten |
| EnterRemove.WrittenBounds | prompt_processing/enter_remove.py:43-58 | at most one record is written per line, and the count of normalised blocks never exceeds the records written |
| EnterRemove.WrittenAppend | prompt_processing/enter_remove.py:43-63 | the records written for two stretches of lines are those of each stretch, in input order |
| EnterRemove.WrittenOne | prompt_processing/enter_remove.py:44-63 | a line is written exactly when processing it raises nothing |
| EnterRemove.ProcessJsonlFile | prompt_processing/enter_remove.py:30-66 | a missing input file writes nothing; otherwise the loop writes exactly the processed records and counts exactly the normalised blocks |
| MoveImport.ImportIndices | move_import.py:5-6 | exactly the positions of the lines that, stripped, start with `import ` or `from `, in increasing order |
| MoveImport.Without | move_import.py:28 | dropping positions never lengthens the list |
| MoveImport.WithoutRun | move_import.py:28 | a run of positions not dropped is kept as it is |
| MoveImport.WithoutGap | move_import.py:28 | a dropped position followed by kept ones |
| MoveImport.WithoutNoneBefore | move_import.py:28 | with nothing dropped before a position, the lines up to it are kept |
| MoveImport.WithoutLast | move_import.py:28 | after the last dropped position every line is kept |
| MoveImport.WithoutFirst | move_import.py:28 | before the first dropped position every line is kept |
| MoveImport.WithoutOne | move_import.py:28 | dropping one position leaves the lines before and after it |
| MoveImport.WithoutTwo | move_import.py:28 | dropping two positions leaves the three runs around them, in order |
| MoveImport.MoveCount | move_import.py:15-19 | no line moves below three imports, one moves at exactly three, two from four on |
| MoveImport.MovePlan | move_import.py:15-28 | no plan exactly below three imports; otherwise the moved lines are the last one or two imports in order, and kept plus moved lines are as many as the prefix lines |
| MoveImport.MoveThree | move_import.py:19-28 | with three imports the last one moves and the prefix closes over its gap |
| MoveImport.MoveLastTwo | move_import.py:19-28 | with four or more imports the last two move in their order and every other line stays in order |
| MoveImport.MoveImports | move_import.py:13-25 | the plan exists exactly when the prefix holds three or more import lines, and every moved line is an import line |
| MoveImport.MoveKeepsLength | move_import.py:25-32 | no text is lost or created: kept and moved lines together are as long as the prefix |
| MoveImport.PlanKeepsLength | move_import.py:25-28 | the same for any plan |
| MoveImport.AdjustImports | move_import.py:8-34 | succeeds only on a dict with a string `prefix_code`, and never touches any key other than the three code fields |
| MoveImport.AdjustFewImports | move_import.py:15-16 | fewer than three imports in the prefix leave the sample unchanged |
| MoveImport.AdjustMoves | move_import.py:18-34 | with three or more imports the prefix keeps the other lines, the target is the moved lines before the old target, the suffix keeps its value or becomes "", and prefix plus target keep their total length |
| MoveImport.AdjustLine | move_import.py:43-48 | a line yields a sample only when it parses and adjusting it raises nothing |
| MoveImport.MissingPrefixDropped | move_import.py:9 | a sample that is not a dict or lacks `prefix_code` raises, and its line is left out |
| MoveImport.ProcessJsonl | move_import.py:36-53 | the loop collects exactly the adjusted samples of the lines that succeed, in input order |
| JsonlMerge.ReorderKeys | jsonl_merge.py:6-11 | exactly the three code keys in a fixed order, each with the record's value or "" when missing, and no other key |
| JsonlMerge.LineOutcome | jsonl_merge.py:20-30 | a blank line is skipped; a written text is the serialisation of the reordered decoded object; a decoded value that is not an object ends the merge |
| JsonlMerge.Outcomes | jsonl_merge.py:18-20 | one outcome per line |
| JsonlMerge.Step | jsonl_merge.py:31-33 | after the merge has ended nothing changes, and what was written stays written |
| JsonlMerge.MergeNoDuplicates | jsonl_merge.py:31-33 | no text is written twice |
| JsonlMerge.FirstOccurrences | jsonl_merge.py:30-33 | the first occurrences hold exactly the values of the input |
| JsonlMerge.FirstOccurrencesNoDuplicates | jsonl_merge.py:30-33 | the first occurrences repeat nothing |
| JsonlMerge.MergeKeepsFirst | jsonl_merge.py:13-33 | the written texts are exactly the first occurrence of each record text, in order of first appearance, up to the line that ends the merge; so they are a subsequence of the records' texts and each of those is written |
| JsonlMerge.MergeSound | jsonl_merge.py:30-33 | every written text is the text of some line's record |
| JsonlMerge.MergeComplete | jsonl_merge.py:30-33 | when the merge does not end early, every record's text is written |
| JsonlMerge.MergeAbortStays | jsonl_merge.py:26 | after a value that is not an object, nothing more is written |
| JsonlMerge.MergeSnoc | jsonl_merge.py:20-33 | one more line extends the merge by exactly one step |
| JsonlMerge.OutcomesAppend | jsonl_merge.py:18-20 | the outcomes of several files' lines are those of each file in turn |
| JsonlMerge.MergeLine | jsonl_merge.py:21-33 | one turn of the inner loop performs exactly one merge step and keeps `seen` equal to the set of written texts |
| JsonlMerge.MergeFile | jsonl_merge.py:19-33 | the loop over one file's lines extends the merge by that file's outcomes and keeps `seen` in step with the output |
| JsonlMerge.MergeJsonlUnique | jsonl_merge.py:13-35 | the loop over the files computes the merge of all lines of all files in order |
| LongFim.DefFlags | completion_processing/codetolongfim.py:14-17 | one flag per line |
| LongFim.StartsOf | completion_processing/codetolongfim.py:15-18 | the flagged positions in increasing order, then the length; every flagged position is among them |
| LongFim.SectionStarts | completion_processing/codetolongfim.py:13-18 | the def/class line positions in increasing order, ending with the number of lines |
| LongFim.SectionStartsAreDefs | completion_processing/codetolongfim.py:13-18 | the starts before the end are exactly the lines the def/class pattern matches |
| LongFim.WindowsTile | completion_processing/codetolongfim.py:27-28 | the windows of a section are non-empty, in order, cover it with no gap or overlap, and hold at most `max_lines_per_chunk` lines each |
| LongFim.TilesWithin | completion_processing/codetolongfim.py:27-28 | tiling windows lie inside the range they tile |
| LongFim.TilesAppend | completion_processing/codetolongfim.py:21-28 | the tilings of two adjacent ranges tile their union |
| LongFim.SectionSpansTile | completion_processing/codetolongfim.py:21-28 | the windows of all sections tile the code from the first section start to the end, each bounded by the chunk size |
| LongFim.SectionSpansInside | completion_processing/codetolongfim.py:21-28 | every window lies inside one section |
| LongFim.SliceInRange | completion_processing/codetolongfim.py:24 | within bounds, a Python slice is the subsequence |
| LongFim.SliceClamped | completion_processing/codetolongfim.py:28 | a slice bound past the end stops at the end |
| LongFim.PiecesAppend | completion_processing/codetolongfim.py:27-31 | the kept pieces of two runs of windows are those of each run in turn |
| LongFim.AllTrimmedAppend | completion_processing/codetolongfim.py:29-31 | trimmed chunks stay trimmed when concatenated |
| LongFim.PieceListTrimmed | completion_processing/codetolongfim.py:29-31 | a window's chunk is kept only when non-blank and is stripped |
| LongFim.PiecesTrimmed | completion_processing/codetolongfim.py:27-31 | every kept window chunk is non-blank and has no whitespace at either end |
| LongFim.ChunksTrimmed | completion_processing/codetolongfim.py:5-46 | no chunk is blank and none has whitespace at either end |
| LongFim.WholeChunkTrimmed | completion_processing/codetolongfim.py:41-44 | the whole-code chunk is trimmed |
| LongFim.SectionChunksTrimmed | completion_processing/codetolongfim.py:20-38 | the chunks of a code with sections are trimmed |
| LongFim.HeaderChunksTrimmed | completion_processing/codetolongfim.py:34-38 | a header chunk before the sections is trimmed |
| LongFim.BodyChunksTrimmed | completion_processing/codetolongfim.py:20-31 | the section chunks without a header are trimmed |
| LongFim.SectionsOfFlags | completion_processing/codetolongfim.py:13-28 | the section windows tile the positions from the first flag to the end, are bounded, and no flagged position lies strictly inside a window |
| LongFim.NotBetween | completion_processing/codetolongfim.py:21-23 | a position strictly between two consecutive starts is not a start |
| LongFim.NoFlagInside | completion_processing/codetolongfim.py:21-28 | windows inside sections contain no flagged position except at their first line |
| LongFim.SectionsOfCode | completion_processing/codetolongfim.py:13-28 | the windows tile the lines from the first def/class line on, each at most `max_lines_per_chunk` lines, and no def/class line lies strictly inside a window |
| LongFim.ChunksWithSections | completion_processing/codetolongfim.py:20-38 | with def/class lines, the chunks are the header when non-blank, then the non-blank windows of every section in order |
| LongFim.ChunksWithoutSections | completion_processing/codetolongfim.py:40-46 | without def/class lines, the chunks are the whole stripped code when non-blank, else nothing |
| LongFim.FindSectionStarts | completion_processing/codetolongfim.py:13-18 | the scanning loop returns exactly the section starts |
| LongFim.TakeWindow | completion_processing/codetolongfim.py:27-31 | one turn of the inner loop extends the chunks by the next window's non-blank piece |
| LongFim.WindowSlice | completion_processing/codetolongfim.py:24-28 | a window of the section's lines is the same window of the whole code |
| LongFim.PiecesOfWindows | completion_processing/codetolongfim.py:27-31 | a section's chunks are the first window's chunk, then those of the later windows |
| LongFim.AlignedStep | completion_processing/codetolongfim.py:27 | the window starts advance in steps of the chunk size |
| LongFim.WindowedSnoc | completion_processing/codetolongfim.py:27-31 | one more window adds its piece at the end |
| LongFim.WindowedStep | completion_processing/codetolongfim.py:27-31 | one turn of the inner loop yields the chunks of one more window |
| LongFim.WindowedStops | completion_processing/codetolongfim.py:27 | the loop stops once the window start passes the section's end |
| LongFim.WindowedPieces | completion_processing/codetolongfim.py:27-31 | walking the windows one at a time gives the pieces of all of them |
| LongFim.SectionChunks | completion_processing/codetolongfim.py:24-31 | the inner loop returns exactly the non-blank stripped windows of the section, in order |
| LongFim.CollectSectionChunks | completion_processing/codetolongfim.py:20-31 | the outer loop returns exactly the non-blank windows of every section, in order |
| LongFim.SplitCodeIntoFunctionChunks | completion_processing/codetolongfim.py:5-46 | the function returns exactly the chunks `FunctionChunks` describes |
| LongFim.FirstMatch | completion_processing/codetolongfim.py:84-97 | the first position at or after the start where the chunk's lines all match, or none if there is none |
| LongFim.MatchSplits | completion_processing/codetolongfim.py:103-104 | at a match, the lines before, the chunk's lines and the lines after make up the whole code |
| LongFim.Locate | completion_processing/codetolongfim.py:84-97 | the `while` scan finds exactly the first match at or after the position of the previous chunk |
| LongFim.ChunkStepMeaning | completion_processing/codetolongfim.py:80-119 | a chunk yields a sample exactly when it is found at or after the previous match with at least `min_prefix_suffix_lines` lines on each side; its prefix and suffix are the stripped lines around it, which with the chunk make up the whole code; a chunk not found leaves the scan where it was |
| LongFim.Scan | completion_processing/codetolongfim.py:78-119 | at most one sample per chunk |
| LongFim.ScanStep | completion_processing/codetolongfim.py:80-119 | one more chunk advances the scan by exactly one step |
| LongFim.ChunkSample | completion_processing/codetolongfim.py:80-119 | the loop body computes exactly one scan step |
| LongFim.EmitSamples | completion_processing/codetolongfim.py:78-119 | the `for chunk in chunks` loop emits exactly the samples `Emitted` describes |
| LongFim.LineSamplesBound | completion_processing/codetolongfim.py:72-74 | with `random.sample` drawing `max_chunks_per_file` chunks, a line yields at most `max_chunks_per_file` samples |
| LongFim.FileSamplesBound | completion_processing/codetolongfim.py:59-126 | a file yields at most `max_chunks_per_file` samples per line |
| LongFim.ConvertLine | completion_processing/codetolongfim.py:59-126 | one input line yields exactly its samples, and nothing when it fails to parse, has blank content or raises |
| LongFim.ConvertJsonlToFim | completion_processing/codetolongfim.py:48-126 | the file loop writes the samples of every line in order |
| ShortFim.RangeOf | completion_processing/codetoshortfim.py:19-23 | a statement's range starts at its `lineno` and ends at its `end_lineno`, or at its start when the end is missing |
| ShortFim.Candidate | completion_processing/codetoshortfim.py:33-60 | a statement yields a sample only when both its prefix and its suffix are non-blank |
| ShortFim.Candidates | completion_processing/codetoshortfim.py:33-60 | one candidate per statement, in statement order |
| ShortFim.Ranges | completion_processing/codetoshortfim.py:17-23 | one range per top-level statement, in order |
| ShortFim.Targets | completion_processing/codetoshortfim.py:25-31 | each target is the text of its statement's lines |
| ShortFim.LastNodeSkipped | completion_processing/codetoshortfim.py:46-54 | the last statement has an empty suffix, so it never yields a sample |
| ShortFim.KeptMembers | completion_processing/codetoshortfim.py:33-60 | the samples are exactly the candidates that were not dropped |
| ShortFim.LargerChunksShape | completion_processing/codetoshortfim.py:4-62 | on a syntax error the whole code is the one target with empty prefix and suffix; otherwise there are at most one fewer samples than statements, each with non-blank prefix and suffix |
| ShortFim.LaterNodeSample | completion_processing/codetoshortfim.py:41-60 | a statement after the first yields a sample exactly when it is not the last, the previous statement's text is not blank and the first `min_suffix_lines` lines of the next are not blank; the sample is those three texts |
| ShortFim.HeadWindowUseless | completion_processing/codetoshortfim.py:38-40 | the fallback window lies inside the blank head, so it is blank too and never rescues the first statement |
| ShortFim.FirstPrefixBlank | completion_processing/codetoshortfim.py:37-40 | the first statement's prefix is blank exactly when the text before it is |
| ShortFim.NodeRanges | completion_processing/codetoshortfim.py:17-23 | the `for node in tree.body` loop collects exactly the statements' ranges |
| ShortFim.TargetTexts | completion_processing/codetoshortfim.py:25-31 | the loop collects exactly the statements' texts |
| ShortFim.ExtractLargerChunks | completion_processing/codetoshortfim.py:4-62 | the function returns exactly the samples `LargerChunks` describes |
| ShortFim.LineChunks | completion_processing/codetoshortfim.py:67-77 | a blank line writes nothing |
| ShortFim.FileChunksSound | completion_processing/codetoshortfim.py:64-77 | nothing written has a blank prefix or suffix unless it is the whole code of a file that does not parse |
| ShortFim.ProcessJsonlWithLargerChunks | completion_processing/codetoshortfim.py:64-77 | the line loop writes exactly the chunks of every line in order, up to the first line that raises |
| ShortFim.FileChunksSnoc | completion_processing/codetoshortfim.py:67-77 | one more line appends its chunks, or ends the run when it raises |
| ShortFim.FileChunksAbortStays | completion_processing/codetoshortfim.py:70-71 | once a line has raised, later lines change nothing |
| Fim.TargetOf | completion_processing/reformat_fim_data_for_training.py:37-42 | the text before the final end-of-text token, found exactly when the string ends with that token |
| Fim.SuffixAndTarget | completion_processing/reformat_fim_data_for_training.py:37-42 | a split at the first end tag that reassembles into the text it came from |
| Fim.AfterStart | completion_processing/reformat_fim_data_for_training.py:37-42 | a split at the first hole tag whose parts reassemble into the text |
| Fim.Disassemble | completion_processing/reformat_fim_data_for_training.py:37-42 | whatever is recovered from a FIM string assembles back into that string |
| Fim.DisassembleAssemble | completion_processing/reformat_fim_data_for_training.py:36-42 | a sample whose prefix holds no hole tag and whose suffix holds no end tag is recovered from its assembled string |
| Chat.MessagesJson | completion_processing/reformat_fim_data_for_training.py:63-68 | a record whose only key is `messages` |
| FimReformat.CodeField | completion_processing/reformat_fim_data_for_training.py:31-33 | a missing column reads as "", a string column as itself; any other value makes the concatenation raise |
| FimReformat.SampleOf | completion_processing/reformat_fim_data_for_training.py:31-42 | the three code columns are read exactly when each is a string or missing |
| FimReformat.MissingColumnsEmpty | completion_processing/reformat_fim_data_for_training.py:31-33 | a record without the three columns gives the empty sample |
| FimReformat.FencedCode | completion_processing/reformat_fim_data_for_training.py:55-58 | a cut of the assistant turn that puts it back together: answer heading, fence, code, closing fence |
| FimReformat.AssistantRecovers | completion_processing/reformat_fim_data_for_training.py:37-58 | the assistant turn carries the whole sample: the code inside its fence disassembles back to prefix, target and suffix |
| FimReformat.UserFillsHole | completion_processing/reformat_fim_data_for_training.py:45-52 | the user turn is the code with the target cut out: putting the target back at the marker gives prefix, target and suffix in order |
| FimReformat.Convert | completion_processing/reformat_fim_data_for_training.py:27-85 | a line converts exactly when it decodes to an object whose code columns are strings or missing; the result holds only `messages`, and is the training conversation built from that object's prefix, target and suffix |
| FimReformat.Outcomes | completion_processing/reformat_fim_data_for_training.py:26-85 | one outcome per line, each the line's own conversion |
| FimReformat.ConvertedMeaning | completion_processing/reformat_fim_data_for_training.py:21-91 | at most one record per line; a record is output exactly when some line converts to it; with no line skipped, record i comes from line i |
| FimReformat.ConvertLines | completion_processing/reformat_fim_data_for_training.py:24-89 | the `for line in infile` loop collects exactly the converted records in order |
| CommentPairs.CheckAllowedText | comment_processing/comment.py:22-39 | the character loop with its early `return False` decides exactly `is_allowed_text`: a string all of whose characters are ASCII or a FIM tag character |
| CommentPairs.AllowedTextMeaning | comment_processing/comment.py:31-38 | since `<` and `>` are ASCII, a string is allowed exactly when it is ASCII apart from U+FF5C |
| CommentPairs.RStripKeeps | comment_processing/comment.py:50 | stripping keeps every character up to the last non-whitespace one |
| CommentPairs.SystemPromptDefaultRole | comment_processing/comment.py:41-50 | the system prompt has no whitespace at either end, and without a `role_context` it starts with the default role sentence |
| CommentPairs.JoinedKeepsHead | comment_processing/comment.py:45-50 | the joined and stripped fields start with a first field that has no whitespace at its ends |
| CommentPairs.NoteMeaning | comment_processing/comment.py:85-122 | no note exactly when no marker is present; otherwise the note of one of the four markers, never blank |
| CommentPairs.UserPromptRecovers | comment_processing/comment.py:78-83 | the user turn can be read back: after the instruction and begin tag, the text up to the first hole tag is the prefix, then come the suffix and the end tag |
| CommentPairs.SnippetLines | comment_processing/comment.py:62 | splitting the stripped snippet always gives at least one line |
| CommentPairs.ConversationPair | comment_processing/comment.py:56-124 | no conversation exactly when the stripped snippet has fewer than three lines |
| CommentPairs.CutCovers | comment_processing/comment.py:67-72 | prefix, middle and suffix lines cover the lines in order, and each gets at least one line |
| CommentPairs.FillHoleRoundTrip | comment_processing/comment.py:62-76 | prefix, middle and suffix joined by newlines give back the stripped snippet |
| CommentPairs.Cut | comment_processing/comment.py:67-68 | the two `randint` draws satisfy `1 <= start <= end <= len(lines) - 2` |
| CommentPairs.RecordOf | comment_processing/comment.py:184-193 | a record is written exactly when the answer is not blank, and it is a system, user, assistant conversation carrying that answer |
| CommentPairs.Attempt | comment_processing/comment.py:175-193 | a turn that writes writes a system, user, assistant conversation with a non-blank answer |
| CommentPairs.Attempts | comment_processing/comment.py:175-199 | one outcome per draw |
| CommentPairs.GeneratedMeaning | comment_processing/comment.py:172-199 | the written records are the first `target_count` successful turns, or all of them if fewer succeed, each well formed |
| CommentPairs.GenerateRecords | comment_processing/comment.py:172-199 | the `while` loop writes exactly the records `Generated` describes |
| CommentPairs.SnippetOf | comment_processing/comment.py:137-143 | a line contributes at most one snippet, and that snippet is non-empty, parses and has only allowed characters; a line whose content is a string contributes exactly that string when it is non-empty, parses and is allowed, and nothing otherwise |
| CommentPairs.LoadableContents | comment_processing/comment.py:136-141 | the non-empty, parsing, allowed content strings of the lines, in line order: each one present and nothing else |
| CommentPairs.SnippetKept | comment_processing/comment.py:140-141 | every snippet a line contributes is non-empty, parses and has only allowed characters |
| CommentPairs.SnippetOuts | comment_processing/comment.py:136-143 | one contribution per line |
| CommentPairs.SnippetsMeaning | comment_processing/comment.py:133-150 | loading fails exactly when some line raises outside the inner `try`; otherwise every loaded snippet is a non-empty, parsing, allowed string, and the loaded snippets are exactly the loadable contents in line order |
| CommentPairs.SnippetsInOrder | comment_processing/comment.py:136-141 | successful loading keeps every loadable content string, in line order, and nothing else |
| CommentPairs.SnippetsSnoc | comment_processing/comment.py:136-141 | loading one more line appends what that line contributes |
| CommentPairs.AllowedPersonas | comment_processing/comment.py:153-160 | every kept persona has only allowed values, every allowed persona is kept, none is added |
| CommentPairs.Dataset | comment_processing/comment.py:127-201 | never more than `target_count` records |
| CommentPairs.LoadSnippets | comment_processing/comment.py:133-150 | the loading loop returns exactly `Snippets`, stopping at the first line that raises |
| CommentPairs.FilterPersonas | comment_processing/comment.py:153-160 | the persona loop keeps exactly the allowed personas |
| CommentPairs.GenerateCompletedDataset | comment_processing/comment.py:127-201 | the whole function returns exactly `Dataset` |
| PromptScenarios.InjectableLines | prompt.py:59 | exactly the indices of the lines that are neither blank nor comments |
| PromptScenarios.Typo | prompt.py:78 | the word with its last character written twice: one longer, same prefix |
| PromptScenarios.TypoLine | prompt.py:72-85 | a typo line always comes with a real error message |
| PromptScenarios.CorruptLine | prompt.py:69-94 | a rewritten line always comes with a real error message |
| PromptScenarios.CorruptLines | prompt.py:66-108 | a corrupted line list always comes with a real error message |
| PromptScenarios.InjectRandomError | prompt.py:44-120 | the "no error" answer leaves the code untouched, and code without lines or without an injectable line always gets it |
| PromptScenarios.LineErrorOnlyLine | prompt.py:66-94 | the indentation, typo and colon errors change the chosen line and leave every other line as it was |
| PromptScenarios.IndentationLine | prompt.py:69-71 | the indentation error always applies and keeps the line's text after its leading blanks |
| PromptScenarios.TypoVarWords | prompt.py:72-85 | the typo applies exactly under the word-count, def/class and length conditions, and only the chosen word changes |
| PromptScenarios.TypoIsWord | prompt.py:78-80 | a misspelt word is still a single word, so re-splitting the line keeps the word count |
| PromptScenarios.MissingColonLine | prompt.py:86-94 | the colon error applies exactly to a loop, branch or definition head holding a colon, and removes only its first colon |
| PromptScenarios.UndeclaredVarInsert | prompt.py:104-108 | the undeclared-variable error inserts exactly one line, and removing it gives the original lines |
| PromptScenarios.HeadPartsCover | prompt.py:160-179 | for a function or class unit, prefix, hole and suffix put together are the head line and the body, and a short body is the whole hole |
| PromptScenarios.FimParts | prompt.py:156-193 | a produced hole is never empty |
| PromptScenarios.FimPartsMeaning | prompt.py:156-193 | no scenario exactly for fewer than three lines or a blank hole; otherwise every part is stripped |
| PromptScenarios.FimScenarioRecovers | prompt.py:195-206 | the assistant turn disassembles back to the prefix, hole and suffix when the prefix holds no hole token and the suffix no end token |
| PromptScenarios.FuncNameOfDef | prompt.py:140-141 | the name taken from a `def name(` line is that name |
| PromptScenarios.ErrorFixScenario | prompt.py:123-135 | a conversation exists only when an error was injected, and its answer is the original unit |
| PromptScenarios.Picks | prompt.py:282-284 | the two sampled units are at two different positions of the unit list |
| PromptScenarios.FimPart | prompt.py:265-269 | at most one FIM scenario per unit |
| PromptScenarios.ErrorPart | prompt.py:272-276 | at most one error fix per unit, and it is about that unit |
| PromptScenarios.Compose | prompt.py:137-152 | the composition names each function after its own `def` line and carries both codes |
| PromptScenarios.ComplexPart | prompt.py:279-297 | at most one composition per unit, only of two different function units longer than five lines |
| PromptScenarios.UnitScenariosCounts | prompt.py:261-297 | a unit adds at most one scenario of each kind, and a blank unit none |
| PromptScenarios.UnitErrorFixes | prompt.py:271-276 | every error fix a unit adds is about that unit and carries an injected error |
| PromptScenarios.Outputs | prompt.py:261-297 | one part per unit, each being what that unit adds |
| PromptScenarios.CountsAddUp | prompt.py:308-310 | the three printed counters add up to the number of records written |
| PromptScenarios.AddUnit | prompt.py:261-297 | one loop turn appends that unit's scenarios and grows each counter by the number of its kind |
| PromptScenarios.GenerateFinetuningData | prompt.py:254-310 | the records written are every unit's scenarios in order, and the counters are the number of each kind, adding up to the total |
| FunctionPrompts.DecoratedStart | prompt_processing/anthropic_prompt_by_function_from_original_code.py:133-136 | the start line moves up to the earliest decorator above it and never below the node's own first line |
| FunctionPrompts.CodeIndents | prompt_processing/anthropic_prompt_by_function_from_original_code.py:142-145 | one entry per line: no indentation for a blank line, the leading-blank count otherwise |
| FunctionPrompts.MinSome | prompt_processing/anthropic_prompt_by_function_from_original_code.py:141-145 | no minimum exactly when every entry is absent; otherwise the least present entry, attained by one of them |
| FunctionPrompts.MinIndentMeaning | prompt_processing/anthropic_prompt_by_function_from_original_code.py:141-148 | no minimum exactly when every covered line is blank; otherwise at most every non-blank line's indentation and equal to one of them |
| FunctionPrompts.Dedent | prompt_processing/anthropic_prompt_by_function_from_original_code.py:150 | every line loses its first `min_indent` characters, and the line count stays |
| FunctionPrompts.DedentMeaning | prompt_processing/anthropic_prompt_by_function_from_original_code.py:141-150 | dedenting removes only blanks from each non-blank line, and some line then starts at column 0 |
| FunctionPrompts.NodeSourceEmpty | prompt_processing/anthropic_prompt_by_function_from_original_code.py:122-151 | the empty string for a node without line numbers, and otherwise a blank result exactly when every covered line is blank |
| FunctionPrompts.DedentedNotBlank | prompt_processing/anthropic_prompt_by_function_from_original_code.py:147-150 | once a minimum exists, the joined node source is not blank |
| FunctionPrompts.EarliestDecorated | prompt_processing/anthropic_prompt_by_function_from_original_code.py:130-136 | the decorator loop computes the decorated start line |
| FunctionPrompts.SmallestIndent | prompt_processing/anthropic_prompt_by_function_from_original_code.py:141-145 | the indentation loop computes the smallest indentation of the non-blank lines |
| FunctionPrompts.GetNodeSource | prompt_processing/anthropic_prompt_by_function_from_original_code.py:122-151 | the dedented source of the node's lines, as the node-source function defines it |
| FunctionPrompts.ChunkKeptMeaning | prompt_processing/anthropic_prompt_by_function_from_original_code.py:236-251 | a chunk is kept exactly when it is not blank, not a shebang or encoding line, not short without a code head and not a lone triple quote; it is kept stripped |
| FunctionPrompts.LoneQuoteAlreadySkipped | prompt_processing/anthropic_prompt_by_function_from_original_code.py:241-249 | the lone-triple-quote test never decides anything: the short-chunk test has already skipped such a chunk |
| FunctionPrompts.FilteredChunksMeaning | prompt_processing/anthropic_prompt_by_function_from_original_code.py:235-251 | the filtered chunks are the kept chunks in order, never more than the chunks, each stripped, non-blank, no preamble and no lone quote |
| FunctionPrompts.FilterChunks | prompt_processing/anthropic_prompt_by_function_from_original_code.py:235-251 | the filter loop builds exactly the kept chunks in order |
| FunctionPrompts.SplitCodeMeaning | prompt_processing/anthropic_prompt_by_function_from_original_code.py:154-172 | no chunk exactly for blank code or a syntax error; otherwise the filtered chunks, or the stripped code alone when none survives |
| FunctionPrompts.ChunkEntryMeaning | prompt_processing/anthropic_prompt_by_function_from_original_code.py:300-335 | a blank or licence chunk yields no record; a record pairs a non-empty stripped request with the stripped chunk, within 6000 characters together; every other chunk, with a non-empty request within the limit, yields that record |
| FunctionPrompts.ProcessCodeToEntries | prompt_processing/anthropic_prompt_by_function_from_original_code.py:291-337 | the chunk loop yields the records of the kept chunks, in chunk order |
| FunctionPrompts.CodeEntriesNone | prompt_processing/anthropic_prompt_by_function_from_original_code.py:296-303 | blank code or a syntax error yields no record |
| FunctionPrompts.VisitsMarked | prompt_processing/anthropic_prompt_by_function_from_original_code.py:398-421 | the processed set is the loaded ids plus the marked ones; no loaded id is marked, none twice |
| FunctionPrompts.VisitMarks | prompt_processing/anthropic_prompt_by_function_from_original_code.py:401-421 | a new document is marked exactly when it has no content or produced records, and its records join the output |
| FunctionPrompts.VisitsGrow | prompt_processing/anthropic_prompt_by_function_from_original_code.py:398-421 | an id once processed stays processed, and every document without content ends up processed |
| FunctionPrompts.VisitDocument | prompt_processing/anthropic_prompt_by_function_from_original_code.py:399-421 | one document moves the ids and the marks as the visit function says; it hands back no records when its id is already processed or it has no content, and otherwise exactly the records its content yields |
| FunctionPrompts.GenerateInstructions | prompt_processing/anthropic_prompt_by_function_from_original_code.py:393-441 | the ids and marks end as the visits say; the writes are the batches the batching function gives, then the remainder, so the buffer is checked only after documents that are not skipped; every record produced is written once and in order, in non-empty writes of which all but the last are full batches of 30 |
| FunctionPrompts.Batching | prompt_processing/anthropic_prompt_by_function_from_original_code.py:397-432 | the batches written inside the loop are all full |
| FunctionPrompts.BatchingCoversEntries | prompt_processing/anthropic_prompt_by_function_from_original_code.py:416-432 | the written batches followed by the buffer are exactly the records the visits produced, in order |
| WholeCodePrompts.WholeCodeEntry | prompt_processing/anthropic_prompt_by_whole_code.py:156-193 | at most one record per document |
| WholeCodePrompts.WholeCodeEntryMeaning | prompt_processing/anthropic_prompt_by_whole_code.py:156-193 | blank code or code over 60000 characters yields nothing without asking the model; otherwise a record exactly when the cleaned request is non-empty, pairing it with the stripped code |
| WholeCodePrompts.VisitsMarkAll | prompt_processing/anthropic_prompt_by_whole_code.py:253-285 | every document visited ends up processed, whatever its outcome; the processed set is the loaded ids plus the marked ones, each marked once and none loaded |
| WholeCodePrompts.VisitAddsOne | prompt_processing/anthropic_prompt_by_whole_code.py:258-285 | a new document keeps the output written so far and adds at most one record, none for blank content |
| WholeCodePrompts.VisitDocument | prompt_processing/anthropic_prompt_by_whole_code.py:254-285 | one document moves the ids and the marks as the visit function says; it hands back no records when its id is already processed or its content is blank, and otherwise the records of its content |
| WholeCodePrompts.GenerateWholeCodeInstructions | prompt_processing/anthropic_prompt_by_whole_code.py:248-305 | the ids and marks end as the visits say; the writes are the batches the batching function gives, then the remainder, so the buffer is checked only after documents that are not skipped; every record produced is written once and in order, in non-empty writes of which all but the last are full batches of 30 |
| WholeCodePrompts.Batching | prompt_processing/anthropic_prompt_by_whole_code.py:253-296 | the batches written inside the loop are all full |
| WholeCodePrompts.BatchingCoversEntries | prompt_processing/anthropic_prompt_by_whole_code.py:273-296 | the written batches followed by the buffer are exactly the records the visits produced, in order |
| CodeExtractor.BodyStart | prompt_processing/jsonl_code_extractor.py:15 | a body starts right after an opening fence, with or without the python tag |
| CodeExtractor.MatchAt | prompt_processing/jsonl_code_extractor.py:15 | a match found at a position is a fenced body starting after it |
| CodeExtractor.FirstFenceBlock | prompt_processing/jsonl_code_extractor.py:15 | the lazy body runs from its opening fence to the first closing fence after it |
| CodeExtractor.FindAll | prompt_processing/jsonl_code_extractor.py:15 | the matches are fenced bodies, left to right and not overlapping, and there are none exactly when no match starts anywhere |
| CodeExtractor.Bodies | prompt_processing/jsonl_code_extractor.py:15 | the text of each matched body, in order |
| CodeExtractor.ExtractCodeBlocksMeaning | prompt_processing/jsonl_code_extractor.py:10-16 | at least one block: the stripped text when nothing is fenced, otherwise the fenced bodies in order, none containing a fence |
| CodeExtractor.PlainMatch | prompt_processing/jsonl_code_extractor.py:15 | a body after a plain fence is matched up to its closing fence |
| CodeExtractor.FirstMatchFound | prompt_processing/jsonl_code_extractor.py:15-16 | when the first match starts at a position, the first block is its body |
| CodeExtractor.FindAllSkips | prompt_processing/jsonl_code_extractor.py:15 | the search finds nothing where no match starts |
| CodeExtractor.CodeRecords | prompt_processing/jsonl_code_extractor.py:28-29 | one `{"code": block}` record per block, in order |
| CodeExtractor.MessageCodesMeaning | prompt_processing/jsonl_code_extractor.py:25-29 | only an assistant message with string content adds records, one per block and at least one |
| CodeExtractor.Iterated | prompt_processing/jsonl_code_extractor.py:25 | iterating a list goes through its items |
| CodeExtractor.MessageOuts | prompt_processing/jsonl_code_extractor.py:25-29 | what each message adds, message by message |
| CodeExtractor.LineOuts | prompt_processing/jsonl_code_extractor.py:22-29 | what each line adds, line by line |
| CodeExtractor.MessageCodesShape | prompt_processing/jsonl_code_extractor.py:26-29 | every record a message adds is a code record |
| CodeExtractor.LineCodesShape | prompt_processing/jsonl_code_extractor.py:23-29 | every record a line adds is a code record |
| CodeExtractor.ExtractedCodesMeaning | prompt_processing/jsonl_code_extractor.py:18-34 | the run fails exactly when some line raises; otherwise everything written is a code record |
| CodeExtractor.AppendCodes | prompt_processing/jsonl_code_extractor.py:28-29 | the innermost loop appends one record per block, in order |
| CodeExtractor.ScanMessages | prompt_processing/jsonl_code_extractor.py:25-29 | the message loop gathers what each message adds, failing when one raises |
| CodeExtractor.LineRecords | prompt_processing/jsonl_code_extractor.py:23-29 | the body of the line loop yields what the line adds |
| CodeExtractor.ExtractCodesFromJsonl | prompt_processing/jsonl_code_extractor.py:18-34 | the records written are every line's records in order, or nothing when a line raised |
| Generation.LoadProcessedIds | prompt_processing/anthropic_prompt_by_function_from_original_code.py:351-365 | no file gives no ids; otherwise the ids are exactly the non-empty stripped lines |
| Generation.LoadedIdsStripped | prompt_processing/anthropic_prompt_by_function_from_original_code.py:358-361 | every loaded id is stripped, so a line naming it again adds nothing new |
| Generation.UnquoteStripped | prompt_processing/anthropic_prompt_by_function_from_original_code.py:285-288 | the cleaned reply has no surrounding whitespace and is never longer than the reply |
| Generation.UnquoteQuoted | prompt_processing/anthropic_prompt_by_function_from_original_code.py:285-288 | a quoted reply loses its quotes and only them |
| Generation.Remainder | prompt_processing/anthropic_prompt_by_function_from_original_code.py:435-440 | the final write carries exactly the buffer, and is left out when the buffer is empty |
| Generation.FlushFull | prompt_processing/anthropic_prompt_by_function_from_original_code.py:425-432 | a full buffer sends its first 30 records out as one batch and keeps the rest, and nothing is lost or reordered |
| Generation.Flushed | prompt_processing/anthropic_prompt_by_function_from_original_code.py:425-432 | the buffer check as a value: a batch is written exactly when the buffer holds 30 records or more, batches stay full, and nothing is lost or reordered |
| Generation.WritesShape | prompt_processing/anthropic_prompt_by_function_from_original_code.py:423-441 | the writes carry the records in order, none empty and all but the last full batches |

## Left out

- File, MongoDB and console I/O are not modelled. This covers opening, appending, `fsync`, tqdm, `print` and logging, and the `get_docs_sequentially` cursor. Files are sequences of lines, and the document stream is a sequence of `Doc` values.
- The scrapers under `crawlers/` and `error_processing/crawlers/`, `mongo_loader.py`, both `main.py` launchers, `merge_jsonl.py`, `extractcode.py`, `jsonl_pretty_dialogue_formatter.py` and `error코드 증강.py` are not part of this model. They are HTTP scraping, database loading, environment launching or line copying, with no curation logic.
- The language-model call `get_completion_from_anthropic` is a network call with retries. It is the `llm` parameter.
- The regular expressions of `clean_llm_response` are not modelled. `llm` returns the reply after them, and only the final quote strip and `strip()` are modelled (`Generation.Unquote`).
- The Python parser, radon's maintainability and complexity visitors, and the AST walks of the chunkers are parameters. So are the IsolationForest and LocalOutlierFactor detectors: their scoring, contamination, the clipping of `n_neighbors` to the row count, and float numerics are outside the model. Only the smallest table each one accepts is modelled, as `MlValidation.IsoMinRows` (one row) and `MlValidation.LofMinRows` (two rows); below it `fit_predict` raises `ValueError`.
- The AST walk in `split_code_into_chunks`, lines 173-233 of the function-level script, is the `collect` parameter. Only the filter and the fallback after it are modelled.
- `extract_top_level_functions_and_classes` and `load_codes_from_jsonl_content_field` of `prompt.py` are not modelled. `PromptScenarios.GenerateFinetuningData` takes the shuffled units directly.
- `create_error_fix_multi_turn` and `create_function_composition_multi_turn` fill fixed Korean message templates. `PromptScenarios.Scenario` keeps the values that fill them, not the message texts.
- `PromptScenarios.UnitErrorFixes`: covers the error fixes a unit adds. That a composition joins two composable units is stated only by `PromptScenarios.ComplexPart`, not carried over to a unit's whole output.
- `ast.parse` on the corrupted code in `inject_random_error` has no effect on the result and is left out.
- Every `random` call is a field of a draw value: `randint`, `choice`, `sample`, `shuffle` and `random() < ratio`.
- `CommentPairs.SystemPrompt`: a persona is modelled as a map from keys to strings. Persona values of other JSON types are not modelled, although the source turns them into text with `str()` in the allowed-persona filter and in the f-string of the system prompt. A `personas` entry that is not an object, on which `p.get` raises and the load step ends the run, is not modelled either, so `CommentPairs.AllowedPersonas` and `CommentPairs.GenerateCompletedDataset` only see personas with string values.
- `CommentPairs.GenerateCompletedDataset`: the `while generated_count < target_count` loop runs over a finite sequence of draws. With too few successful draws it writes fewer than `target_count` records, where the source would keep drawing.
- Floats are not modelled as floats. Ratios are `Ratio(num, den)` pairs, and maintainability and complexity values are `real`s returned by the analysers.
- Regular-expression `\w` and `str.lower()` are modelled on ASCII only.
- JSON numbers are integers only. Floats in records are not modelled.
- The fallback `[code.strip()]` of `split_code_into_chunks` does not go through the chunk filter, so it can be a shebang line or a short chunk. The model keeps that behaviour, and the filter's guarantees are claimed only for the filtered chunks.
- `Preprocessing.PreprocessRule2`: the function's own contract states only the reset labels. Order, first-occurrence deduplication, the length floor and idempotence are the lemmas beside it.
- `is_syntax_error` comes from the `Analysers` parameter applied to the comment-stripped text, and the metrics from the same parameter applied to the raw content, as in the source. What the parser and radon compute is not modelled.
- Pandas `dtype`s and the unused `header` variable of the chunked export are not modelled.

## Findings

| source | as written | input that shows it | evidently intended | confidence | as-written member | corrected member |
|---|---|---|---|---|---|---|
| data_processing/data_load_process/pipeline.py:116-120 | `iso_removed` and `lof_removed` compare the original labels of `good_data` with the labels the filters reset to 0..k-1 | a three-row table whose row 0 is rule-bad and whose detectors accept every row: the good row labelled 2 is reported removed by the isolation filter | the removed tables hold the rows each detector rejected | not executed | Pipeline.IsoRemovedMislabels | Pipeline.ClassifyCorrectedPartition |
| data_processing/data_load_process/ml_validation.py:12-16 | `features.remove(col)` inside `for col in features` skips the element after each removed one | a table with none of the four feature columns: `cyclomatic_complexity` and `comment_ratio` survive, and selecting them raises `KeyError` | keep exactly the features the table has | not executed | MlValidation.PrunedKeepsMissingColumns | MlValidation.PresentFeatures |
