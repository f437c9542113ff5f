# A verified model of the GSTIN and question-bank scrapers

The repository is a set of Python scrapers. This project models their deterministic core in Dafny and proves what that core promises:

- **GSTIN enrichment.** `src/scripts/fill_rapl.py` and `src/services/gst_data_service.py` collect the distinct GSTINs of a sheet. They look up only those missing from a checkpointed cache, each at most once, and save the cache every ten completions. Then they fill every row from the cache and keep the first row per GSTIN. The lookup service is a class with a cache map and a sticky shutdown flag.
- **GST record shaping.** `src/recipes/gst_recipe.py`, `src/scraper/plugins/gst.py`, `recipe/gst/__init__.py` and `src/scripts/deduplicate_excel.py` shape records and process input incrementally:
  - label-to-field mapping with 'N/A' defaults;
  - the address split and its pincode;
  - HSN-code filtering, de-duplication and the cap of ten;
  - the GSTIN column lookup and the skip set of an incremental run;
  - the choice between appending and overwriting;
  - keep-first de-duplication with its report.
- **Scraper utilities and question-bank parsers.** These cover:
  - the base scrapers' whitespace normalisation, HTTP status classification, content precedence and save dispatch (`src/core/base_scraper.py`, `src/scraper/core/base.py`, `src/utils/scraper.py`);
  - the quiz and topic scrapers of `src/utils/scraper.py`;
  - the PDF MCQ extractors (`core/services/kiran/__init__.py`, `vision.py`, `core/pdf.py`, `recipe/arihant`);
  - the DGGCA and agriculture question parsers;
  - the ExamBot page parser;
  - the IAS Score subtheme splitting;
  - the current-affairs URL bookkeeping;
  - the command line of `src/main.py`.

Regular expressions, HTML parsing, PDF text extraction, the network and file formats are inputs to the model. A regex is given as the sequence of its matches: spans and captured groups, in text order. An HTML page is the texts of the elements the code selects. A file is its rows or lines, and `None` when it is missing. What the code then does with these inputs is modelled operation by operation:

- Python's loops become Dafny methods with loop invariants.
- Objects whose fields are updated in place become classes.
- Pure computations become functions.

Each operation is proved against a specification function, and the source's promises are proved as lemmas about that function.

Shared pieces:

- `Text`: Python string behaviour, i.e. `strip`, `split`, `join`, `find`, `replace`, slicing, `lower`, `title`.
- `PyDict`: insertion-ordered dicts.
- `Dedup`: `unique()`, `drop_duplicates(keep='first')` and `duplicated`.
- `Paths`: `suffix` and `with_suffix`.
- `Wrappers`: `Option` and `Result`. A `Result` error stands for the exception the source raises.

`src/core/base_scraper.py`, `src/scraper/core/base.py` and `src/utils/scraper.py` share `normalize_whitespace` and `fetch_page` line for line, so `BaseScraper` models all three. `src/utils/scraper.py` has no `if not text` guard, but it is only given element texts, never `None`. The same holds for the DGGCA parser: `recipe/dggca/__init__.py` and `src/recipes/dggca_recipe.py` differ only in where the records are collected, and `Dggca` models both.

## Model

| member | source | states |
|---|---|---|
| FillRapl.LoadCheckpoint | src/scripts/fill_rapl.py:53-58 | the file's object when the checkpoint exists, otherwise an object holding an empty `gstin_cache` |
| FillRapl.CheckpointRoundTrip | src/scripts/fill_rapl.py:53-64 | a saved cache loads back unchanged through `checkpoint.get("gstin_cache", {})`; a missing file gives an empty cache |
| FillRapl.RowKey | src/scripts/fill_rapl.py:126-129 | a row has a GSTIN exactly when its cell is present and not blank, and the GSTIN is the stripped cell |
| FillRapl.PresentGstinsSpec | src/scripts/fill_rapl.py:68-69 | the GSTINs after `dropna`, `strip` and the blank filter are exactly the keys of the rows that have one |
| FillRapl.UniqueGstinsSpec | src/scripts/fill_rapl.py:66-70 | `extract_unique_gstins` lists exactly the non-blank stripped cells, each once |
| FillRapl.UncachedSpec | src/scripts/fill_rapl.py:194 | the scheduled GSTINs are exactly the listed ones not in the cache, none twice when the list has no repeats |
| FillRapl.FieldsOf | src/scripts/fill_rapl.py:145-157 | the cells written for the derived columns are exactly those columns |
| FillRapl.NamesApart | src/scripts/fill_rapl.py:114-144 | Customer Name, Address and Type are not among the 13 new columns, so the two groups of writes never collide |
| FillRapl.ApplyData | src/scripts/fill_rapl.py:134 | a row whose lookup gave nothing or an empty record is left unchanged |
| FillRapl.ApplyDataSpec | src/scripts/fill_rapl.py:134-157 | with a record, Customer Name and Address change only when missing; Type and the 13 columns are always written from the record or 'N/A'; no other cell changes |
| FillRapl.ApplyDataWritten | src/scripts/fill_rapl.py:136-157 | the value of every cell a filled row gets, each from its record field or 'N/A' |
| FillRapl.ApplyDataOthers | src/scripts/fill_rapl.py:136-157 | cells outside the written columns keep their values |
| FillRapl.SameKeySameDerived | src/scripts/fill_rapl.py:126-157 | two rows with the same GSTIN, filled from the same cache, get the same Type and derived values |
| FillRapl.FillRows | src/scripts/fill_rapl.py:125-157 | one filled row per input row, each filled from its own cache entry |
| FillRapl.AddMissing | src/scripts/fill_rapl.py:120-122 | the columns after adding the absent ones: the old ones first and unchanged, each wanted column present, no repeats introduced |
| FillRapl.AddMissingPresent | src/scripts/fill_rapl.py:120-122 | when every wanted column exists, the columns are unchanged |
| FillRapl.AddMissingIdempotent | src/scripts/fill_rapl.py:120-122 | adding the columns twice is the same as adding them once |
| FillRapl.ResolvedCache | src/scripts/fill_rapl.py:185-199 | a finished run leaves every GSTIN of the sheet resolved from the checkpoint or from a fresh fetch |
| FillRapl.ResolvedRows | src/scripts/fill_rapl.py:125-157 | filling depends only on the cache entries of the sheet's own GSTINs |
| FillRapl.UncachedAllNew | src/scripts/fill_rapl.py:194 | a list of keys none of which is cached is scheduled in full |
| FillRapl.DataFrame.constructor | src/scripts/fill_rapl.py:181 | a sheet holds the columns and rows it was read with |
| FillRapl.CoversTrans | src/scripts/fill_rapl.py:83-92 | lookups of one key list followed by another cover the concatenation |
| FillRapl.UncachedAppend | src/scripts/fill_rapl.py:194 | filtering a concatenation filters each part |
| FillRapl.UncachedSame | src/scripts/fill_rapl.py:194 | the filter depends only on whether the listed keys are cached |
| FillRapl.LookupStep | src/services/gst_data_service.py:74-108 | one more lookup of a new key keeps the cache and the request log in step |
| FillRapl.Lookup | src/scripts/fill_rapl.py:89-92 | a completed lookup of a key adds it to the covered keys and requests it only when it was not cached |
| FillRapl.RunLookups | src/scripts/fill_rapl.py:77-83 | running all lookups to completion requests exactly the uncached keys, in order, and caches every key |
| FillRapl.NextFresh | src/scripts/fill_rapl.py:78-79 | the next key of a list without repeats was not looked up before |
| FillRapl.Disjoint | src/scripts/fill_rapl.py:83-87 | the lookups still running at shutdown share no key with those already completed |
| FillRapl.LookupsChain | src/scripts/fill_rapl.py:83-92 | two runs of lookups over disjoint keys compose, in requests and in cache coverage |
| FillRapl.WindDown | src/scripts/fill_rapl.py:84-87 | after the loop sees the shutdown flag, the lookups already running finish, the service shuts down, and the cache only grows |
| FillRapl.Drain | src/services/gst_data_service.py:70-71 | the lookups queued after shutdown return nothing and change nothing |
| FillRapl.RecordedStep | src/scripts/fill_rapl.py:89-92 | the next completion appends its key and its cached value to `results` |
| FillRapl.RecordedExtends | src/scripts/fill_rapl.py:89-92 | recorded results stay true as the cache grows |
| FillRapl.Batches | src/scripts/fill_rapl.py:95-98 | `s` full batches and fewer than `BATCH_SIZE` more completions make `s` batches |
| FillRapl.Complete | src/scripts/fill_rapl.py:89-93 | one more completion: its GSTIN is looked up only when uncached, cached with its outcome, and recorded with that outcome; the service keeps running |
| FillRapl.Tick | src/scripts/fill_rapl.py:94-98 | the counter stays below `BATCH_SIZE`, and checkpoints times `BATCH_SIZE` plus the counter grows by exactly one per completion |
| FillRapl.ScrapeUniqueGstins | src/scripts/fill_rapl.py:72-107 | `n` completions give `n` results and `n / 10 + 1` checkpoint writes, the last one final; with a shutdown the loop stops and the service is shut down |
| FillRapl.ScrapeLoop | src/scripts/fill_rapl.py:83-103 | the loop up to a completion count records every completion and checkpoints after every 10 |
| FillRapl.AddColumns | src/scripts/fill_rapl.py:120-122 | the sheet's columns become `AddMissing` of the old ones and the rows are unchanged |
| FillRapl.SettledStable | src/services/gst_data_service.py:74-77 | once a row's GSTIN is cached, its data no longer changes as the cache grows |
| FillRapl.FilledExtends | src/scripts/fill_rapl.py:125-157 | rows filled so far stay filled as the cache grows |
| FillRapl.RowsStep | src/scripts/fill_rapl.py:125-157 | filling one more row keeps the rows before it and leaves the rest untouched |
| FillRapl.ColumnsStep | src/scripts/fill_rapl.py:137-144 | the first row that gets data adds Customer Name, Address and Type when absent |
| FillRapl.RowsDone | src/scripts/fill_rapl.py:125-157 | after the last row the sheet's rows are `FillRows` of the input rows |
| FillRapl.FillRow | src/scripts/fill_rapl.py:126-157 | one pass of the row loop fills its row from the service and the cache only grows |
| FillRapl.FillDataFrame | src/scripts/fill_rapl.py:109-162 | every row is filled from the cache as it stands at the end, the new columns are added when absent, and every row's GSTIN ends up cached |
| FillRapl.RunFill | src/scripts/fill_rapl.py:164-230 | a sheet without a `GSTIN` column fails with `KeyError: 'GSTIN'`, and only such a sheet fails; otherwise a run resumed from a checkpoint requests only uncached GSTINs, and without an interrupt the output is the filled sheet with the first row per GSTIN and the checkpoint is deleted, while with one nothing is written |
| FillRapl.FillSheet | src/scripts/fill_rapl.py:185-230 | with a `GSTIN` column: only uncached GSTINs are requested; without an interrupt the output is the filled, deduplicated sheet and the checkpoint is deleted; with one nothing is written and the checkpoint extends the loaded cache |
| FillRapl.Scheduled | src/scripts/fill_rapl.py:190-199 | the scheduled lookups are the sheet's GSTINs missing from the checkpoint, each once, and none when all are cached |
| FillRapl.ScrapedRequests | src/scripts/fill_rapl.py:197-199 | after `n` completions, the requests are exactly the first `n` scheduled GSTINs, each now cached |
| FillRapl.PrefixRequested | src/scripts/fill_rapl.py:194 | a prefix of a list of uncached keys without repeats is requested in full, in order |
| FillRapl.CoveredResolves | src/scripts/fill_rapl.py:185-199 | once every uncached key is looked up, every GSTIN of the sheet resolves as a finished run resolves it |
| FillRapl.SheetSettled | src/scripts/fill_rapl.py:125-132 | a cache holding every GSTIN of the sheet answers every row's lookup |
| FillRapl.FillAndDedup | src/scripts/fill_rapl.py:206-217 | the uninterrupted ending fills the sheet with no new request and keeps the first row per raw GSTIN cell |
| FillRapl.FillResolved | src/scripts/fill_rapl.py:205-206 | a sheet whose every GSTIN the cache resolves is filled from those resolved records, with no new request |
| GstService.Outcome | src/services/gst_data_service.py:89-108 | a lookup stores a record exactly when the extractor returned a non-empty list, and then its first element |
| GstService.StatsPartition | src/services/gst_data_service.py:117-120 | every cache entry is either a success or a failure, never both |
| GstService.GstDataService.constructor | src/services/gst_data_service.py:47-51 | a new service holds the given cache, is not shut down and has made no request |
| GstService.GstDataService.Shutdown | src/services/gst_data_service.py:53-55 | the flag is set and nothing else changes |
| GstService.GstDataService.GetGstData | src/services/gst_data_service.py:57-108 | after shutdown `None` with no change; on a hit the stored value, even `None`, with no request; on a miss one request whose outcome is cached and returned; an entry is never overwritten |
| GstService.GstDataService.GetCacheStats | src/services/gst_data_service.py:110-126 | total is the number of entries, successful the entries holding a record, failed the rest, and they add up |
| GstRecipe.LabelsKeys | src/recipes/gst_recipe.py:21-26 | the label dict's keys are exactly the title-cased labels found |
| GstRecipe.LabelsLast | src/recipes/gst_recipe.py:21-26 | each label holds the value of its last entry: a repeated label overwrites, a label without an `h2`/`p` sibling gets 'N/A' |
| GstRecipe.CollectLabels | src/recipes/gst_recipe.py:19-26 | the label loop builds the dict `Labels` describes |
| GstRecipe.Get | src/recipes/gst_recipe.py:42 | `data.get(key, 'N/A')` gives 'N/A' for a missing key |
| GstRecipe.Pincode | src/recipes/gst_recipe.py:72-73 | the pincode is 'N/A' or six digits closing the last piece (before at most one final newline) |
| GstRecipe.ExtractAddressParts | src/recipes/gst_recipe.py:64-76 | fewer than four ', '-separated pieces give 'N/A' four times |
| GstRecipe.PincodeOf | src/recipes/gst_recipe.py:72-73 | a last piece closing in six digits gives them as the pincode |
| GstRecipe.AddressRoundTrip | src/recipes/gst_recipe.py:66-74 | an address written as `..., city, district, state, last` gives back city, district and state as written (stripped) and the pincode of the last piece |
| GstRecipe.SplitOfParts | src/recipes/gst_recipe.py:66 | splitting pieces joined by ', ' gives the pieces back |
| GstRecipe.ShortAddress | src/recipes/gst_recipe.py:75-76 | an address of three pieces gives no parts |
| GstRecipe.StatusOf | src/recipes/gst_recipe.py:37-39 | the status is the page's when it is neither missing, 'N/A' nor blank, and 'Active' otherwise |
| GstRecipe.ExtractHsnCodes | src/recipes/gst_recipe.py:78-108 | the two collection loops and the de-duplication give the field `HsnField` describes |
| GstRecipe.ListCodes | src/recipes/gst_recipe.py:84-89 | the first loop keeps the `<li>` texts of six or eight digits, in order |
| GstRecipe.FallbackCodes | src/recipes/gst_recipe.py:97-100 | the fallback loop keeps the matches not starting with 19, 20 or 01 to 12, in order |
| GstRecipe.HsnAbsent | src/recipes/gst_recipe.py:92-104 | the field is 'N/A' exactly when no code was found |
| GstRecipe.HsnCodes | src/recipes/gst_recipe.py:84-104 | a field other than 'N/A' splits back into one to ten distinct codes, first-seen order, from the `<li>` list when it had any and from the filtered fallback otherwise |
| GstRecipe.HsnNotNA | src/recipes/gst_recipe.py:104 | codes joined by ', ' never read as 'N/A' |
| GstRecipe.RecordOf | src/recipes/gst_recipe.py:28-57 | the record's status, address, address parts and HSN field come from the label dict as the source maps them |
| GstRecipe.ParsePage | src/recipes/gst_recipe.py:14-62 | a parsed page gives exactly one record; without a parsed page the exception path gives `[]` |
| GstRecipe.RecordDefaults | src/recipes/gst_recipe.py:41-57 | a page with no labels gives 'N/A' for every label-backed field, 'Active' for the status and no address parts |
| GstPlugin.ParsePage | src/scraper/plugins/gst.py:25-39 | the title-cased label dict, or the empty dict when the page was not parsed |
| GstPlugin.FirstFilledSpec | src/scraper/plugins/gst.py:150-154 | the GSTIN comes from the first of the five columns that is present and non-empty; none when no column qualifies |
| GstPlugin.GstinStripped | src/scraper/plugins/gst.py:150-158 | a GSTIN that is kept is non-empty and stripped |
| GstPlugin.BlankColumnShadows | src/scraper/plugins/gst.py:150-158 | a first column holding only spaces hides a later column with a real GSTIN, and the row is skipped |
| GstPlugin.SaveAgrees | src/scraper/plugins/gst.py:91-115 | for `.csv`, `.xlsx` and `.xls` outputs the save as written and the corrected save agree |
| GstPlugin.UnrecognisedOverwrites | src/scraper/plugins/gst.py:95-123 | with an unrecognised extension and no such file, two saves leave only the second row as written, and both rows in order as intended |
| GstPlugin.AsWrittenTwice | src/scraper/plugins/gst.py:95-123 | the append decision that looks at `output_file` truncates the `.csv` file on the second save |
| GstPlugin.IntendedTwice | src/scraper/plugins/gst.py:95-123 | an append decision that looks at the written file keeps both rows |
| GstPlugin.CsvSibling | src/scraper/plugins/gst.py:120 | the `.csv` path for an unrecognised extension is another file than the output path |
| GstPlugin.CsvExtension | src/scraper/plugins/gst.py:92-97 | a path whose suffix is `.csv` is recognised |
| GstPlugin.ResultRow | src/scraper/plugins/gst.py:172-183 | the saved row carries the GSTIN under 'Gstin' |
| GstPlugin.ProcessData | src/scraper/plugins/gst.py:126-200 | `process_data` leaves the files and counters of the row-by-row fold `Run` started from what `output_file` holds, saving to the file `save_result` writes with its append decision taken on `output_file` |
| GstPlugin.ProcessRows | src/scraper/plugins/gst.py:134-197 | the loop over the input rows computes `Run`, from the GSTINs loaded from `output_file` and `is_first_result` set by whether it exists |
| GstPlugin.ProcessRow | src/scraper/plugins/gst.py:149-197 | one row is skipped, or scraped, saved as `save_result` does and recorded, or fails and changes nothing |
| GstPlugin.RunLast | src/scraper/plugins/gst.py:148 | the loop over rows plus one more row is one more step |
| GstPlugin.Rows | src/scraper/plugins/gst.py:172-186 | one saved row per saved GSTIN |
| GstPlugin.GstinsAt | src/scraper/plugins/gst.py:150-154 | the lookup list holds each row's GSTIN lookup |
| GstPlugin.StepCases | src/scraper/plugins/gst.py:156-197 | a row changes nothing, or saves its GSTIN once to the file written, appending exactly when it is not the first save and `output_file` exists: count up by one, `is_first_result` cleared, GSTIN added to the existing set |
| GstPlugin.StepCounted | src/scraper/plugins/gst.py:186-191 | one step keeps the count equal to the saves |
| GstPlugin.StepStored | src/scraper/plugins/gst.py:186 | when `output_file` is the file written, one step keeps it as its earlier rows followed by one row per save |
| GstPlugin.StepFromInput | src/scraper/plugins/gst.py:164-191 | every saved GSTIN comes from a processed row that scraped without error |
| GstPlugin.RunCounted | src/scraper/plugins/gst.py:141-191 | after the loop the count is the number of saves, no GSTIN was saved twice or was already in the output, and `is_first_result` held only until the first save |
| GstPlugin.RunStored | src/scraper/plugins/gst.py:141-186 | when `output_file` is the file written (a `.csv`, `.xlsx` or `.xls` output), after the loop it holds its earlier rows and then one result row per save, in order; no other file changed |
| GstPlugin.RunGrows | src/scraper/plugins/gst.py:191 | the existing set only grows |
| GstPlugin.RunComplete | src/scraper/plugins/gst.py:156-191 | every row with a GSTIN that scrapes cleanly ends up in the existing set |
| GstPlugin.ResumeSkipsSaved | src/scraper/plugins/gst.py:65-79 | for a `.csv`, `.xlsx` or `.xls` output, a second run loads every GSTIN the first one saved, so it scrapes none of them again (the skip itself is at lines 134 and 160) |
| GstPlugin.SavedLoaded | src/scraper/plugins/gst.py:65-79 | when `output_file` is the file written, every saved GSTIN is among those `load_existing_gstins` reads back from it |
| GstPlugin.IntendedAgrees | src/scraper/plugins/gst.py:91-97 | for `.csv`, `.xlsx` and `.xls` outputs the run as written is the intended run |
| GstPlugin.IntendedResume | src/scraper/plugins/gst.py:65-79 | as intended, for any output that can be written, a second run loads back every GSTIN the first one saved |
| GstPlugin.IntendedStored | src/scraper/plugins/gst.py:116-123 | as intended, the `.csv` file of an unrecognised output keeps its earlier rows and then every result, in order |
| GstPlugin.IntendedIsRun | src/scraper/plugins/gst.py:120-123 | the intended run is the fold with the file written standing for `output_file` |
| GstPlugin.StepOverwritten | src/scraper/plugins/gst.py:95 | when the file written is not a missing `output_file`, one step leaves it holding the last result only |
| GstPlugin.RunOverwritten | src/scraper/plugins/gst.py:95-123 | when results go to another file than a missing `output_file`, after the loop that file holds only the last result row; no other file changed |
| GstPlugin.TargetElsewhere | src/scraper/plugins/gst.py:116-120 | an unrecognised output is never the file written |
| GstPlugin.ProcessOverwrites | src/scraper/plugins/gst.py:126-191 | for an `out.txt` that does not exist, `process_data` leaves the `.csv` file holding only the last result |
| GstPlugin.RunKeepsOut | src/scraper/plugins/gst.py:186 | a run never creates a path it does not write to |
| GstPlugin.ResumeRescrapes | src/scraper/plugins/gst.py:134-141 | for an `out.txt` that does not exist, a second run loads no GSTIN and starts as a first run, so it scrapes every row again |
| GstPlugin.RowsGstin | src/scraper/plugins/gst.py:173 | each saved row holds its GSTIN |
| GstCsv.ParsePage | recipe/gst/__init__.py:11-25 | the label dict with labels and values as found, or the empty dict when the page was not parsed |
| GstCsv.GstinOf | recipe/gst/__init__.py:37 | a row without a `gstin` column gives the empty GSTIN |
| GstCsv.OutputLine | recipe/gst/__init__.py:46-54 | six cells, the first the GSTIN |
| GstCsv.OutputCells | recipe/gst/__init__.py:48-53 | each later cell is the value of its source label ('Registration Status', 'Entity Type', 'Place of Business (Address)' for the renamed ones), or 'N/A' |
| GstCsv.Cells | recipe/gst/__init__.py:36-37 | one stripped `gstin` cell per input row |
| GstCsv.CellAt | recipe/gst/__init__.py:37 | the cell of row `k` is that row's stripped `gstin` |
| GstCsv.CellsAppend | recipe/gst/__init__.py:36-37 | the cells of two row lists concatenate |
| GstCsv.ProcessCsv | recipe/gst/__init__.py:28-55 | the header once, before any row, then the lines of `Process`, and the error that stopped the run if any |
| GstCsv.RunFrom | recipe/gst/__init__.py:36-55 | a blank cell is skipped, a failing scrape stops the run, a good one writes its line and goes on |
| GstCsv.NonBlank | recipe/gst/__init__.py:38-40 | the non-blank cells, in order, repeats kept |
| GstCsv.RunLines | recipe/gst/__init__.py:36-55 | the lines written are for a prefix of the non-blank cells, in order, each from a scrape that succeeded |
| GstCsv.RunError | recipe/gst/__init__.py:43-44 | the run stops early exactly when a scrape fails, at the first failing cell, with that scrape's error |
| GstCsv.ProcessSpec | recipe/gst/__init__.py:36-55 | one line per row with a GSTIN, in input order and without de-duplication, up to the first failing scrape |
| GstCsv.GstinsStripped | recipe/gst/__init__.py:37-40 | every GSTIN written is non-blank and stripped |
| GstCsv.BlankCellIgnored | recipe/gst/__init__.py:38-40 | inserting a blank cell anywhere leaves the run unchanged |
| GstCsv.BlankRowIgnored | recipe/gst/__init__.py:37-40 | inserting a row with a missing or blank `gstin` anywhere leaves the output unchanged |
| DedupExcel.DuplicateKeysCount | src/scripts/deduplicate_excel.py:47-48 | there are as many duplicate keys as rows repeating an earlier GSTIN, each a key of the sheet |
| DedupExcel.NoDuplicatesIff | src/scripts/deduplicate_excel.py:47-50 | the duplicate count is zero exactly when no two rows share a GSTIN |
| DedupExcel.DeduplicateSpec | src/scripts/deduplicate_excel.py:42-72 | no GSTIN column or no duplicate: nothing written; otherwise the first row of each GSTIN in original order, length = original − duplicate count, written to the output path |
| DedupExcel.OutputPathSpec | src/scripts/deduplicate_excel.py:66 | the output path is the one given, or the input path when none or an empty one is given |
| DedupExcel.ReportSpec | src/scripts/deduplicate_excel.py:54-59 | at most ten distinct duplicated GSTINs, each with its duplicate count plus one as appearances, empty cells not counted, and the rest counted as 'and N more' |
| DedupExcel.BackupOfOtherFile | src/scripts/deduplicate_excel.py:34-39 | a path without '.xlsx' is its own backup name, so the copy fails and only a warning follows |
| BaseScraper.CollapseRuns | src/core/base_scraper.py:129 | collapsing never lengthens the text and keeps its first character |
| BaseScraper.CollapseRunsNoRepeat | src/core/base_scraper.py:129 | after `re.sub(r'(\s)\1+', r'\1', …)` no whitespace character is followed by the same one |
| BaseScraper.CollapseRunsFixed | src/scraper/core/base.py:94 | text without repeated whitespace is left alone |
| BaseScraper.CollapseRunsVisible | src/core/base_scraper.py:129 | collapsing drops only whitespace: the visible characters stay, in order |
| BaseScraper.NoRepeatedSlice | src/core/base_scraper.py:129 | a slice of text without repeated whitespace has none either |
| BaseScraper.NormalizeSpec | src/core/base_scraper.py:125-129 | `''` for `None` or `''`; otherwise no leading or trailing whitespace, no whitespace character twice in a row, mixed runs kept, every visible character kept in order |
| BaseScraper.StripVisible | src/utils/scraper.py:116 | stripping drops whitespace only |
| BaseScraper.LStripVisible | src/core/base_scraper.py:129 | stripping the left drops whitespace only |
| BaseScraper.RStripVisible | src/core/base_scraper.py:129 | stripping the right drops whitespace only |
| BaseScraper.VisibleAppend | src/core/base_scraper.py:129 | the visible characters of a concatenation concatenate |
| BaseScraper.NormalizeIdempotent | src/scraper/core/base.py:89-94 | normalising twice is normalising once |
| BaseScraper.FetchPage | src/core/base_scraper.py:49-63 | 404 gives `''`, 200 the body, 429 and every other status raise; 404 is the only non-200 status that does not raise |
| BaseScraper.GivenContent | src/core/base_scraper.py:75 | the first truthy of the constructor's and the call's content, so an empty string falls through |
| BaseScraper.Scraper.constructor | src/core/base_scraper.py:24-29 | `base_url` is stripped, `content` kept, and nothing is parsed yet |
| BaseScraper.Scraper.GetHtml | src/core/base_scraper.py:120-122 | `''` while nothing has been parsed, else `soup.prettify()` of the parsed page, with `prettify` given as a parameter |
| BaseScraper.Scraper.Prepare | src/core/base_scraper.py:74-76 | the page is the first truthy of constructor content, call content and fetched page; the server is asked only in the last case and its error is passed on |
| BaseScraper.Scraper.Extract | src/core/base_scraper.py:69-91 | the base class always fails: with the fetch error when the fetch fails, otherwise with `NotImplementedError` |
| BaseScraper.CsvLine | src/core/base_scraper.py:112-114 | one cell per header field, `''` for a field the row lacks |
| BaseScraper.CsvLines | src/core/base_scraper.py:114 | one line per row, each written against the header |
| BaseScraper.BareNameAlwaysFails | src/core/base_scraper.py:97 | as written, every bare file name fails in `os.makedirs('')` whatever the data and the format |
| BaseScraper.BareNameFinding | src/core/base_scraper.py:97-101 | saving JSON to `out.json` raises as written and succeeds as intended |
| BaseScraper.SaveAgrees | src/core/base_scraper.py:93-103 | the two saves agree on every path with a directory part |
| BaseScraper.SaveDispatch | src/core/base_scraper.py:98-114 | `.csv` writes CSV with the first row's keys as header (nothing for no data, `ValueError` for a row with a key outside it), `.json` writes JSON, anything else raises `ValueError` |
| BaseScraper.ReadLine | src/core/base_scraper.py:112-114 | reading a line back gives one entry per header field |
| BaseScraper.ReadLineOf | src/core/base_scraper.py:112-114 | a line written for a row whose keys cover the header reads back as the row restricted to the header |
| BaseScraper.CsvRoundTrip | src/core/base_scraper.py:105-114 | when every row has exactly the first row's keys, the CSV save succeeds and each line reads back as its row |
| Paths.LastIndexOf | src/scraper/plugins/gst.py:91-92 | the index of the last occurrence of the character, after which it does not occur, or none when it does not occur |
| Paths.Name | src/scraper/plugins/gst.py:91-92 | the name is the part after the last '/', with no '/' in it |
| Paths.Suffix | src/scraper/plugins/gst.py:92 | the suffix is no longer than the name, and shorter than a non-empty name |
| Paths.NameSuffix | src/scraper/plugins/gst.py:92 | a name's suffix is no longer than the name, and shorter than a non-empty one |
| Paths.SuffixShape | src/scraper/plugins/gst.py:92 | the suffix is empty or a dot followed by at least one character, without another dot or '/', and it ends the name |
| Paths.NameSuffixShape | src/scraper/plugins/gst.py:92 | the suffix of a name without '/' is empty or valid, and it ends the name |
| Paths.TailFromLastDot | src/scraper/plugins/gst.py:92 | the part of a name from its last dot, when that dot is neither first nor last, is a valid suffix ending the name |
| Paths.WithSuffix | src/scraper/plugins/gst.py:120 | `with_suffix` fails exactly for a path with an empty name |
| Paths.WithSuffixSpec | src/scraper/plugins/gst.py:120 | the new path has the requested suffix and only its name changed |
| Paths.WithSuffixSuffix | src/scraper/plugins/gst.py:120 | the new path's suffix is the requested one |
| Paths.WithSuffixDir | src/scraper/plugins/gst.py:120 | the part of the path before the name is unchanged |
| Paths.StemName | src/scraper/plugins/gst.py:120 | the name of the path without its suffix is the name without the suffix, and it is not empty |
| Paths.StemSuffix | src/scraper/plugins/gst.py:120 | the path without its suffix, followed by a valid suffix, has that suffix |
| Paths.NewSuffix | src/scraper/plugins/gst.py:120 | a name made of a non-empty stem and a valid suffix has that suffix |
| Paths.SuffixAt | src/scraper/plugins/gst.py:92 | the last dot of the name, neither first nor last, starts the suffix |
| Paths.NameOfPrefix | src/scraper/plugins/gst.py:120 | cutting characters off the name shortens the name by as many |
| Paths.NameOfAppend | src/scraper/plugins/gst.py:120 | appending a piece without '/' extends the name by that piece |
| Paths.LastDotOfAppend | src/scraper/plugins/gst.py:120 | a non-empty stem followed by a valid suffix has its last dot where the suffix starts |
| Insights.JsonTextFound | src/utils/scraper.py:123-127 | with 'json:' and a later '}}' present, the text decoded is exactly what lies between them, closing braces included |
| Insights.IndexOfOne | src/utils/scraper.py:133 | `index(1)` gives the first position of a 1, and raises exactly when there is none |
| Insights.CorrectIndexes | src/utils/scraper.py:131-135 | every question's correct option found in order, or the first question without a 1 named in the error |
| Insights.ExtractCorrectAnswers | src/utils/scraper.py:118-144 | `None` without the script tag or for invalid JSON; otherwise the first correct position of each question in order, or the raise of `index` |
| Insights.AnswerLetters | src/utils/scraper.py:150-157 | missing or empty answers give six 'f'; otherwise each index mapped to its letter, an index past 5 raising `KeyError` |
| Insights.NormalizedAll | src/utils/scraper.py:162-163 | one normalised text per option, in order |
| Insights.NormalizedAt | src/utils/scraper.py:162-163 | option `i` is the normalised i-th text |
| Insights.QuestionOptions | src/utils/scraper.py:160-177 | option `i` is stored under the i-th letter with its normalised text; options past the sixth are dropped |
| Insights.BuildQuestions | src/utils/scraper.py:159-177 | one record per item in page order, item `i` with answer `i`; more items than answers raises `IndexError` |
| Insights.GetQuestions | src/utils/scraper.py:146-179 | item i gets the letter of the first 1 in the script's question i; it raises exactly when a question has no 1 or one past 'f', or there are more items than questions; without the tag, with invalid JSON or with no questions, every answer is 'f' and more than six items raise |
| Insights.Absolute | src/utils/scraper.py:233-234 | each link prefixed with `https://iasscore.in`, order and count kept |
| Insights.MicroTopicsUrls.ParsePage | src/utils/scraper.py:231-235 | the absolute links of the page are appended after the ones collected before |
| Insights.BrickTopics | src/utils/scraper.py:247-266 | one entry per theme of the brick |
| Insights.MicroTopics.ParsePage | src/utils/scraper.py:242-266 | topics restart empty; a URL with one segment raises; otherwise one entry per theme of every brick, in page order, with subject and section from the last two URL segments |
| Insights.MicroTopics.AddBrick | src/utils/scraper.py:247-266 | the brick's entries are appended, in theme order |
| Insights.AllTopicsShape | src/utils/scraper.py:244-266 | as many entries as themes, each with the page's subject and section |
| Insights.BrickTopicsShape | src/utils/scraper.py:251-257 | every entry of a brick carries the page's subject and section |
| Insights.TopicSplit | src/utils/scraper.py:258-265 | a theme with a blank line becomes its first piece with the second as subtheme, the original being theme, separator, subtheme and possibly more; one without keeps the theme and has no subtheme |
| Kiran.Kept | core/services/kiran/__init__.py:32-47 | the loop keeps no more matches than it saw |
| Kiran.KeptSubsequence | core/services/kiran/__init__.py:32-47 | only matches of the input are kept, in text order |
| Kiran.CounterIsLastKept | core/services/kiran/__init__.py:29-47 | `last_question_no` is the number of the last match kept, or 0 before any is kept |
| Kiran.FirstKept | core/services/kiran/__init__.py:34 | the first match is always kept |
| Kiran.KeptConsecutive | core/services/kiran/__init__.py:27-47 | with no question numbered 0, the kept numbers form one consecutive run n, n+1, … in text order |
| Kiran.KeptStep | core/services/kiran/__init__.py:34-47 | one loop step: an accepted match is kept and becomes the counter; a skipped one changes nothing |
| Kiran.ZeroRestarts | core/services/kiran/__init__.py:34 | a kept question numbered 0 resets the filter, so the next match is kept whatever its number |
| Kiran.OptionLineHasShape | core/services/kiran/__init__.py:25 | an option line is '(', a letter a-f, ')', blanks, then the option, which starts with a non-blank |
| Kiran.ShapeIsOptionLine | core/services/kiran/__init__.py:25 | every line of that shape is an option line with that option |
| Kiran.OptionLineShape | core/services/kiran/__init__.py:25 | a line matches the option pattern with option `o` exactly when it has that shape ending in `o` |
| Kiran.LStripPad | core/services/kiran/__init__.py:25 | the `\s*` before the option takes exactly the leading blanks |
| Kiran.OptionsOf | core/services/kiran/__init__.py:65-67 | at most one option per line, none empty or starting with a blank |
| Kiran.Blanked | core/services/kiran/__init__.py:69-71 | each line the pattern matches is emptied, every other one kept |
| Kiran.LinesFree | core/services/kiran/__init__.py:25 | no line holds a line break |
| Kiran.BlankedLines | core/services/kiran/__init__.py:69-71 | emptying whole lines keeps the line breaks, so the same lines come back |
| Kiran.OptionsRemoved | core/services/kiran/__init__.py:38-71 | after the removal the text has as many lines, none an option line, and every other line where it was |
| Kiran.ContentEnd | core/services/kiran/__init__.py:74-81 | the explanation ends between its marker's end and the end of the text |
| Kiran.ContentSpec | core/services/kiran/__init__.py:73-81 | the explanation is one stretch of the text after its marker and before the end of the tail search's first match, with no whitespace at either end |
| Kiran.ContentAtMarker | core/services/kiran/__init__.py:79-81 | when the marker pattern matches right at a marker's end (the `^` of the tail slice at offset 0), its explanation is empty |
| Kiran.ContentToNext | core/services/kiran/__init__.py:73-77 | otherwise the explanation is the stripped text up to the next marker, or to the end of the text |
| Kiran.ContentExample | core/services/kiran/__init__.py:73-81 | in "Q1.AQ2.B rest" question 1's explanation is empty |
| Kiran.Explained | core/services/kiran/__init__.py:53-62 | one explanation per marker, in order |
| Kiran.PutAllSnoc | core/services/kiran/__init__.py:42-59 | storing one more value is a dict assignment under its number |
| Kiran.PutAllNew | core/services/kiran/__init__.py:42-59 | values with new, distinct numbers are listed after the old keys, in order |
| Kiran.RowsOf | core/services/kiran/__init__.py:84-97 | one row per key, in key order |
| Kiran.RowsSpec | core/services/kiran/__init__.py:85-94 | a row carries its key's number, question and options a-d ('' when missing); answer and explanation are present exactly when that number has an explanation, the answer lowered |
| Kiran.StoreConsecutive | core/services/kiran/__init__.py:29-63 | each value the consecutive filter accepts is stored under its number, the others skipped |
| Kiran.Extractor.constructor | core/services/kiran/__init__.py:7-13 | empty text, dicts and rows |
| Kiran.Extractor.ProcessQuestions | core/services/kiran/__init__.py:27-47 | the kept matches' questions are stored under their numbers; nothing else changes |
| Kiran.Extractor.ProcessExplanation | core/services/kiran/__init__.py:49-63 | the kept markers' lowered answers and explanations are stored under their numbers; nothing else changes |
| Kiran.Extractor.GetMcqs | core/services/kiran/__init__.py:83-97 | the rows are those of the stored questions, in dict order |
| Kiran.Extractor.Run | core/services/kiran/__init__.py:99-103 | the text is the extracted one; questions, explanations and rows follow from it in that order |
| Kiran.KeptDistinct | core/services/kiran/__init__.py:32-47 | with no question numbered 0, no two kept matches share a number |
| Kiran.FreshRows | core/services/kiran/__init__.py:27-97 | on a fresh extractor with no question 0, one row per kept question, in text order, numbered consecutively |
| Kiran.FreshRowsOf | core/services/kiran/__init__.py:83-97 | the rows of a fresh dict of consecutive questions follow those questions |
| Kiran.FreshDict | core/services/kiran/__init__.py:42 | a fresh dict of consecutive questions lists their numbers in order, each mapped to its question |
| Kiran.ConsecutiveDistinct | core/services/kiran/__init__.py:34 | consecutive numbers are distinct |
| Kiran.StoredAll | core/services/kiran/__init__.py:42-59 | with distinct numbers, every value is stored under its number |
| Kiran.RowsFollow | core/services/kiran/__init__.py:84-97 | rows for keys looking up given questions follow those questions and their numbers |
| Kiran.KeptStored | core/services/kiran/__init__.py:42-59 | with distinct numbers, each value is what its number maps to |
| Vision.OccursInSlice | vision.py:27-29 | a footer found in a slice is found in the text at the shifted position |
| Vision.SliceFree | vision.py:28-29 | the part before the first footer holds no footer |
| Vision.StripFree | vision.py:29 | stripping cannot bring a footer in |
| Vision.CutCopyright | vision.py:27-29 | with the footer, the stripped text before its first occurrence; without, the text unchanged; no footer is ever left |
| Vision.QuestionText | vision.py:26-29 | the question text is stripped and free of the footer |
| Vision.LetterRemovalKeepsOptions | vision.py:57-63 | as written the removal pattern `^[a-f]\)` never matches a `(x)` option line, so every option line stays where it was |
| Vision.OptionLeftInQuestion | vision.py:26-63 | for the question "Q" with option "(a) one", the option is taken, and as written its line stays in the question text; the corrected question text is "Q" |
| Vision.QuestionOfRemovesOptions | vision.py:30-37 | the corrected question: options are those of the `(x)` lines, in order, each under its letter, and every option line is emptied from its text, other lines kept |
| Vision.Parsed | vision.py:26-37 | one question per match, in order, each with its match's number and the question text as written: cut at the footer, `x) text` lines emptied, `(x) text` lines kept |
| Vision.RowsOf | vision.py:76-85 | one row per stored question, in key order, holding question, option a, answer and explanation |
| Vision.RowsSpec | vision.py:79-82 | a row holds its question's text and first option ('' when none); answer and explanation are present exactly when that number has an explanation |
| Vision.Extractor.constructor | vision.py:8-12 | empty dicts and rows |
| Vision.Extractor.ProcessQuestions | vision.py:14-38 | the consecutively numbered matches' questions, cut at the footer and with the `x) text` lines emptied, are stored under their numbers; nothing else changes |
| Vision.Extractor.ProcessExplanation | vision.py:40-74 | the consecutively numbered markers' lowered answers and explanations, each ending where the tail search first matches, are stored under their numbers; nothing else changes |
| Vision.Extractor.GetMcqs | vision.py:76-85 | the rows are those of the stored questions, in dict order |
| Vision.Extractor.Run | vision.py:87-91 | questions, explanations and rows follow from the extracted text, in that order |
| Vision.FreshRows | vision.py:19-85 | on a fresh extractor with no question 0, one row per kept question, in text order, numbered consecutively |
| PdfMcq.Squash | core/pdf.py:24 | squashing never lengthens a text, keeps it non-empty, and turns a leading whitespace into one space |
| PdfMcq.SquashSpaced | core/pdf.py:24 | after `re.sub(r'\s+', ' ', …)` the only whitespace is single spaces |
| PdfMcq.SquashVisible | core/pdf.py:24 | squashing keeps every visible character, in order |
| PdfMcq.SquashFixed | core/pdf.py:24 | text already single-spaced is left alone |
| PdfMcq.SquashNewlines | core/pdf.py:22-24 | replacing newlines by spaces first makes no difference |
| PdfMcq.SpacedSlice | core/pdf.py:24 | a slice of single-spaced text is single-spaced |
| PdfMcq.CleanSpec | core/pdf.py:20-26 | empty text is stored unchanged; otherwise the stored text neither starts nor ends with whitespace and holds only single spaces |
| PdfMcq.CleanNewlines | core/pdf.py:20-24 | the newline replacement adds nothing to the squash |
| PdfMcq.CleanVisible | core/pdf.py:20-24 | cleaning keeps every visible character, in order |
| PdfMcq.StripEdges | core/pdf.py:24 | a non-empty stripped text begins and ends with a visible character |
| PdfMcq.CleanIdempotent | core/pdf.py:20-24 | cleaning twice is cleaning once |
| PdfMcq.Range | core/pdf.py:14 | `range(n)` is 0 … n-1 |
| PdfMcq.PagesRead | core/pdf.py:15-26 | a successful read gives a well-formed dict |
| PdfMcq.Extracted | core/pdf.py:10-33 | a result only when the document opens |
| PdfMcq.PagesReadSpec | core/pdf.py:14-31 | reading succeeds exactly when every page asked for exists; each page is then a key once, in first-asked order, holding its cleaned text |
| PdfMcq.ExtractText | core/pdf.py:10-33 | the pages asked for, or every page, read in order; `None` when the document does not open or a page is out of range |
| PdfMcq.ReadPages | core/pdf.py:15-27 | the loop over the target pages gives what reading them in order gives: each page's cleaned text under its number, `None` once a page is out of range |
| PdfMcq.ReadPage | core/pdf.py:16-27 | one page: its text, when not empty, with newlines made spaces, whitespace runs squashed and stripped, stored under its number; `None` when it is out of range |
| PdfMcq.Records | core/pdf.py:46-56 | one record per match, in order |
| PdfMcq.RecordSpec | core/pdf.py:48-55 | the question is the stem and options (1)-(3), stripped and space-separated; `a` is the stem and `b`-`d` the options |
| PdfMcq.Join3 | core/pdf.py:51 | joining three pieces puts the separator between them |
| PdfMcq.Answers | core/pdf.py:63-65 | the answer table is a well-formed dict |
| PdfMcq.AnswersKeys | core/pdf.py:63-65 | every question number matched is a key once, in first-seen order |
| PdfMcq.AnswersLast | core/pdf.py:64-65 | each number holds the answer of its last match |
| PdfMcq.ExpectedCount | core/pdf.py:91-104 | the expected number moves one per record and one more for each skip-listed number |
| PdfMcq.SerialWithoutSkips | core/pdf.py:84-104 | without skip-listed numbers the two order checks agree: both pass exactly when record `i` is numbered `i + 1` |
| PdfMcq.NoSkips | core/pdf.py:93 | records off the skip list count no skips |
| PdfMcq.Extractor.constructor | core/pdf.py:37-39 | no records and no answer table |
| PdfMcq.Extractor.ProcessMcqs | core/pdf.py:41-56 | the match records are appended in order; the answer table is untouched |
| PdfMcq.Extractor.ProcessAnswers | core/pdf.py:58-65 | the answer table is rebuilt from the matches; the records are untouched |
| PdfMcq.Extractor.ValidateSerial | core/pdf.py:90-104 | passes exactly when every record is skip-listed or numbered as expected; otherwise it raises at the first that is not, naming the number expected there |
| PdfMcq.Extractor.ValidateAnswerOrder | core/pdf.py:84-88 | passes exactly when record `i` is numbered `i + 1` for every `i`; otherwise it raises at the first position where not |
| PdfMcq.Extractor.ProcessPages | core/pdf.py:74-75 | the records of each page are appended, page after page |
| PdfMcq.Extractor.Run | core/pdf.py:72-78 | fails without changing the records when no text could be extracted; otherwise appends every page's records and returns them exactly when the serial check passes, else fails naming the first record out of order and the number expected there |
| PdfMcq.AllRecordsStep | core/pdf.py:74-75 | one more page appends its records |
| PdfMcq.MatchesOf | core/pdf.py:46 | the matches of each page, page by page |
| Dggca.PairCons | recipe/dggca/__init__.py:20-27 | the neighbouring pairs of a string with a character in front: those of the rest and the one across the join |
| Dggca.PairInSlice | recipe/dggca/__init__.py:28 | a neighbouring pair inside a slice is one of the whole string |
| Dggca.PairInSuffix | recipe/dggca/__init__.py:28 | a neighbouring pair of a suffix is one of the whole string |
| Dggca.PairSpaced | recipe/dggca/__init__.py:23 | the pairs a space inserted between two characters can create |
| Dggca.RemoveMarks | recipe/dggca/__init__.py:18 | no U+202A-U+202E mark is left and nothing new is added |
| Dggca.RemoveMarksCount | recipe/dggca/__init__.py:18 | every other character is kept as often as it occurs |
| Dggca.RemoveMarksFixed | recipe/dggca/__init__.py:18 | a text without marks is left alone |
| Dggca.SkipClass | recipe/dggca/__init__.py:20-21 | skipping a run leaves a suffix that does not start inside the class |
| Dggca.Collapse | recipe/dggca/__init__.py:20-21 | `re.sub('[…]+', rep, …)`: empty exactly when the input is, every character the replacement or from the input, a leading run replaced |
| Dggca.CollapseRuns | recipe/dggca/__init__.py:20-21 | after collapsing, the only class character left is the replacement and never twice in a row |
| Dggca.CollapsePairs | recipe/dggca/__init__.py:20-21 | pairs outside the class come from the input |
| Dggca.SkipClassVisible | recipe/dggca/__init__.py:20-21 | skipping whitespace keeps the visible text |
| Dggca.CollapseVisible | recipe/dggca/__init__.py:20-21 | collapsing whitespace into whitespace keeps the visible text |
| Dggca.SplitCamel | recipe/dggca/__init__.py:23 | only spaces are inserted, and the first character stays first |
| Dggca.SplitCamelPairs | recipe/dggca/__init__.py:23 | the only new neighbours are a word character before a space and a space before a capital |
| Dggca.SplitCamelVisible | recipe/dggca/__init__.py:23 | splitting merged words keeps the visible text |
| Dggca.SpacedVisible | recipe/dggca/__init__.py:23 | a space between a word character and a capital is not visible |
| Dggca.SplitCamelExample | recipe/dggca/__init__.py:23 | the match consumes the capital: `ABC` becomes `A BC`, not `A B C` |
| Dggca.DropSpaceBefore | recipe/dggca/__init__.py:25-27 | `replace(' ' + c, c)` removes characters only, left to right |
| Dggca.DropSpacePairs | recipe/dggca/__init__.py:25-27 | the only new neighbours end in `c` |
| Dggca.DropSpaceGone | recipe/dggca/__init__.py:25-27 | with no double spaces, no space is left before `c` |
| Dggca.DropSpaceVisible | recipe/dggca/__init__.py:25-27 | only spaces are removed |
| Dggca.CollapsedTidy | recipe/dggca/__init__.py:18-21 | after the mark removal and the two collapses: no tab, no mark, no double space, no double newline |
| Dggca.SplitCamelTidy | recipe/dggca/__init__.py:23 | splitting merged words keeps the text tidy |
| Dggca.DropSpaceTidy | recipe/dggca/__init__.py:25-27 | the punctuation replacements keep the text tidy |
| Dggca.DropSpaceKeeps | recipe/dggca/__init__.py:25-27 | a later replacement does not undo an earlier one |
| Dggca.StripPairs | recipe/dggca/__init__.py:28 | stripping creates no neighbours |
| Dggca.StripTidy | recipe/dggca/__init__.py:28 | stripping keeps a tidy, punctuated text so |
| Dggca.PunctuationSpec | recipe/dggca/__init__.py:25-27 | after the four replacements no space stands before `.`, `,`, `(` or `)` and the text stays tidy |
| Dggca.NormalizedSpec | recipe/dggca/__init__.py:15-28 | the normalised text has no tab, no mark, no double space or newline, no space before `.` `,` `(` `)`, and no whitespace at either end |
| Dggca.NormalizedVisible | recipe/dggca/__init__.py:15-28 | apart from the marks, normalising changes whitespace only |
| Dggca.RawSegments | recipe/dggca/__init__.py:44-50 | one raw segment per date match |
| Dggca.TilePrefix | recipe/dggca/__init__.py:44-50 | the first `k` raw segments are the text from the first date line to the end of segment `k` |
| Dggca.SegmentsTile | recipe/dggca/__init__.py:35-53 | from the first date line on the segments tile the text, each stripped and dated |
| Dggca.SegmentStartsWithDate | recipe/dggca/__init__.py:45-50 | each segment starts with its own date line |
| Dggca.SplitDates | recipe/dggca/__init__.py:35-53 | nothing without a date line; otherwise one `(date, stripped text up to the next date line)` per date line |
| Dggca.QuestionOfSpec | recipe/dggca/__init__.py:69-81 | every field stripped, the answer lower case, a blank explanation `None`, the segment's date and the source attached |
| Dggca.AnswerLetter | recipe/dggca/__init__.py:62-78 | the captured letter A-D becomes a-d |
| Dggca.QuestionsOf | recipe/dggca/__init__.py:67-81 | one record per match |
| Dggca.AllQuestionsStep | src/recipes/dggca_recipe.py:15-17 | one more segment appends its records |
| Dggca.AllQuestionsDated | recipe/dggca/__init__.py:30-33 | every record comes from some segment and carries its date and the source |
| Dggca.ExtractQuestions | src/recipes/dggca_recipe.py:55-83 | the records of the segment's matches, in order |
| Dggca.Parse | src/recipes/dggca_recipe.py:11-18 | the records of every segment of the normalised text, in date order |
| Dggca.QuestionParser.constructor | recipe/dggca/__init__.py:8-13 | the text stored normalised, no records, the source kept |
| Dggca.QuestionParser.ExtractQuestions | recipe/dggca/__init__.py:55-81 | the segment's records are appended; text and source unchanged |
| Dggca.QuestionParser.Parse | recipe/dggca/__init__.py:30-33 | the records of every segment are appended in date order |
| Krushna.HeadedBodies | src/recipes/agriculture/krushna_pyq.py:27 | one heading-and-body piece per heading |
| Krushna.TilePrefix | src/recipes/agriculture/krushna_pyq.py:27 | the first `k` pieces are the text from the first heading to the end of piece `k` |
| Krushna.BodiesTile | src/recipes/agriculture/krushna_pyq.py:27-42 | from the first heading on, headings and bodies tile the text |
| Krushna.SplitFrom | src/recipes/agriculture/krushna_pyq.py:27 | three items per heading from `i` on |
| Krushna.ReSplit | src/recipes/agriculture/krushna_pyq.py:27 | `re.split` with two groups gives the head and three items per heading |
| Krushna.SplitFromAt | src/recipes/agriculture/krushna_pyq.py:27 | the items of heading `k` are its number, its title and its body |
| Krushna.SplitUnitsSpec | src/recipes/agriculture/krushna_pyq.py:26-28 | one unit per `UNIT-n title` line, in order: its number, stripped title and unstripped text to the next heading; the text before the first is dropped |
| Krushna.Subunits | src/recipes/agriculture/krushna_pyq.py:30-45 | one sub-unit per heading match |
| Krushna.SplitSubunits | src/recipes/agriculture/krushna_pyq.py:30-45 | the loop builds exactly the sub-units of the heading matches |
| Krushna.SubunitsSpec | src/recipes/agriculture/krushna_pyq.py:36-42 | each sub-unit's text is its body up to the next match, stripped, and the bodies tile the unit |
| Krushna.IntGroup | src/recipes/agriculture/krushna_pyq.py:61-64 | a number exactly when the group matched with text |
| Krushna.TextGroup | src/recipes/agriculture/krushna_pyq.py:63 | the group's text exactly when it matched with text, else `None` |
| Krushna.FullQuestionJoin | src/recipes/agriculture/krushna_pyq.py:60-75 | a non-blank first line is followed directly, without separator, by the stripped rest |
| Krushna.QuestionAtSpec | src/recipes/agriculture/krushna_pyq.py:58-86 | each record carries its unit and sub-unit; marks, words and year are numbers exactly when matched; the exam is `CSE`, `IFoS` or `None`; the question is stripped |
| Krushna.QuestionsOf | src/recipes/agriculture/krushna_pyq.py:55-86 | one record per question match |
| Krushna.SubunitQuestionsTagged | src/recipes/agriculture/krushna_pyq.py:21-24 | every record of a unit names that unit and one of its sub-units |
| Krushna.UnitQuestionsTagged | src/recipes/agriculture/krushna_pyq.py:16-24 | every record names one of the units and one of that unit's sub-units |
| Krushna.TaggedPrefix | src/recipes/agriculture/krushna_pyq.py:18 | a tag among the first units is a tag among all |
| Krushna.TaggedLast | src/recipes/agriculture/krushna_pyq.py:18 | a tag from the last unit is a tag among all |
| Krushna.SubunitQuestionsStep | src/recipes/agriculture/krushna_pyq.py:21-24 | one more sub-unit appends its records |
| Krushna.UnitQuestionsStep | src/recipes/agriculture/krushna_pyq.py:18-24 | one more unit appends its records |
| Krushna.QuestionParser.constructor | src/recipes/agriculture/krushna_pyq.py:7-11 | the text stored, unit and sub-unit empty, no records |
| Krushna.QuestionParser.ExtractQuestions | src/recipes/agriculture/krushna_pyq.py:47-88 | the sub-unit's records are appended in match order |
| Krushna.QuestionParser.ExtractUnit | src/recipes/agriculture/krushna_pyq.py:20-24 | the records of every sub-unit of the unit are appended in order |
| Krushna.QuestionParser.ParseQuestions | src/recipes/agriculture/krushna_pyq.py:16-24 | records appended unit after unit, sub-unit after sub-unit, question after question |
| Krushna.QuestionParser.Parse | src/recipes/agriculture/krushna_pyq.py:13-14 | `parse_questions` over the stored text |
| Arihant.PyInt | recipe/arihant/__init__.py:11 | `int` accepts only text with something other than whitespace in it |
| Arihant.PyIntDigits | recipe/arihant/__init__.py:11 | a run of digits reads as its decimal value |
| Arihant.SubjectOfSpec | recipe/arihant/__init__.py:11 | a good row has four cells with whole numbers in cells 2 and 3; its name is `row[0] - row[1]`, and page index `i` is in its range exactly when `start <= i + 1 <= end` |
| Arihant.SubjectsOfSpec | recipe/arihant/__init__.py:9-11 | the list is built exactly when every row is good, and then holds one subject per row, in order |
| Arihant.SubjectsOfFirstError | recipe/arihant/__init__.py:11 | a bad row stops the reading with the error of the first bad row |
| Arihant.Stored | recipe/arihant/__init__.py:31-45 | the question dict stays well formed |
| Arihant.StoredKeys | recipe/arihant/__init__.py:31-45 | the numbers stored are the old ones, then the new ones in first-seen order |
| Arihant.StoredSnoc | recipe/arihant/__init__.py:41-45 | one more match is a dict assignment under its number |
| Arihant.StoredLast | recipe/arihant/__init__.py:41-45 | a number holds the stripped question and options of its last match |
| Arihant.StoredUntouched | recipe/arihant/__init__.py:41-45 | a number no match has keeps its old question |
| Arihant.StoredNumbered | recipe/arihant/__init__.py:41-43 | every question stays under its own number |
| Arihant.Answered | recipe/arihant/__init__.py:51-56 | the answer dict stays well formed |
| Arihant.AnsweredHas | recipe/arihant/__init__.py:51-56 | a number has an answer exactly when it had one, or has a question and an answer match |
| Arihant.AnsweredLast | recipe/arihant/__init__.py:53-56 | a number's answer is the lowered character of its last answer match |
| Arihant.AnsweredOneChar | recipe/arihant/__init__.py:48-53 | every recorded answer is one character |
| Arihant.Rows | recipe/arihant/__init__.py:58-72 | one row per stored question |
| Arihant.RunRowsNumbers | recipe/arihant/__init__.py:31-72 | the rows of a run are numbered by the distinct question numbers, in first-seen order |
| Arihant.RunRowQuestion | recipe/arihant/__init__.py:41-68 | a row carries its number's last question and options, stripped, with the source and subject |
| Arihant.RunRowAnswer | recipe/arihant/__init__.py:55-69 | a row has an answer exactly when some answer match carries its number; otherwise it is `''` |
| Arihant.Extractor.constructor | recipe/arihant/__init__.py:16-22 | empty dicts and rows; the source defaults to 'Arihant 14000 MCQs' |
| Arihant.Extractor.ProcessQuestions | recipe/arihant/__init__.py:24-45 | each match stored under its number; nothing else changes |
| Arihant.Extractor.ProcessExplanation | recipe/arihant/__init__.py:47-56 | answers recorded for numbers with a question; nothing else changes |
| Arihant.Extractor.GetMcqs | recipe/arihant/__init__.py:58-72 | the rows of the stored questions, with '' for a missing answer |
| Arihant.Extractor.Run | recipe/arihant/__init__.py:74-79 | questions, answers and rows follow from the extracted text, in that order |
| Arihant.RunLength | recipe/arihant/index.py:12 | a greedy run: every character in it satisfies the test and the next one does not |
| Arihant.MatchAfter | recipe/arihant/index.py:12 | a match after a category of length `k` takes exactly the first `k` characters as category |
| Arihant.LazyMatchSpec | recipe/arihant/index.py:12 | the lazy `(.+?)` takes the shortest category after which `\s+(\d+)-(\d+)` matches |
| Arihant.LazyMatchNone | recipe/arihant/index.py:12-13 | no match means no category without a newline is followed by spaces and a page range |
| Arihant.MatchAfterSpec | recipe/arihant/index.py:12 | the page numbers are runs of digits, the category followed by whitespace |
| Arihant.ProcessTextFile | recipe/arihant/index.py:4-17 | the header, then one line per matching input line, in input order |
| Arihant.ConvertedAllSize | recipe/arihant/index.py:7-17 | at most one output line per input line, none for a blank one |
| Arihant.IndexLineExample | recipe/arihant/index.py:12-17 | text after the page range is ignored |
| ExamBot.StripAll | recipe/exambot/scrape.py:37-40 | each argument stripped, in order |
| ExamBot.OnclickArgs | recipe/exambot/scrape.py:37-40 | at least one argument when there is one at all |
| ExamBot.SplitOpenParen | recipe/exambot/scrape.py:39 | `split("(")[1]` exists exactly when the onclick holds a `(` |
| ExamBot.OnclickArgsOk | recipe/exambot/scrape.py:37-40 | the arguments are read exactly when the onclick holds a `(`; otherwise `IndexError` |
| ExamBot.OnclickArgsInner | recipe/exambot/scrape.py:39 | the arguments are the text after the first `(`, up to the next `(` or `)` or the end, split on `,` and stripped |
| ExamBot.BracketedJoin | recipe/exambot/scrape.py:39 | how the pieces around the parentheses fit together |
| ExamBot.OpenParenPieces | recipe/exambot/scrape.py:39 | the pieces around the first `(` |
| ExamBot.CloseParenPieces | recipe/exambot/scrape.py:39 | the piece up to the first `)` |
| ExamBot.NoCharInFree | recipe/exambot/scrape.py:39 | a piece free of a one-character separator lacks that character |
| ExamBot.CollectedSnoc | recipe/exambot/scrape.py:30-43 | one more radio: the loop stops at its error, or appends its option and takes its correct option |
| ExamBot.CollectedOk | recipe/exambot/scrape.py:30-43 | the loop succeeds exactly when every radio does |
| ExamBot.CollectedValue | recipe/exambot/scrape.py:27-43 | one option per radio, in page order; the correct option is the last radio's last argument, `None` without radios |
| ExamBot.RadioOfSpec | recipe/exambot/scrape.py:31-43 | a radio with a label and a `(` in its onclick gives its value, label and last stripped argument; otherwise it raises |
| ExamBot.NoContentSpec | recipe/exambot/scrape.py:10-20 | without `div.content-inner` only `html` is set, to the whole page |
| ExamBot.ContentSpec | recipe/exambot/scrape.py:21-55 | with content, every field but `html` is set; a missing element's text is `''`; options and correct option come from the radio loop |
| ExamBot.ParsePage | recipe/exambot/scrape.py:9-57 | the loop's record is the parsed one |
| ExamBot.CollectedErr | recipe/exambot/scrape.py:30-43 | an error among the first radios is the error of the whole loop |
| Iasscore.Copies | recipe/iasscore/__init__.py:37-40 | one copy of the topic per piece, its subtheme the stripped piece |
| Iasscore.RemoveFirst | recipe/iasscore/__init__.py:36 | `list.remove` takes out exactly one element |
| Iasscore.RemoveFirstAfter | recipe/iasscore/__init__.py:36 | an element not among the first ones is removed at its own place |
| Iasscore.TopicList.constructor | recipe/iasscore/__init__.py:31 | the list holds the topics given |
| Iasscore.TopicList.ConvertSplittingThemes | recipe/iasscore/__init__.py:31-41 | the list becomes the unsplit topics in their order, then the copies of the split ones in theirs |
| Iasscore.VisitedAll | recipe/iasscore/__init__.py:41 | after the last topic, extending by the copies gives the converted list |
| Iasscore.VisitTopic | recipe/iasscore/__init__.py:33-40 | one pass removes a split topic and appends its copies, and leaves an unsplit one in place |
| Iasscore.AppendCopies | recipe/iasscore/__init__.py:37-40 | one copy per piece appended, in order |
| Iasscore.KeptStep | recipe/iasscore/__init__.py:33-36 | one more topic: kept at the end when unsplit, dropped and copied when split |
| Iasscore.ConvertStep | recipe/iasscore/__init__.py:33-36 | during the loop the list is the kept topics so far, then the topics not yet visited |
| Iasscore.SplitCopiesCount | recipe/iasscore/__init__.py:34-35 | a subtheme with `k` line breaks gives `k + 1` copies |
| Iasscore.SplitCopiesSpec | recipe/iasscore/__init__.py:35-39 | each copy keeps every other field, its subtheme is a stripped line of the original, without a line break |
| Iasscore.LineFree | recipe/iasscore/__init__.py:35-39 | a stripped piece of a split on line breaks has none |
| Iasscore.CopiesOfUnsplit | recipe/iasscore/__init__.py:35-40 | no copy has a line break in its subtheme |
| Iasscore.ConvertedSpec | recipe/iasscore/__init__.py:31-41 | afterwards no subtheme has a line break; unsplit topics, those without a subtheme included, come first in their original order |
| Iasscore.ConvertedIdempotent | recipe/iasscore/__init__.py:31-41 | converting a second time changes nothing |
| Iasscore.NoCopies | recipe/iasscore/__init__.py:34 | only topics with line breaks make copies |
| Iasscore.KeptAll | recipe/iasscore/__init__.py:34 | without line breaks every topic stays as it is |
| CurrentAffairs.GetUrlSpec | src/recipes/insights/current_affairs_quiz.py:78-94 | a missing file gives `[]`; no bounds give every line; bounds `1 <= start`, `end <= len` give lines `start`..`end`, counted from 1 |
| CurrentAffairs.AddedUnique | src/recipes/insights/current_affairs_quiz.py:134-141 | the new URLs are the scraped ones not known before, each once, in first-scraped order |
| CurrentAffairs.FilterUnknownSnoc | src/recipes/insights/current_affairs_quiz.py:134-138 | one more scraped URL passes the filter exactly when it is not known |
| CurrentAffairs.UniqueUnknownSnoc | src/recipes/insights/current_affairs_quiz.py:136-141 | one more URL is added exactly when neither known nor added already |
| CurrentAffairs.AddedSpec | src/recipes/insights/current_affairs_quiz.py:134-141 | a URL is added exactly when it was scraped and not known, and never twice |
| CurrentAffairs.UrlCsvSpec | src/recipes/insights/current_affairs_quiz.py:113-155 | the file is rewritten exactly when some scraped URL was not known, and then with every known and every scraped URL once |
| CurrentAffairs.AddedElements | src/recipes/insights/current_affairs_quiz.py:139-150 | the known set grown by the new URLs is the known set with every scraped URL |
| CurrentAffairs.MissingFileKnowsNothing | src/recipes/insights/current_affairs_quiz.py:122-123 | a missing URL file reads as nothing known, so every scraped URL is new |
| CurrentAffairs.FilterAll | src/recipes/insights/current_affairs_quiz.py:135-137 | with nothing known every URL passes |
| CurrentAffairs.GetUrlCsv | src/recipes/insights/current_affairs_quiz.py:97-159 | the loop gives exactly the new URLs and the rewrite, or fails on an empty row |
| CurrentAffairs.AddPage | src/recipes/insights/current_affairs_quiz.py:134-141 | after a page, the new URLs are those of all pages so far and the set holds the known ones and them |
| CurrentAffairs.AddUrl | src/recipes/insights/current_affairs_quiz.py:138-141 | a URL is appended exactly when neither known nor appended before, and the set keeps holding the known URLs and the appended ones |
| CurrentAffairs.KnownUrlsErr | src/recipes/insights/current_affairs_quiz.py:120-121 | an empty row stops the reading |
| CurrentAffairs.UrlStore.constructor | src/recipes/insights/current_affairs_quiz.py:55-56 | the table holds the rows given |
| CurrentAffairs.UrlStore.Insert | src/recipes/insights/current_affairs_quiz.py:75 | the row is appended |
| CurrentAffairs.UrlsOfSnoc | src/recipes/insights/current_affairs_quiz.py:70-75 | one more row adds its URL to those stored |
| CurrentAffairs.Fetched | src/recipes/insights/current_affairs_quiz.py:72-75 | one row per new URL, with the page fetched for it |
| CurrentAffairs.HtmlToDb | src/recipes/insights/current_affairs_quiz.py:53-75 | every URL not stored yet is fetched and stored once, in order; stored URLs are skipped |
| CurrentAffairs.StoreUrl | src/recipes/insights/current_affairs_quiz.py:70-75 | one URL: fetched and stored exactly when the table does not hold it yet, so the table keeps one row per new URL, in order |
| CurrentAffairs.HtmlToDbDistinct | src/recipes/insights/current_affairs_quiz.py:70-75 | stored URLs stay distinct |
| CurrentAffairs.PageRows | src/recipes/insights/current_affairs_quiz.py:38-50 | one row per question of the page, in order |
| CurrentAffairs.RowOfSpec | src/recipes/insights/current_affairs_quiz.py:26-50 | every row has the ten header columns: the question's fields, `''` when missing, then the page URL |
| CurrentAffairs.AllRowsSpec | src/recipes/insights/current_affairs_quiz.py:29-50 | one row per question of every page; pages without questions give none; every row ends with the URL of a page with questions |
| CurrentAffairs.ToCsv | src/recipes/insights/current_affairs_quiz.py:19-50 | the header, then the rows of each page in order |
| Cli.OrDefault | src/main.py:47-48 | an absent or empty argument gives the default, a non-empty one is used as given |
| Cli.FilesDefaults | src/main.py:47-48 | without `--format` the run goes ahead; the defaults stand in for missing paths and given paths are used |
| Cli.OutputFileSpec | src/main.py:51-56 | with a format the output ends in a suffix of that format; it is kept exactly when its lower-cased suffix matches; otherwise only its suffix changes, failing only for an empty name |
| Cli.NoFormatUnchanged | src/main.py:51 | without `--format` the output path is left alone |
| Cli.OutputFileIdempotent | src/main.py:51-56 | forcing the format again changes nothing |
| Cli.ExitStatusSpec | src/main.py:44-70 | the exit status is 0 exactly when the output path can be formed and the plugin does not raise, else 1 |
| Cli.ForcedValid | src/main.py:54-56 | `.xlsx` and `.csv` are valid suffixes |
| Cli.ForcedMatches | src/main.py:53-56 | a path given the forced suffix matches its format |
| Cli.ForcedLower | src/main.py:53-56 | the forced suffixes are already lower case |
| Dedup.KeepFirstByKeys | src/scripts/deduplicate_excel.py:62 | `drop_duplicates(keep='first')` loses no key and adds none |
| Dedup.KeepFirstByDistinct | src/scripts/deduplicate_excel.py:62 | no two kept rows share a key |
| Dedup.KeepFirstByCount | src/scripts/deduplicate_excel.py:47-62 | every row is either kept or counted by `duplicated(keep='first')` |
| Dedup.KeepFirstByNoDuplicates | src/scripts/deduplicate_excel.py:47-50 | rows with distinct keys are all kept and none counted as duplicate |
| Dedup.KeepFirstByFull | src/scripts/deduplicate_excel.py:62 | nothing dropped means nothing changed |
| Dedup.UniqueSpec | src/scripts/fill_rapl.py:69 | `unique()` keeps exactly the values present, each once |
| Dedup.UniqueSnoc | src/recipes/gst_recipe.py:103 | one more value is listed last when new, ignored otherwise |
| Dedup.UniqueOfDistinct | src/scripts/fill_rapl.py:69 | distinct values come out of `unique()` unchanged |
| Dedup.Filter | src/scripts/fill_rapl.py:194 | a comprehension with `if` keeps exactly the elements that pass, in order |
| Dedup.Take | src/scripts/deduplicate_excel.py:55 | `xs[:n]` is the first `n` elements, or all of them when there are fewer |
| PyDict.Put | recipe/arihant/__init__.py:41-45 | `d[k] = v` maps `k` to `v`, keeps the dict well formed, and keeps the key order when `k` is present |
| PyDict.PutExistingKeepsOrder | recipe/arihant/__init__.py:41-45 | assigning to a present key changes neither the size nor the order, only its value |
| PyDict.Values | core/services/kiran/__init__.py:96 | `values()` follow insertion order |
| PyDict.Empty | core/services/kiran/__init__.py:10-11 | `{}` is well formed and empty |
| Text.LowerStr | src/scraper/plugins/gst.py:92 | `lower()` maps each character and leaves no capital |
| Text.Title | src/scraper/plugins/gst.py:30 | `title()` keeps the length |
| Text.Strip | src/scraper/plugins/gst.py:153 | `strip()` leaves no whitespace at either end and never lengthens |
| Text.StripIsSlice | src/scraper/plugins/gst.py:153 | what `strip()` keeps is one contiguous piece of the input |
| Text.StripIdempotent | src/scraper/plugins/gst.py:153 | stripping twice is stripping once |
| Text.BlankIffAllSpace | src/recipes/gst_recipe.py:38 | a string strips to nothing exactly when it is all whitespace |
| Text.Find | src/utils/scraper.py:124 | `find` gives the first occurrence, or none |
| Text.FindAfter | src/utils/scraper.py:125 | `find(sep, start)` gives the first occurrence at or after `start`, or none |
| Text.PyFind | src/utils/scraper.py:124-125 | -1 or an occurrence at or after `start` |
| Text.Split | src/scraper/plugins/gst.py:52 | `split` always gives at least one piece |
| Text.JoinSplit | src/scraper/plugins/gst.py:52 | joining the pieces of a split again gives the string back |
| Text.SplitJoin | src/scraper/plugins/gst.py:52 | splitting pieces joined by a separator they lack gives the pieces back |
| Text.SplitPiecesFree | recipe/iasscore/__init__.py:35 | no piece of a split holds the separator |
| Text.SplitCharCount | recipe/iasscore/__init__.py:35 | splitting on a character gives one more piece than it has occurrences |
| Text.PySlice | src/recipes/insights/current_affairs_quiz.py:90 | a Python slice never fails, and is the plain slice for bounds in range |
| Text.SliceBound | src/recipes/insights/current_affairs_quiz.py:90 | negative bounds count from the end, then are clamped to the length |
| Text.ReplaceChar | core/pdf.py:22 | `replace` of one character by another maps each position |
| Wrappers.SomesSpec | src/scripts/fill_rapl.py:68 | dropping the `None`s keeps exactly the present values |
| Arihant.LazyMatch | recipe/arihant/index.py:12 | a match found from `k` on is a match after a category of at least `k` characters |
| GstPlugin.Gstins | src/scraper/plugins/gst.py:150-155 | one GSTIN lookup per row |
| Insights.MicroTopicsUrls.constructor | src/utils/scraper.py:227-229 | the base URL stripped and no links yet |
| Insights.MicroTopics.constructor | src/utils/scraper.py:239-240 | the base URL stripped and no topics yet |
| Kiran.PutAll | core/services/kiran/__init__.py:42-59 | storing values by number keeps the dict well formed |

## Left out

- Input and output are not modelled. Reading and writing CSV, Excel, JSON, text files and SQLite, copying the backup, and creating directories all become values: rows, lines, or a map from path to rows.
- Logging, `print`, `tqdm` progress bars, `time.sleep` and the random delays, the user-agent header and the ETA arithmetic in `html_to_db` are left out. None of them changes a result, and the ETA is floating point.
- Regular-expression matching, HTML parsing and serialisation (BeautifulSoup, including `soup.prettify()`), PDF text extraction (`fitz`), `json.loads` and Unicode NFKC normalisation are inputs: the model works from their results.
  - Patterns that are small and whose handling is the point are modelled outright: the option-line pattern, the Arihant index-line pattern, and the normalisation substitutions.
- Character classes are approximated:
  - `\s`, `isspace` and `strip` use Python's whitespace set.
  - `\w`, `\d`, `isdigit`, `lower()` and `title()` are modelled on ASCII letters and digits only, with no Unicode case mapping.
- The `tenacity` retry decorators are left out: one fetch answers once.
- The thread pool of `fill_rapl.py` is sequentialised. The order in which lookups complete is an input, and the Ctrl+C handler is the completion index at which the loop first sees the shutdown flag.
- The lock and the random delay of the lookup service are not modelled; calls are sequential.
- `src/main.py` pieces are not modelled: argument parsing, `setup_logging`, and the body of the GST plugin.
  - The plugin is a flag saying whether it raised.
  - `--plugin` only accepts `gst`, so the "plugin not found" branch cannot be reached and is not modelled.
- `Paths`: paths are taken to be in the normal form `pathlib` prints back: no trailing '/', no '//' and no './' segments. `str(Path(p))` is then `p`.
- Kiran.OptionText: the option pattern `^\([a-f]\)\s*(.+)$` is read line by line. Its `\s*` can also run over the line break after a `(x)` that has nothing else on its line, and the model does not capture that case.
- Vision.QuestionAsWritten: the options come from `Kiran.OptionsOf`, so the same line-by-line reading of `\s*` applies to them. The removal pattern `^[a-f]\)\s*(.+)$` is read line by line too (`Vision.IsLetterLine`, `Vision.RemoveLetterLines`): a line holding only `x)` followed by a line of text, which the source removes together, is not captured.
- A question numbered 0 is stored like any other, after which the counter reads "nothing kept yet" (`Kiran.ZeroRestarts`); the same holds for `Vision`. This is the source's behaviour, kept as written.
- The debugging `print` in `vision.py` for the question after number 21 is left out.
- PdfMcq.ExtractText: page numbers are natural numbers. Python's negative indices into a document, and `fitz` errors other than a page out of range, are not modelled. A document that does not open is `None`.
- `to_json` in `core/pdf.py` is left out, and so is the `to_csv` of the Kiran, Vision, DGGCA, Krushna and Arihant extractors: each only writes its list out.
- `answer_dict` is an `Option` field: `None` before `process_answers` has run, because the attribute does not exist yet.
- Dggca.QuestionParser.constructor: it writes the normalised text to `input.txt`, and this model does not.
- Keyword arguments (`kwargs.get`) are modelled as `Option` values, with `None` meaning the key is absent and the default applies. A key passed explicitly as `None`, which `kwargs.get` returns as `None` rather than the default, is not modelled; `base_url` is always a string here.
- CurrentAffairs.GetUrlCsv: the list of start pages is empty in the source (every entry is commented out). It is a parameter here, given as the URL lists the `SecureQuizUrl` scraper collected from each page.
- CurrentAffairs.UrlCsvSpec: the rewritten file is modelled as the set of URLs it holds. The order in which Python iterates the set is not modelled.
- CurrentAffairs.ToCsv:
  - `main` only calls `to_csv`, which reads the table `scraped_html`, while `html_to_db` writes the table `current`.
  - The database is a list of rows, and `to_csv` is given the stored pages.
  - `html_to_db` is modelled on the `current` table.
- Iasscore.RemoveFirst: `list.remove` is used only on an element the list holds, as in the source, where the topic comes from a copy of the list.
- Iasscore.TopicList: topics have the shape the micro-topics scraper builds. Topics read back from `microtopics.json` with other keys are not modelled. The loading, scraping and `export_to_json` steps of `extract` are left out.
- ExamBot.RadioOf: `label.get_text(strip=True)` is the `labels` input function.
- `recipe/exambot/__init__.py` is not part of this model: its JSON array framing writes files only.
- Arihant.ProcessTextFile: cells are written without CSV quoting, as in the source; a category holding a comma therefore spans two columns.
- DedupExcel.ReportSpec: the report lists the first ten distinct duplicated GSTINs in first-seen order, while `value_counts` orders them by descending count, so which ten are listed can differ when there are more than ten; the counts and the "and N more" total agree.
- `src/core/interfaces.py`, `src/core/base_pdf.py`, `core/services/*`, `core/db.py`, `core/text.py` and the root `main.py` / `main_back.py` / `utils` are not part of this model: they are glue and entry points around the modelled core.
- `recipe/gst/__init__.back.py` and the logging and settings modules are not part of this model either.

## Findings

| source | as written | input that shows it | evidently intended | confidence | as-written member | corrected member |
|---|---|---|---|---|---|---|
| src/core/base_scraper.py:97 | `os.makedirs(os.path.dirname(output_path), exist_ok=True)` runs before the format check; for a bare file name `dirname` is `''` and `os.makedirs('')` raises | `save(data, "out.json")` | a bare file name is saved in the current directory | not executed | BaseScraper.SaveAsWritten, with BaseScraper.BareNameAlwaysFails and BaseScraper.BareNameFinding | BaseScraper.Save, with BaseScraper.SaveDispatch |
| src/scraper/plugins/gst.py:95, 116-123 | the append decision checks whether `output_file` exists, but an unrecognised extension writes to the `.csv` sibling, so every save after the first truncates it; the GSTINs already done are loaded from `output_file` too (line 134), so a second run scrapes every row again | output `out.txt`, two results saved in turn | each result after the first is appended to the `.csv` file | not executed | GstPlugin.ProcessData, with GstPlugin.ProcessOverwrites, GstPlugin.ResumeRescrapes, GstPlugin.SaveResultAsWritten and GstPlugin.UnrecognisedOverwrites | GstPlugin.SaveResult, with GstPlugin.IntendedTwice, GstPlugin.IntendedRun, GstPlugin.IntendedResume and GstPlugin.IntendedStored |
| vision.py:57-63 | options are taken from `(x) text` lines, but the removal pattern `^[a-f]\)` needs the line to start with the letter, so the option lines stay in the question text | a question "Q" followed by the line "(a) one" | the option lines are removed from the question text | not executed | Vision.QuestionAsWritten, with Vision.LetterRemovalKeepsOptions and Vision.OptionLeftInQuestion | Vision.QuestionOf, with Vision.QuestionOfRemovesOptions |
