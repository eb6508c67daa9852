# Task service and incident RAG tools — a verified model

This project models, in Dafny, the decision logic of three Python programs
from the `todo_app_react_py_server` repository:

- **The task service** (`api.py`). This is a Flask REST API over an SQLite `tasks` table.
  - `TaskApi` holds the request validation of `create_task` and `update_task`.
  - The class `TaskApi.TaskStore` holds the table: an id-keyed map plus the AUTOINCREMENT sequence `lastId`.
  - Its methods are the handlers: create, get, update, delete, list, stats and sample data.
  - The clock behind `CURRENT_TIMESTAMP` is a parameter `now`.
- **The incident pipeline** (`rag.py`), in module `IncidentRag`:
  - cleaning the incident table (mode fill, "Unknown" fill, de-duplication);
  - the key-phrase and embedding guards;
  - building the records to store;
  - reloading the `problem_table` store (class `ProblemTable`);
  - assembling the categorised final answer.
- **The bug RAG store** (`rag/rag2.py`):
  - `BugText` covers the typed embedding texts of a bug, the tier-level column lookup, and the hybrid-search conditions and parameters.
  - `BugStore` covers the `bugs` and `bug_embeddings` tables. Each transaction works on local copies and commits at the end. The id sequence is not rolled back. `store_bug` and `bulk_insert_bugs` are methods of the class `BugRagStore`.

Supporting modules:
- `Text` models the parts of Python's `str` that the code relies on:
  - `strip()` with Python's whitespace set;
  - string ordering, as used by pandas' sorted `mode()`;
  - `str(int)`;
  - `sep.join`.
- `Wrappers` has `Option` and `Result`.

Remote services are oracles passed in as functions:
- The chat model is `string -> ChatReply`, where `ChatFailed` stands for a raised exception.
- An embedding service is `string -> Option<V>`, where `None` stands for a raised exception.
- Vector values are the opaque type parameter `V`.

## Model

| member | source | states |
|---|---|---|
| TaskApi.ValidateCreate | api.py:108-131 | missing body or key gives 400 "task_detail is required"; a non-string detail or status gives 500; a non-blank detail with a stripped status outside the four gives 400 with the invalid-status message; passes exactly when the stripped detail is non-empty and the stripped status (default 'pending') is one of the four; the passed values are the stripped strings |
| TaskApi.ValidateUpdate | api.py:165-219 | empty body gives 400 before the 404 for a missing task; the detail is judged first: a non-string detail gives 500 and a blank one 400 "task_detail cannot be empty", whatever the status; only then a non-string status gives 500 and an invalid stripped status 400 with the invalid-status message; it passes exactly when the task exists, at least one field is supplied and every supplied field is valid, and then names exactly the supplied fields, stripped; no field gives 400 "No valid fields to update" |
| TaskApi.TaskStore.constructor | api.py:21-37 | a new table is empty with the sequence at 0 |
| TaskApi.TaskStore.Insert | api.py:136-142 | one row added under a fresh id larger than every earlier id, both timestamps `now`; nothing else changes |
| TaskApi.TaskStore.Create | api.py:104-153 | a rejected request leaves the table unchanged and answers the validation's rejection; otherwise exactly one row is added and returned with 201 |
| TaskApi.TaskStore.Get | api.py:76-96 | the stored row with 200, or 404 "Task not found" |
| TaskApi.TaskStore.Update | api.py:161-239 | any rejection leaves the table unchanged; otherwise only the supplied fields and `updated_at` of that row change |
| TaskApi.TaskStore.Delete | api.py:247-273 | 404 with the table unchanged, or exactly that row removed |
| TaskApi.TaskStore.List | api.py:47-68 | ids strictly descending; each listed row is a stored row matching the filter; every matching row is listed; `count` is the list length and the number of matching ids |
| TaskApi.ListingEntries | api.py:56-61 | every listed row is the stored, selected row under its own id |
| TaskApi.ListingSorted | api.py:57-59 | the listing is in strictly descending id order |
| TaskApi.ListingMembers | api.py:56-61 | every selected row is listed |
| TaskApi.ListingCount | api.py:56-61 | the listing has one entry per selected id |
| TaskApi.ListingStatusCount | api.py:290-296 | in the full listing a status occurs once per row having it |
| TaskApi.HistogramCount | api.py:290-298 | a status is a key of the grouped counts exactly when it occurs, with its number of rows |
| TaskApi.HistogramSum | api.py:290-301 | the grouped counts add up to the number of rows |
| TaskApi.TaskStore.Stats | api.py:283-311 | `total` is the row count; a status is a key exactly when some row has it, with the number of such rows; the counts sum to `total` |
| TaskApi.SampleRowsSpec | api.py:384-395 | sample task k gets id start+k+1 with its detail and status, and no other id is used |
| TaskApi.TaskStore.CreateSampleData | api.py:379-397 | a non-empty table is left as it is; an empty one gets the five sample tasks, in order, continuing the sequence |
| Text.Strip | api.py:116-117 | the result has no outer whitespace, is the middle of a blank-head/blank-tail split of the input, and is empty exactly for a blank input |
| Text.StripUnique | api.py:116-117 | stripping a core surrounded by whitespace gives that core |
| Text.StripOfStripped | api.py:116-117 | a string without outer whitespace is its own strip |
| Text.StripIdempotent | api.py:116-117 | stripping twice equals stripping once |
| Text.StrLeTotal | rag.py:31-35 | string order is total |
| Text.StrLeTransitive | rag.py:31-35 | string order is transitive |
| Text.StrLeAntisymmetric | rag.py:31-35 | string order is antisymmetric |
| Text.DecimalText | rag.py:185-186 | `str(n)` is non-empty decimal digits without a leading zero |
| Text.DecimalRoundTrip | rag.py:185-186 | reading the rendered digits back gives n |
| Text.JoinSnoc | rag.py:193 | joining one more part appends the separator and that part |
| Text.JoinStartsWithFirst | rag.py:193 | a join begins with its first part |
| Text.IntTextShape | rag.py:186 | `str(n)` of any integer: a leading minus sign exactly when n is negative, digits otherwise |
| Text.IntRoundTrip | rag.py:186 | reading a rendered integer back gives the integer, negative ids included |
| IncidentRag.Best | rag.py:31-35 | the chosen candidate has the highest count, and among equal counts it is the least string |
| IncidentRag.Mode | rag.py:31-35 | `mode()` is empty exactly for no values; otherwise the result is the first mode: most frequent, least among ties |
| IncidentRag.FirstModeUnique | rag.py:35 | the first mode is unique |
| IncidentRag.NonNull | rag.py:31 | the values pandas' `mode()` counts are exactly the non-missing cells, `''` included |
| IncidentRag.NonEmpty | rag.py:30-33 | the values the corrected mode counts are exactly the non-missing, non-empty cells |
| IncidentRag.FillTier | rag.py:37 | a missing or `''` tier becomes the mode; any other tier is kept |
| IncidentRag.FillText | rag.py:40-41 | a missing or `''` text becomes "Unknown"; any other text is kept; the result is never empty |
| IncidentRag.Clean | rag.py:37-41 | one cleaned row per input row, each cell filled as above |
| IncidentRag.DropDuplicates | rag.py:44-45 | no two kept rows share (close_notes, description); the same keys remain; the table does not grow |
| IncidentRag.DropDuplicatesKeepsFirst | rag.py:45 | each kept row is the first input row with its key, and kept rows are in input order |
| IncidentRag.DropDuplicatesOfUnique | rag.py:45 | a table with unique keys is left as it is |
| IncidentRag.DropDuplicatesIdempotent | rag.py:45 | de-duplicating twice equals de-duplicating once |
| IncidentRag.PreprocessAsWrittenSpec | rag.py:28-53 | as written: fails with the ValueError text exactly when every tier is missing; otherwise close notes and descriptions are non-empty, keys are unique, the table does not grow, and every tier is a value the column already held (`''` included) |
| IncidentRag.PreprocessSpec | rag.py:28-53 | corrected half of the first finding: fails with the ValueError text exactly when no tier is non-empty; otherwise every tier, close note and description is non-empty, keys are unique and the table does not grow |
| IncidentRag.PreprocessTiersFromColumn | rag.py:30-37 | corrected half: every cleaned tier is a non-empty value the column already held |
| IncidentRag.EmptyHeavyModes | rag.py:31-35 | on tiers '', '', 'x' pandas' mode is '' while the mode over non-empty values is 'x' |
| IncidentRag.PreprocessAsWrittenKeepsEmptyTier | rag.py:30-37 | as written, that table keeps all three rows and the first keeps an empty tier |
| IncidentRag.PreprocessFillsEmptyHeavy | rag.py:30-37 | with the corrected mode, every tier of that table becomes 'x' |
| IncidentRag.OnelineSolutionSummary | rag.py:67-94 | the model is called only for a non-blank string; the placeholder is returned for unusable input, a raised call or blank content; otherwise the stripped content is returned; the result is never blank |
| IncidentRag.GenerateVector | rag.py:97-106 | the embedding model is called only for a non-blank string, and then its answer (`None` for a raised call) is the result; any other input gives `None` |
| IncidentRag.IngestRowSpec | rag.py:240-252 | a row yields a record exactly when its description is usable and both embeddings exist; the summary is phrase + " " + description |
| IncidentRag.SummaryUsable | rag.py:242-246 | the summary always passes the embedding guard, because the phrase is never blank |
| IncidentRag.IngestAllAppend | rag.py:239-252 | ingestion is piecewise: records keep row order |
| IncidentRag.BuildRecords | rag.py:238-252 | the row loop yields the records of every row with both embeddings, in order, never more than the rows |
| IncidentRag.Inserted | rag.py:110-128 | no records are inserted when the delete raises, all of them without a fault, and those before the failing insert otherwise |
| IncidentRag.ProblemTable.StoreInSupabase | rag.py:109-128 | a raised delete leaves the table as it was; otherwise rows with id >= 0 are deleted, record i is stored under id i+1 with `is_valid`, and a raised insert stops the loop and keeps earlier rows |
| IncidentRag.ProblemTable.StoreCsvFile | rag.py:231-256 | preprocessing as written; its failure stores nothing; otherwise the built records are returned and stored as `StoreInSupabase` states |
| IncidentRag.ModeCategory | rag.py:170-171 | "Unknown" when every tier is missing, else pandas' first mode of the file's tiers |
| IncidentRag.Category | rag.py:173-176 | the top result's tier when truthy, else the fallback |
| IncidentRag.BlocksLayout | rag.py:183-191 | seven lines per result, in rank order, with rank, id, texts, category (fallback for an empty tier) and similarity |
| IncidentRag.ContextLinesLayout | rag.py:179-191 | the context opens with "Search Results:", then either the no-results line or 1 + 7n lines of blocks |
| IncidentRag.AnswerShape | rag.py:218-229 | the answer starts with "Resolution Category: <c>\n", then the stripped reply, the fixed guidance for a blank reply, or the fixed error text for a raised call |
| IncidentRag.GenerateFinalResponse | rag.py:168-229 | the loop builds the context of the results, any integer id included; the request carries the query and the joined context, which begins with the "Search Results:" header; the answer uses the chosen category |
| BugText.TierPart | rag/rag2.py:81-86 | a tier contributes nothing exactly when it is missing or empty |
| BugText.ResolutionTextParts | rag/rag2.py:80-86 | "Resolution: " and the notes, then one "Tier k: v" part per truthy tier, for k = 1, 2, 3 in that order |
| BugText.ResolutionTextLength | rag/rag2.py:80-86 | the text's length counts the notes and exactly the truthy tiers |
| BugText.CombinedTextParts | rag/rag2.py:90-92 | the product and description head, with the "Resolution: notes" part appended exactly when the notes are truthy |
| BugText.EmbeddingConfigsShape | rag/rag2.py:74-93 | description first, combined last, resolution between them exactly when the notes are truthy, so 2 or 3 configs; content types are distinct |
| BugText.TierColumn | rag/rag2.py:140-147 | ValueError "tier_level must be 1, 2, or 3" exactly for a level outside {1, 2, 3} |
| BugText.TierColumnHoldsTier | rag/rag2.py:140-153 | the column for level k is `resolution_tier_k`, the column storing that tier |
| BugText.TierFilterMatches | rag/rag2.py:149-157 | a bug passes the tier filter exactly when the chosen column holds the value |
| BugText.TierConditionsSound | rag/rag2.py:179-183 | every tier condition comes from an entry with level 1, 2 or 3 |
| BugText.TierConditionsComplete | rag/rag2.py:179-183 | every entry with a valid level yields its condition |
| BugText.TierConditionsSingle | rag/rag2.py:181-183 | one entry yields its condition exactly when its level is 1, 2 or 3 |
| BugText.TierConditionsAppend | rag/rag2.py:180-183 | the conditions of consecutive entries are concatenated in entry order |
| BugText.ConditionsSpec | rag/rag2.py:172-183 | the similarity first; a product condition exactly when the product is truthy, with its value; exactly the valid tier entries |
| BugText.ConditionsLayout | rag/rag2.py:172-183 | the similarity at index 0, the product at index 1 when truthy, then the tier conditions in entry order |
| BugText.WhereParamsFit | rag/rag2.py:172-183 | one value per WHERE placeholder, each of its placeholder's kind |
| BugText.WhereParamsValues | rag/rag2.py:172-183 | the WHERE values are the embedding, the threshold, then each filter's own value at its condition's position |
| BugText.AsWrittenParamsValues | rag/rag2.py:172-207 | as written, params is the embedding, the threshold, one text per filter, the embedding and the limit |
| BugText.AsWrittenParamsShort | rag/rag2.py:185-207 | as written, params has one value fewer than the `%s` placeholders of the rendered query text, and the second value has the wrong kind |
| BugText.ConditionPlaceholders | rag/rag2.py:171-181 | each WHERE condition's text has one `%s` per value it binds: two for the similarity, one for the product or a tier |
| BugText.WherePlaceholders | rag/rag2.py:171-201 | the `' AND '`-joined WHERE clause has one `%s` per slot of its conditions |
| BugText.QueryPlaceholders | rag/rag2.py:186-204 | the rendered query has exactly one `%s` per slot: the SELECT embedding, the WHERE values, the ORDER BY embedding and the limit |
| BugText.Params | rag/rag2.py:187-207 | corrected half: with the SELECT-list embedding in front, one value per placeholder, each of the right kind |
| BugText.ParamsValues | rag/rag2.py:187-207 | corrected half: the embedding, then the as-written values in order |
| BugText.BuildWhere | rag/rag2.py:172-183 | the loops build exactly the conditions of `Conditions` and their WHERE values |
| BugText.AddTierFilters | rag/rag2.py:179-183 | the tier loop appends the tier conditions and their values |
| BugText.HybridSearch | rag/rag2.py:161-207 | `None` exactly when the query embedding raises; otherwise the conditions, the WHERE clause, the full query text and the parameter list as written (`AsWrittenParams`) |
| BugStore.EmbedAllSpec | rag/rag2.py:96-101 | rows exist exactly when every text embeds; then there is one row per config, in order, with the bug id, type and text |
| BugStore.StoreEmbeddings | rag/rag2.py:72-101 | the loop stores the rows of the bug's configs, stopping at the first raised embedding |
| BugStore.InsertableSpec | rag/rag2.py:235-240 | a batch inserts exactly when none of its numbers is stored and none repeats in it |
| BugStore.InsertBugsFails | rag/rag2.py:235-240 | the inserts succeed exactly when the batch is insertable; a failure names the first offending bug |
| BugStore.InsertBugsRows | rag/rag2.py:235-240 | old rows are kept; bug j gets id start+j; no other id is added |
| BugStore.InsertBugsUnique | rag/rag2.py:235-240 | incident numbers stay unique, and exactly the batch's are added |
| BugStore.EmbedBatchSpec | rag/rag2.py:250-253 | a batch's rows exist exactly when every embedding succeeds, and refer only to the batch's ids |
| BugStore.EmbedBatchSingle | rag/rag2.py:250-253 | a one-bug batch gives that bug's rows under the first id |
| BugStore.EmbedBatchAppend | rag/rag2.py:250-253 | the rows of consecutive bugs are concatenated in batch order, numbered on; one failure fails the whole |
| BugStore.StageBugs | rag/rag2.py:222-240 | the insert loop stages the table or stops at the first duplicate |
| BugStore.StageEmbeddings | rag/rag2.py:250-253 | the embedding loop stages every bug's rows in order, or stops at the first raised call |
| BugStore.Transact | rag/rag2.py:221-255 | one transaction: stage bugs, stage embeddings, commit; a failure keeps the old tables and the advanced sequence |
| BugStore.InsertBatchOutcome | rag/rag2.py:216-255 | commits exactly when the batch is insertable and every embedding succeeds; a duplicate is reported exactly when it is not insertable, naming the first offender |
| BugStore.InsertBatchValid | rag/rag2.py:216-255 | the store stays valid; a failure changes neither table; a commit adds exactly the batch's numbers and only appends embedding rows |
| BugStore.StoreOneSpec | rag/rag2.py:42-70 | a bug is stored exactly when its number is new and every embedding succeeds, under the next id with its rows; a known number gives the duplicate error |
| BugStore.BatchesFlatten | rag/rag2.py:218-219 | the slices concatenate back to the input |
| BugStore.BatchesCount | rag/rag2.py:218-219 | there are ceil(n / size) slices |
| BugStore.BatchesSlice | rag/rag2.py:218-219 | slice k is `bugs[k*size : k*size + size]` |
| BugStore.BatchesFull | rag/rag2.py:218-219 | every slice but the last has `size` bugs |
| BugStore.RunBatches | rag/rag2.py:218-256 | a run without error logs once per slice; a failed run logs fewer |
| BugStore.BulkSpec | rag/rag2.py:214-218 | batch size 0 raises before anything changes; a negative size does nothing |
| BugStore.RunBatchesLogged | rag/rag2.py:256 | the k-th logged count is min((k+1)*size, n) |
| BugStore.TransactionIsTransactional | rag/rag2.py:216-255 | every transaction keeps validity, and commits all or nothing |
| BugStore.RunBatchesCommitted | rag/rag2.py:218-255 | after a run, the store is valid and holds exactly the old numbers plus those of the logged slices; embeddings only grew |
| BugStore.BugRagStore.InsertBatch | rag/rag2.py:216-255 | the new state and error are those of one transaction; the store stays valid |
| BugStore.BugRagStore.StoreBug | rag/rag2.py:42-70 | returns the new id, under which the bug is stored, or the error of the aborted transaction |
| BugStore.BugRagStore.BulkInsertBugs | rag/rag2.py:214-256 | the log, the error and the final state are those of the run over the slices |

## Left out

- Flask routing, JSON serialisation, CORS, static file serving and the 404/500 handlers (api.py:321-372) are left out. They are web plumbing and filesystem lookups.
- The health endpoint (api.py:338-345) is left out. It only reads the clock.
- The request body is modelled as absent or a JSON object whose values are strings or "something else". A body that fails to parse, and a top-level JSON array or string, are not modelled.
- The text of `str(e)` in 500 responses is not modelled; only that a 500 is returned.
- `init_database` is modelled only as the empty table of the constructor. gunicorn_config.py is not part of this model.
- Timestamps are abstract naturals. `created_at` ordering and the `ORDER BY created_at` of the tier query are not modelled.
- Remote services are oracles: `ollama.chat`, `OllamaEmbeddings` and `openai.embeddings`. Prompt and system-message wording is not modelled; the chat request carries only the query and the context.
- Vector values, cosine distance, the similarity threshold comparison and pgvector ranking are not modelled. This includes `search_data` (rag.py:131-165), `search_similar_bugs` (rag/rag2.py:103-120) and the SQL function it calls.
- `get_bug_by_incident_number` (rag/rag2.py:122-131) is a plain database read and is not modelled.
- BugText.TierColumn: `get_bugs_by_resolution_tier` is modelled up to the column choice and its row filter (`BugText.TierFilterMatches`); the ordering and the LIMIT are not modelled.
- BugText.HybridSearch: `hybrid_search` is modelled up to the query it would execute; the rows it returns are not modelled.
- BugText.QueryText: the query's line breaks and indentation are written as single spaces.
- Float formatting is not modelled: `similarity:.3f` enters as a ready-made string.
- The threshold is carried as a real number.
- pandas CSV reading (`read_file`), dotenv and Supabase/psycopg2 client setup, `main`'s `input`/`print`, and all other logging (`print` calls and `logging` other than the processed count of `bulk_insert_bugs`, which `BugStore.RunBatchesLogged` models) are left out.
- IncidentRag.GenerateFinalResponse: it takes the file's rows as a parameter. The crash when `read_file` returns None (rag.py:170-171) is file I/O and is not modelled.
- The `bugs` schema is not shown. The model assumes a unique constraint on `incident_number`, which also makes the `bug_id_map` lookup (rag/rag2.py:243-252) return the ids just inserted.
- Ids come from a sequence that an aborted transaction does not roll back.

## Findings

The methods that stand for the two functions below follow the code as written
(`StoreCsvFile` cleans with `PreprocessAsWritten`, `HybridSearch` binds
`AsWrittenParams`). The corrected definitions (`Preprocess`, `Params`) stand
beside them with the intended properties proved.

| source | as written | input that shows it | evidently intended | confidence | as-written member | corrected member |
|---|---|---|---|---|---|---|
| rag.py:31-37 | the mode of `u_resolution_tier_2` counts `''` cells, so `''` can be the mode and the empty tiers are "replaced" by `''` | a frame whose tiers are `''`, `''`, `'x'`: the mode is `''` and two rows keep an empty tier | the mode is taken over non-missing, non-empty values, as the comment at line 30 and the error at line 33 describe, so every empty tier gets `'x'` | low (a frame read by `read_csv` already turns empty cells into NaN); not executed | IncidentRag.PreprocessAsWrittenKeepsEmptyTier | IncidentRag.PreprocessSpec |
| rag/rag2.py:197 | the SELECT list has a `%s` for the similarity score, but `params` holds no value for it; the list built at lines 172-185 and 207 is one short, and every value binds one placeholder early | any call, e.g. no product and no tiers: five placeholders, four parameters | the query embedding also comes first in `params` | high; not executed | BugText.AsWrittenParamsShort | BugText.ParamsValues |
