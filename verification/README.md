# FRED connector: incremental reconciliation, modelled in Dafny

The job copies series of the FRED macroeconomic data service into a SQL
fact table (`FinData`: DATE, VALUE, API_CODE, ETL_LOADED_AT). A run reads
the table's high-water mark, asks the data service for each series, keeps
only what should be stored, and inserts it in batches. In `full_load` mode
the table is truncated and reloaded. In `incremental_load` mode the job
reloads a window. The window starts at the watermark, which is held back
to at most one week before today. Points already stored in that week are
excluded by key, `(DATE, API_CODE)`.

This project models that pipeline as pure functions over sequences and
sets:

- `FredTypes` (`types.dfy`): days as integers, `Option`/`Result`, the two
  sync modes, the clock, raw points, fact-table rows and their keys.
- `Watermark` (`watermark.dfy`): `select max(DATE)`, the one-week clamp, and
  the keys stored in the trailing week.
- `Fetch` (`fetch.dfy`): tagging with series and load day, dropping missing
  values, the mode's filter window, and the sort by date.
- `KeyText` (`fetch.dfy`): why comparing the text key `DATE_API_CODE` is
  comparing the pair.
- `Batches` (`batches.dfy`): slicing the records into batches of 1000.
- `Loader` (`loader.dfy`): the three-attempt insert loop, and the load step
  (no-op, truncate, batches in order).
- `Pipeline` (`pipeline.dfy`): one whole run, the run as written next to the
  corrected run, and the incremental idempotence theorem.

The environment is passed in as parameters:

- the data service's answers: one `Response` per series, in catalogue order;
- the clock: today, and the observation day (the last day asked for);
- the storage's answer to each insert attempt: `succeeds(batch, attempt)`.

Observation values are an opaque type parameter `V`. They are only
null-checked, never computed on.

## Model

| member | source | states |
|---|---|---|
| Watermark.MaxDate | fred_etl.py:89-95 | `max(DATE)` is absent exactly for an empty table; otherwise it is the date of some row, and no row is later |
| Watermark.GetMaxDate | fred_etl.py:97-100 | the watermark is no later than today minus one week and no later than the stored maximum, and it equals one of the two; an empty table is the `NoPriorData` error instead of a crash |
| Watermark.WatermarkMonotone | fred_etl.py:97-100 | a later stored maximum or a later run day never gives an earlier watermark |
| Watermark.RecentKeysStored | fred_etl.py:103-112 | a standalone fact about the recent set: its keys are keys of stored rows, and appending rows to the table never removes a key from it |
| Fetch.TagSeries | fred_etl.py:129-136 | the rows of one series are exactly its points that have a value, each tagged with that series and the load day; a row occurs as many times as its point does, so each non-null point yields exactly one row |
| Fetch.TagAndDropNulls | fred_etl.py:119-136 | a row is produced exactly when some series returned that date with a value present; the row carries that series and the load day, and it occurs exactly as many times as such points were returned across all series |
| Fetch.FilterWindow | fred_etl.py:138-143 | each row keeps its multiplicity if the mode's window admits it, and disappears otherwise |
| Fetch.SortByDate | fred_etl.py:145 | the result is non-decreasing in date and is a permutation of the input; no order among equal dates is promised |
| Fetch.GetData | fred_etl.py:115-147 | the output is sorted by date, is a permutation of the filtered non-null rows, and holds exactly the fetched, tagged, non-null points that the window admits, each as many times as it was fetched |
| Fetch.FullLoadOutput | fred_etl.py:138-139 | in full-load mode a row is output exactly when it is a fetched non-null point dated on or before the observation day |
| Fetch.FullLoadHasNothingLater | fred_etl.py:139 | no full-load output row is dated after the observation day |
| Fetch.IncrementalOutput | fred_etl.py:140-143 | in incremental mode a row is output exactly when it is a fetched non-null point after the watermark whose key is not recent; so output keys and recent keys are disjoint |
| Fetch.RefilterAfterEmitIsEmpty | fred_etl.py:140-143 | filtering the same fetch again, with the emitted keys added to the recent set, outputs nothing |
| Fetch.ExampleNullDropped | fred_etl.py:129-145 | one series with 2024-01-02, a missing 2024-01-03 and 2024-01-04, after watermark 2024-01-01, outputs the 01-02 and 01-04 rows in that order |
| Fetch.ExampleOverlapExcluded | fred_etl.py:141-143 | a re-fetched point whose key (2024-01-05, DGS10) is already recent is not output |
| KeyText.KeyStringInjective | fred_etl.py:141-142 | with ten-character ISO dates, two `DATE_API_CODE` texts are equal exactly when their dates and series are equal |
| Batches.Chunks | fred_etl.py:293-294 | there are ceil(n/1000) batches; every batch has 1 to 1000 rows and all but the last have exactly 1000 |
| Batches.FlattenChunks | fred_etl.py:293-294 | concatenating the batches in order gives back the records |
| Batches.ChunkIsSlice | fred_etl.py:294 | batch k is the slice from 1000k to 1000k+1000, cut at the end of the records |
| Batches.NoRecordsNoChunks | fred_etl.py:294 | there are no batches exactly when there are no records |
| Loader.RetryFrom | fred_etl.py:242-255 | from attempt a, the loop commits exactly when some attempt from a to 3 succeeds; it stops at the first success, and it stops after attempt 3 without committing otherwise |
| Loader.Retry | fred_etl.py:242-255 | one to three attempts are made; the batch commits exactly when one of attempts 1 to 3 succeeds |
| Loader.InsertData | fred_etl.py:235-255 | the counter loop agrees with `Retry`; a commit happens at the first successful attempt, so at most once; after three failures it ends normally with nothing committed |
| Loader.InsertBatchesInOrder | fred_etl.py:296-298 | every batch is attempted exactly once, in batch order, whatever happened to earlier batches, and each action is that batch's insert loop |
| Loader.InsertBatchesAppends | fred_etl.py:296-298 | the table grows by exactly the batches that committed, in order |
| Loader.Load | fred_etl.py:286-298 | no records means no action and an unchanged table; a truncate happens only in full-load mode with records, and only as the first action; then batch k is the k-th insert; if every batch commits, the table is the old table (or nothing, after a truncate) followed by the records |
| Loader.LoadFollowsStorage | fred_etl.py:286-298 | in a load with records, the insert after the truncate (if any) numbered k is batch k's three-attempt loop against the storage's answers, and the table is the old table (or nothing, after a truncate) followed by exactly the batches that committed, in order; a batch whose attempts all failed is passed over |
| Pipeline.RunAsWritten | fred_etl.py:275-298 | as written, a run fails exactly when the table is empty, in either mode |
| Pipeline.WindowFor | fred_etl.py:97-143 | only an incremental run on an empty table fails; a full load filters up to the observation day; an incremental load filters after the smaller of the stored maximum and today minus one week, and its recent set holds exactly the keys of stored rows dated on or after today minus one week |
| Pipeline.Run | fred_etl.py:258-298 | the corrected run fails, with `NoPriorData`, exactly for an incremental load on an empty table |
| Pipeline.AsWrittenFullLoadFailsOnEmptyTable | fred_etl.py:277 | as written, a full load on an empty table stops before loading anything |
| Pipeline.FullLoadBootstrapsEmptyTable | fred_etl.py:286-294 | the corrected full load on an empty table succeeds, and when every batch commits it leaves exactly the fetched records |
| Pipeline.RunAgreesWithAsWritten | fred_etl.py:277-298 | on a table with rows the corrected run and the run as written are the same |
| Pipeline.FullLoadReplacesTable | fred_etl.py:286-291 | a full load that fetched nothing leaves the table as it was, not even truncated; one that fetched records and committed every batch truncates first and leaves exactly those records |
| Pipeline.StoredKeyIsExcluded | fred_etl.py:97-143 | a key already in the table never passes the incremental window computed from that table, whatever the run day and observation day |
| Pipeline.RerunFilterIsEmpty | fred_etl.py:140-143 | filtering the same answers against the table the first incremental run left, on the same or a later day, keeps nothing |
| Pipeline.IncrementalRerunLoadsNothing | fred_etl.py:277-298 | a second incremental run with the same answers, on the same or a later day, after a first run that committed every batch, does nothing |

## Behaviour of the code

- `insert_data` makes three attempts in all and returns normally after
  the third failure; `fred_main` then goes on with the next batch
  (fred_etl.py:242-255, 296-298).
- `get_max_date` runs, and compares the stored maximum with a date,
  before the sync mode is read (fred_etl.py:277, 97); see Findings.
- `create_and_load_fin_master_table` runs only when `records` is
  non-empty (fred_etl.py:286-288).
- In incremental mode `observation_end` bounds only the request to the
  data service; the filter applies no upper date bound
  (fred_etl.py:122-127, 143).
- With zero records nothing is truncated, even in full-load mode
  (fred_etl.py:286-291); `Pipeline.FullLoadReplacesTable` states this.

## Left out

- An unknown sync mode. `SYNC_MODE` is any string from the environment
  (fred_etl.py:24, 29); any value other than the two handled leaves
  `data_series` unbound (fred_etl.py:120-129), so with a non-empty series
  list the run aborts. The model has only the two handled modes.
- `function_app.py`: a timer trigger that only calls `fred_main`.
- Configuration loading (fred_etl.py:14-31) and the fixed series list:
  the responses, one per series, are a parameter.
- `get_connection` and the connection retry with sleeps of 60·2^attempt
  (fred_etl.py:263-273): connection handling, not modelled.
- The SQL text of `get_max_date`, `get_latest_data`,
  `create_table_if_not_exists`, `create_and_load_fin_master_table` and
  `truncate_table`. The table is a sequence of rows. Truncation empties it
  and a committed batch appends to it. Table creation and the reference
  table are DDL and are not modelled.
- The FRED client `get_series`: a network call. Its answers are inputs.
  The request bounds (`observation_start`, `observation_end`) only shape
  what the service returns, so they are not modelled.
- Exceptions from the data service, from storage reads, and from the
  storage writes outside the insert loop: `create_table_if_not_exists`
  (fred_etl.py:275), `create_and_load_fin_master_table`
  (fred_etl.py:288) and `truncate_table` (fred_etl.py:291). Any of them
  aborts the run; the model has no such failure path.
- Loader.Load: the truncate of a full load always succeeds; a failing
  truncate, which would abort the run before any batch, is not modelled.
- `datetime.now()`, `time.sleep` and logging. The clock is a parameter and
  delays are not modelled. The observation day is a separate parameter.
  The job computes it once at import as now minus one day.
- pandas mechanics, including its behaviour on empty frames. In the model,
  no fetched rows give no records.
- Float values: opaque, because they are only tested for being missing.
- Day numbers stand for dates. The ISO text of a date is not computed:
  `KeyText.KeyStringInjective` takes it to be ten characters long.
- Loader.InsertData: each attempt is modelled as all-or-nothing. A failed
  `executemany` is not rolled back by the job, so rows of a failed
  attempt could survive into a later commit, depending on the driver.

## Findings

| source | as written | input that shows it | evidently intended | confidence | as-written member | corrected member |
|---|---|---|---|---|---|---|
| fred_etl.py:277 | `get_max_date` runs and compares `max(DATE)` with a date before the sync mode is consulted. On an empty table `max(DATE)` is `None`, and `None > date` raises. | a freshly created, empty `FinData` with sync mode `full_load` | a full load bootstraps an empty table; only an incremental load needs a watermark | high; not executed | Pipeline.RunAsWritten | Pipeline.Run |

`Pipeline.AsWrittenFullLoadFailsOnEmptyTable` exhibits the failure.
`Pipeline.FullLoadBootstrapsEmptyTable` proves the corrected run loads
the empty table. `Pipeline.RunAgreesWithAsWritten` proves the two runs
agree whenever the table has rows.
