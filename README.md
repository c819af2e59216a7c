# Distributed raster interpolation client: batching, dispatch, assembly, statistics

This project models the sequential core of a client that spreads a raster
interpolation across several compute servers. It has four parts:

- **Batching** (`batching.dfy`): the client cuts the grid rows `[0, height)` into
  contiguous row ranges of `batch_size` rows. Each batch carries its grid rows,
  the shared station data, the IDW power and the matching rows of the optional
  polygon mask.
- **Dispatch** (`dispatch.dfy`): class `BatchManager`. It probes every server
  once and keeps the healthy ones in their original order. If none is healthy
  it aborts with an empty mapping. Otherwise it replaces its server list with
  the healthy one, hands out servers round-robin through a cursor, sends each
  batch once, and classifies each outcome. Only the blocks of the sends that
  succeeded are kept, keyed by the submitted start row.
- **Assembly** (`assembly.dfy`): the output raster (H x W cells, two bands) is
  prefilled with nodata. Each returned block is copied over its rows in place,
  and the merged batches are counted. An empty results mapping stops the
  client before any raster exists.
- **Statistics** (`simple_stats.dfy`): a single pass over the rows of a CSV
  column. It skips the header and the rows that do not parse. It keeps the
  min, max, sum and count of all values, and the sum and count of the
  positive ones.

`common.dfy` holds the shared values: `Option`/`Result`, the cell type, the
batch record, Python's slice semantics and two arithmetic facts.

The network is replaced by oracles. `DistributeBatches` takes one
`ProbeOutcome` per server and one `SendOutcome` per batch. It records every
batch request it attempts in the ghost field `requests`, so the round-robin
assignment is visible in its contract. The dictionary iteration order of the
merge loop is a parameter: `AssembleRaster` takes the mapping's items as a
sequence.

The raster's nodata value (float NaN) is the `Nodata` constructor of `Cell`.
A pixel has two cells: band 0 is the maximum, band 1 the mean of the
non-zero values.

Behaviour of the code that the model keeps as written:

- A negative `--batch-size` makes `range(0, height, batch_size)` empty. The
  code then succeeds with zero batches; it does not fail with an
  invalid-argument error. A batch size of 0 makes `range` raise ValueError.
  `CreateBatches` models both.
- The round-robin cursor is not reset when the server list shrinks to the
  healthy subset. If `distribute_batches` is called again with a cursor past
  the new list's end, the first `get_next_server` raises IndexError before
  any batch is submitted. The model returns `Failure(ServerIndexError)`, and
  its contract proves the failure can only happen on that first call. The
  client builds a fresh manager and distributes once, so it never hits this.
- `completed_batches` is incremented as soon as a 200 answer's body parses as
  JSON. That happens before `results` and `start_row` are read out of it. A
  200 answer whose JSON lacks either key therefore counts as completed, yet
  its batch is dropped. `CountsAsCompleted` and `SendResult` keep the two
  apart, and `ResultCounts` proves successes <= completed <= batches.
- The merge does not enforce "each start row at most once". Uniqueness comes
  from the results being a dictionary keyed by start row. `DistinctKeys` and
  `Disjoint` state that as a hypothesis of the order-independence lemmas.

## Model

| member | source | states |
|---|---|---|
| `Common.Slice` | main_client.py:94-98 | Python slicing: equals `s[i..j]` when the bounds are inside, `s[i..]` when only the end is past the length, empty past the end, never longer than `s` |
| `Batching.MakeBatch` | main_client.py:89-99 | the batch has the given row range, station data and power, the grid rows `[start, end)`, and a mask exactly when one was given: the mask's rows `[start, end)` |
| `Batching.BatchAt` | main_client.py:88-89 | the k-th batch's row range is the k-th range of the partition |
| `Batching.CreateBatches` | main_client.py:87-100 | batch size 0 fails, a negative one gives no batches, a positive one gives ceil(height / size) batches, the k-th being the batch of partition range k |
| `Batching.CountFromBounds` | main_client.py:88 | a loop stepping by batch size from 0 that stops at the first start at or past height runs ceil(height / size) times |
| `Batching.BatchCountBounds` | main_client.py:88 | the batch count n satisfies (n-1)*size < height <= n*size, and n = 0 exactly when height = 0 |
| `Batching.StartInside` | main_client.py:88 | every batch starts inside the grid |
| `Batching.PartitionExample` | main_client.py:88-89 | 45 rows in batches of 20 give (0,20), (20,40), (40,45) |
| `Batching.PartitionContiguous` | main_client.py:88-89 | the first batch starts at 0, the last ends at height, each batch ends where the next starts |
| `Batching.PartitionSizes` | main_client.py:89 | every batch holds 1 to batch-size rows, and all but the last hold exactly batch-size rows |
| `Batching.PartitionAscending` | main_client.py:88 | start rows are multiples of the batch size, strictly ascending |
| `Batching.PartitionDisjoint` | main_client.py:88-89 | no two batches overlap |
| `Batching.PartitionCovers` | main_client.py:88-89 | every batch lies inside `[0, height)` and every row of it is in some batch |
| `Assembly.NodataRow` | main_client.py:122 | a row of `width` cells, nodata in both bands |
| `Assembly.NodataRaster` | main_client.py:122 | before any merge, all `height` rows are nodata rows |
| `Assembly.Overlay` | main_client.py:128 | the slice assignment: rows `[start, start+k)` become the block's rows, all other rows are unchanged, the height is kept |
| `Assembly.MergeStep` | main_client.py:126-128 | merging one entry keeps the raster's height |
| `Assembly.MergeAll` | main_client.py:124-129 | merging a sequence of entries keeps the raster's height |
| `Assembly.MergeInto` | main_client.py:128 | the in-place copy leaves the array equal to the overlay of its old contents |
| `Assembly.AssembleRaster` | main_client.py:110-129 | an empty mapping stops with no raster; otherwise the raster is the nodata raster with every returned block merged in order, and the count is the number of entries that carry a block |
| `Assembly.UnwrittenRowUnchanged` | main_client.py:122-129 | a row no returned block covers keeps its old value, so rows of batches that never came back stay nodata |
| `Assembly.WrittenRowFromItsBlock` | main_client.py:125-128 | with non-overlapping blocks, a row covered by a block holds that block's row, whatever the merge order |
| `Assembly.RowAgrees` | main_client.py:125-128 | each row is the same after merging either of two non-overlapping sequences with the same entries |
| `Assembly.MergeOrderIndependent` | main_client.py:125-128 | any reordering of non-overlapping entries gives the same raster |
| `Assembly.MergeTwiceIsOnce` | main_client.py:128 | merging the same (start row, block) twice equals merging it once |
| `Assembly.MergedCountBounds` | main_client.py:124-129 | `successful_batches` is at most the number of entries, equals it when every entry has a block, and is 0 exactly when none has one |
| `Assembly.PartitionBlocksDisjoint` | main_client.py:125-128 | blocks returned under distinct start rows of the partition, each as long as its batch, never overlap |
| `Dispatch.CheckServerHealth` | batch_manager.py:20-26 | healthy exactly for a 200 answer; any exception is unhealthy |
| `Dispatch.ToPayload` | batch_manager.py:32-48 | the request body carries start row, end row, grid rows, station arrays and power unchanged, and carries the mask exactly when the batch has one |
| `Dispatch.SendResult` | batch_manager.py:59-79 | a result exists only for status 200 with a parsed body holding both `start_row` and `results`; other statuses, timeouts, connection errors and other exceptions give none |
| `Dispatch.Assignment` | batch_manager.py:14-18 | k round-robin picks, every one a member of the server list |
| `Dispatch.FilterHealthy` | batch_manager.py:87-93 | the health loop yields `HealthyServers` of the servers and their probes |
| `Dispatch.HealthyServersSubsequence` | batch_manager.py:87-93 | the healthy list is the subsequence of the servers at the ascending positions whose probe answered 200, and at no other position |
| `Dispatch.HealthyIndicesAscending` | batch_manager.py:87-93 | the healthy positions lie inside the server list and are strictly ascending |
| `Dispatch.HealthyIndicesExactly` | batch_manager.py:87-89 | a position is among the healthy positions exactly when its probe answered 200 |
| `Dispatch.HealthyServersAt` | batch_manager.py:87-89 | the j-th healthy server is the server at the j-th healthy position |
| `Dispatch.NoHealthyServer` | batch_manager.py:87-97 | the healthy list is empty exactly when no probe answered 200 |
| `Dispatch.RoundRobinExample` | batch_manager.py:14-18 | with 3 servers and a fresh cursor, 7 batches go to E0,E1,E2,E0,E1,E2,E0 |
| `Dispatch.AdvanceInRange` | batch_manager.py:17 | a cursor that starts in range stays in range |
| `Dispatch.ModStep` | batch_manager.py:17 | taking the next step of the cursor modulo n is the same as adding one before reducing |
| `Dispatch.CursorStep` | batch_manager.py:14-18 | from a valid cursor, j picks leave it at (cursor + j) mod n, and one more pick moves it to the value after j + 1 picks |
| `Dispatch.CollectResultsKey` | batch_manager.py:114-119 | a start row is a key of the mapping exactly when some batch with that start row was sent successfully |
| `Dispatch.CollectResultsValue` | batch_manager.py:114-119 | with distinct start rows, a successful send's block is stored under its batch's start row |
| `Dispatch.CollectResultsContents` | batch_manager.py:108-119 | with distinct start rows, the mapping's keys are exactly the submitted start rows of the sends that succeeded, each bound to its send's block; failed batches are absent |
| `Dispatch.ReorderedDistinct` | batch_manager.py:108-119 | sending the batches in another order keeps their start rows distinct |
| `Dispatch.ReorderedSucceeded` | batch_manager.py:114-119 | sending the batches in another order, with the same outcomes, keeps which start rows had a successful send |
| `Dispatch.CollectResultsPermuted` | batch_manager.py:108-119 | with distinct start rows, any completion order of the same batches and outcomes gives the same results mapping |
| `Dispatch.ResultCounts` | batch_manager.py:59-61 | entries <= successful sends <= completed batches <= batches; with distinct start rows, entries = successful sends |
| `Dispatch.PartitionStartsDistinct` | main_client.py:88 | batches built from the partition have distinct start rows |
| `Dispatch.DispatchedStep` | batch_manager.py:108-110 | submitting one more batch appends one request, to the next round-robin server |
| `Dispatch.BatchManager.constructor` | batch_manager.py:8-12 | the server list is as given, the cursor and both counters are 0, nothing sent |
| `Dispatch.BatchManager.GetNextServer` | batch_manager.py:14-18 | returns the server under the cursor and moves the cursor to (cursor+1) mod n, which stays in range; a cursor past the end raises IndexError and changes nothing |
| `Dispatch.BatchManager.SendBatchToServer` | batch_manager.py:28-79 | logs one request to the server with the batch's body, returns `SendResult` of the outcome, and increments `completed_batches` exactly when a 200 body parsed |
| `Dispatch.BatchManager.SubmitAndCollect` | batch_manager.py:102-121 | either IndexError on the first pick with nothing changed, or: the mapping is `CollectResults`, the cursor advanced by the number of batches, `completed_batches` grew by the completed count, and one request per batch went to the round-robin server |
| `Dispatch.BatchManager.DistributeBatches` | batch_manager.py:81-123 | counters reset and `total_batches` = number of batches; with no healthy server: empty mapping, server list and cursor unchanged, nothing sent; otherwise the server list becomes the healthy list and the rest is as for `SubmitAndCollect` over it |
| `SimpleStats.CalculateSimpleStats` | shared/stats_calculator.py:26-67 | an empty file fails at the header; otherwise the result is `StatsOf` the parsed values of the rows after the header |
| `SimpleStats.ParsedMembers` | shared/stats_calculator.py:39-56 | the counted values are exactly the values of the rows whose column parsed, each as often as rows carry it |
| `SimpleStats.ParsedCount` | shared/stats_calculator.py:39-56 | the number of counted values equals the number of rows whose column parsed, so it is at most the number of rows |
| `SimpleStats.ParsedValues` | shared/stats_calculator.py:39-56 | the counted values are exactly the values of the rows that parsed, and `count_total` equals the number of those rows |
| `SimpleStats.TracksStep` | shared/stats_calculator.py:43-53 | one loop step on a parsed value turns accumulators holding the statistics of the values so far into those of one more value |
| `SimpleStats.PositivesExactly` | shared/stats_calculator.py:51-53 | each strictly positive value enters the non-zero sum and count exactly as often as it occurs, and no other value does, so the non-zero count is at most the total count |
| `SimpleStats.MinIsLeast` | shared/stats_calculator.py:43-44 | the running minimum is a parsed value and no parsed value is smaller |
| `SimpleStats.MaxIsGreatest` | shared/stats_calculator.py:45-46 | the running maximum is a parsed value and no parsed value is larger |
| `SimpleStats.SumBetween` | shared/stats_calculator.py:48 | a sum of n values between lo and hi lies between n*lo and n*hi |
| `SimpleStats.MeanBetween` | shared/stats_calculator.py:61 | the mean of values between lo and hi lies between lo and hi |
| `SimpleStats.StatsProperties` | shared/stats_calculator.py:58-65 | min and max are present exactly when a row parsed and then bracket the mean; non-zero count <= count; non-zero mean > 0 when defined; both means are 0 when their counts are 0 |

## Left out

- HTTP calls (`requests.get`, `requests.post`), their timeouts and JSON encoding. Probe and send outcomes are oracle parameters, and the request body is the `Payload` record.
- Thread pool and `as_completed`. Batches are sent and collected in submission order. `CollectResultsPermuted` proves that any other completion order gives the same mapping when start rows are distinct. `MergeOrderIndependent` proves that any other merge order gives the same raster when the returned blocks do not overlap. Distinct start rows alone are not enough for the raster. `PartitionBlocksDisjoint` shows the blocks do not overlap when each is as long as its batch. `max_workers` is only a concurrency bound, so it is not a parameter.
- float32 and NaN arithmetic. Values are reals, min/max start as `None` instead of +inf/-inf, and a CSV field that parses to `nan` or `inf` is not modelled.
- `AssembleRaster`: numpy's ValueError for a block whose shape does not match its target slice is not modelled. The block fitting inside the raster with `width` columns is a precondition.
- Shape of the grid: `height` is the number of rows of the longitude grid. The latitude grid and mask are sliced with Python's clamping rules and are not required to have the same height.
- Printing, timing, argument parsing, the GeoTIFF output and directory creation in `main_client.py`.
- The progress prints and request timing in `batch_manager.py` (lines 51, 57, 62, 68, 72-78, 86, 91, 93, 96, 100 and 121). They only report; no computed value depends on them.
- IDW interpolation and geodesic distances (`shared/interpolation_core.py`). They are floating-point numerics over the foreign `pyproj.Geod.inv`. When the weight sum is not positive, the code returns NaN for both bands. `load_known_data` (a pandas groupby) and `create_grid` are not part of this model.
- `polygon_utils.py` (GeoJSON loading, rasterization) and `shared/data_generator.py` (random data and file writes).
- `calculate_stats` (pandas/numpy reductions), and the file opening and CSV reading of `calculate_simple_stats`. Only the fold over already-parsed column values is modelled.
- The exception handler around `future.result()` (batch_manager.py:120-121). `send_batch_to_server` catches every exception itself, so in this model the handler has nothing to catch.
