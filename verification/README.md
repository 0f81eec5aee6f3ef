# Infrastore: a verified model

Infrastore is a time-series store with two halves: arrays filed under the hash of their content, and a
SQLite catalog of association rows that name them. This project models the parts whose correctness is
hardest to see and proves what they promise.

* **Simulation readers** (`Arrays`, `Cuts`, `Storage`, `ForecastWindows`, `WindowRuns`, `ForecastReading`,
  `ForecastPlanning`, `Grids`, `Cohorts`, `Timestamps`, `StaticPlanning`, `StaticReading`,
  `StaticBuilding`, `StaticAxes`, `MemoryBackend`). A forecast reader serves windows out of chunk-aligned cached blocks and shared
  slots; a static reader serves one columnar row per instant over regular, irregular, windowed and
  per-vector axes. The specification is the value of each series at the instant, read straight from its
  own array. Every strided copy is a `Cut`, and what a cut means is proved once against multi-indices.
  Backends are function values whose calls may fail and leave any bytes in the caller's buffer;
  `MemoryBackend` is one, and meets everything the theorems ask of a backend.
* **The catalog** (`Catalog`, `CatalogInvariants`, `CatalogRuns`, `IdHistory`, `CatalogStore`,
  `Listing`, `TimestampCache`, `ComponentMoves`, `CatalogColumns`). Inserts with assigned or explicit ids, batches
  through one shared-set cache, imports, transforms, guarded removals, clears, owner moves, sweeps,
  savepoints and nested transactions, run in any order with any statement failing. `CatalogStore` holds the
  statements as methods over mutable tables, each equal to a function of the old tables; `CatalogInvariants`
  and `CatalogRuns` prove what those functions keep over every run.
* **The element codec** (`Codec`), **the hash preimages** (`Encoding`, `Hashing`, `Preimages`), **the
  forecast CSV transpose** (`ForecastCsv`) and **the OpenAPI rows** (`TimeReferences`, `OpenApi`).

`Ordering` has the stable sort the readers and the export share, `Metadata` the catalog row and feature
values, `Wrappers` options and results.

## Conventions

Instants are whole milliseconds, except where the code handles finer ones (`Timestamps`, `OpenApi`), which
use seconds and nanoseconds. Text is its UTF-8 bytes. Floats are their bit patterns. `usize` is a natural
number; where the code narrows it (`as i64`) the wrap is written out. SHA-256 is a function parameter
`sha`, and the feature-set theorems assume only that it tells the finitely many feature maps in play apart.
A query's row order is a parameter (`scan`), so nothing may depend on it. In the catalog, `fault` is the
number of the statement that fails, and a step's failure is then whatever that statement leaves behind.

## Where the code and its documentation part

* Ids "never reissued" holds of the surviving history. A transaction that is rolled back gives the id
  sequence back too, so an id returned inside it can be returned again (`CatalogRuns.RollbackReissues`).
  An id that no rollback undoes names one series for good, whatever else is undone
  (`IdHistory.IdNamesOneSeries`), and over a run whose rollbacks undo no handed-out id none is ever repeated
  (`IdHistory.NothingUndoneNothingReissued`). In general a successful add
  of n rows repeats an id exactly when some id handed out before, undone or not, is one of the n next above
  the mark, and an import exactly when it lists one (`IdHistory.AddReissuesExactly`,
  `IdHistory.ImportReissuesExactly`).
* A shared-set cache records a digest before its set is written. Reusing it after a failed feature statement
  would file a row whose set is not there; the exact condition is `CatalogInvariants.TrustedCacheNeedsTheSet`.
  The store drops the cache of an add that fails, which is what the run theorems use.
* `StaticGroup::fill` empties the group before it reads; the scattered fills do not, and rely on the
  reader's own invalidation. The model keeps both as they are; the all-or-nothing property is the reader's.
* Index and timestamp on a regular grid undo each other except on a grid of zero step with more than one
  row, or of negative step (`Grids.GridInverseExactly`).
* The shared-axis reader takes any rows that name one vector between them, and passes over a row that names
  none: it joins on its length alone, where the per-vector reader reports it (`StaticAxes.UnnamedRowJoins`).
  Neither an add nor an import files such a row, so it arises only in a damaged catalog. Rows that name an
  axis always sit on it (`StaticAxes.IrregularRowsSitOnTheirOwn`), whatever else is in the cohort.
* A listing looks a missing time axis up again for every row that names it (`Listing.ReadAxes`).
* An exported forecast row that has no length loses the leading axes of its shape
  (`OpenApi.RoundTripExactly`).

## Model

| member | source | states |
|---|---|---|
| `Cuts.CutOfCut` | crates/infrastore-core/src/reader.rs:1429-1446 | Gathering a window out of a cached block reads the same bytes as reading it out of the whole array: a cut of a cut is one cut |
| `Cuts.BlockMeansRestriction` | crates/infrastore-core/src/storage.rs:698-728 | A window block, multi-index by multi-index and byte by byte, is the array restricted to the requested range of the count axis |
| `Cuts.WindowMeansFixedAxis` | crates/infrastore-core/src/reader.rs:1429-1446 | A window, multi-index by multi-index, is the array with the count axis fixed at the window |
| `Storage.WriteWindowBlock` | crates/infrastore-core/src/storage.rs:698-728 | Appends exactly the block of the array, and fails, appending nothing, exactly when the axis or the range is out of bounds |
| `Storage.SliceAxis` | crates/infrastore-core/src/storage.rs:671-691 | A slice along any axis is that block with the matching shape; refused exactly when the axis or range is out of bounds |
| `MemoryBackend.SlicesAreHonest` | crates/infrastore-core/src/storage/memory.rs:65-69 | Exactly the rows of held arrays, asked for at their own dtype, are answered, and with the bytes the hash names, whatever else the backend holds |
| `MemoryBackend.Backend.GetSlice` | crates/infrastore-core/src/storage/memory.rs:65-69 | The lookup, the dtype check and the slice, as the readers' seam sees them |
| `MemoryBackend.Backend.PutArray` | crates/infrastore-core/src/storage/memory.rs:34-48 | A hash already held keeps its array, so a hash never names anything else |
| `MemoryBackend.BlocksAreHonest` | crates/infrastore-core/src/storage.rs:450-462 | The default block read is the block of the array the hash names, whatever was in the caller's buffer |
| `MemoryBackend.RangesAreHonest` | crates/infrastore-core/src/storage.rs:418-432 | A batch of ranges succeeds exactly when every array is held at its dtype with those rows, and then is their runs end to end |
| `MemoryBackend.RowsAreHonest` | crates/infrastore-core/src/storage.rs:354-401 | A row read succeeds exactly when every array is held at the dtype with that row, and then is those rows end to end |
| `MemoryBackend.ServesForecasts` | crates/infrastore-core/src/storage.rs:246-633 | The backend meets every hypothesis the forecast reader theorems make: honest whatever it holds, and never failing once it holds everything |
| `MemoryBackend.ServesStatics` | crates/infrastore-core/src/storage.rs:246-633 | It meets every hypothesis the static reader theorems make, on the same terms |
| `MemoryBackend.ForecastReadInMemory` | crates/infrastore-core/src/store.rs:3996-4004 | Over a backend that holds everything, a forecast read succeeds exactly on the reader's own timeline and shows every slot its window |
| `Storage.ReadRangesBySlice` | crates/infrastore-core/src/storage.rs:638-651 | Succeeds exactly when every column read does, and then holds the columns' runs end to end, whatever was in the buffer before |
| `Storage.RangesGather` | crates/infrastore-core/src/storage.rs:638-651 | The slice-by-slice read succeeds exactly when every column does; the runs are those of the columns, in order |
| `Storage.ReadIndicesInto` | crates/infrastore-core/src/storage.rs:387-401 | One row per column at each column's own index, end to end; succeeds exactly when every read does |
| `Storage.ReadIndexInto` | crates/infrastore-core/src/storage.rs:354-367 | One row index for a whole batch, end to end; succeeds exactly when every read does |
| `Storage.ReadWindowBlockInto` | crates/infrastore-core/src/storage.rs:450-462 | The default block read clears the buffer and holds the array's block; a missing array leaves the buffer as it was |
| `Storage.GatheredSplit` | crates/infrastore-core/src/storage.rs:638-651 | Where each column's run sits in a batch: the gathered bytes split at any column |
| `ForecastWindows.EnclosingBlock` | crates/infrastore-core/src/reader.rs:1384-1386 | The chunk-aligned block contains its window and never runs past the window count |
| `ForecastWindows.WindowSlot.LoadBlock` | crates/infrastore-core/src/reader.rs:1384-1407 | Holds the covering block: no backend call exactly when it is already cached, success exactly when that call succeeds, and nothing cached after a failure that may have left any bytes |
| `ForecastWindows.WindowSlot.ReadWindow` | crates/infrastore-core/src/reader.rs:1369-1419 | A successful read shows exactly the array at the window and leaves its block cached; a failure shows nothing and caches nothing; backend calls are zero exactly when `ServesFromCache` says so; `cached` always means the block is exactly that sub-block |
| `ForecastWindows.WindowSlot.Forget` | crates/infrastore-core/src/reader.rs:1287-1290 | Forgetting empties the cache and the window |
| `ForecastWindows.WindowSlot.SetWindow` | crates/infrastore-core/src/reader.rs:1354-1359 | The slot then shows exactly the bytes it was handed |
| `ForecastWindows.GatherWindow` | crates/infrastore-core/src/reader.rs:1429-1446 | The strided gather out of a cached block equals the array with its count axis fixed |
| `WindowRuns.Replay` | crates/infrastore-core/src/reader.rs:1369-1419 | For any run of reads in any order, failures that leave arbitrary bytes, forgets and invalidations: every successful read shows its own window, every other step leaves the slot empty, and the calls made are the ones the cache could not spare |
| `WindowRuns.ReadsAreFetches` | crates/infrastore-core/src/reader.rs:1273-1283 | Successful reads cost one backend call per change of block |
| `WindowRuns.EveryBlockIsFetched` | crates/infrastore-core/src/reader.rs:1273-1283 | In any order, each distinct block costs at least one call |
| `WindowRuns.SweepFetchesOnce` | crates/infrastore-core/src/reader.rs:1369-1419 | A sweep that never steps back fetches each block exactly once, so no order does better |
| `WindowRuns.FullSweepCalls` | crates/infrastore-core/src/reader.rs:1369-1419 | An in-order sweep from an empty cache makes exactly ceil(count / block width) calls |
| `ForecastReading.SplitGivesEachItsOwn` | crates/infrastore-core/src/store.rs:4060-4080 | Runs of the lengths asked for are, end to end, as long as the batched range read, and are that read exactly when each is its own column's run |
| `ForecastReading.ForecastReader.ForecastRead` | crates/infrastore-core/src/store.rs:3996-4004 | All or nothing: every slot shows its own window at the timestamp, or every slot is empty; a window that needed no read is shown only of an array the store still holds; it succeeds whenever the timestamp is on the timeline and no backend call fails |
| `ForecastReading.ForecastReader.ForecastReadInto` | crates/infrastore-core/src/store.rs:4009-4082 | On success every slot, dense or derived, shows the window its own plan describes |
| `ForecastReading.ForecastReader.ReadDense` | crates/infrastore-core/src/store.rs:4050-4055 | Succeeds exactly when the cached block covers the window and the store still holds the array, or the block read succeeds; an array that is gone is `NotFound`, its cache forgotten and nothing shown |
| `ForecastReading.ForecastReader.ReadDenseSlots` | crates/infrastore-core/src/store.rs:4032-4056 | Succeeds exactly when every dense slot answers from the cache it had; the derived slots are set aside in order, none left out |
| `ForecastReading.ForecastReader.ReadDerived` | crates/infrastore-core/src/store.rs:4060-4081 | One range read serves all derived slots, each with exactly its own rows; succeeds exactly when that read does and returns the length the windows need |
| `ForecastReading.ForecastReader.SplitRuns` | crates/infrastore-core/src/store.rs:4062-4080 | The batch is accepted exactly when its length is what the derived windows need, and is then handed out in order with nothing left over |
| `ForecastReading.ForecastReader.RunsFill` | crates/infrastore-core/src/reader.rs:1348-1350 | The bytes a batch of derived windows needs are the bytes their row ranges hold |
| `ForecastReading.ForecastReader.Invalidate` | crates/infrastore-core/src/reader.rs:1533-1537 | Every window reads as empty and every cached block stays |
| `ForecastPlanning.WindowBlockCols` | crates/infrastore-core/src/storage/common.rs:153-169 | A block holds at least one window and at most all of them |
| `ForecastPlanning.LayoutFits` | crates/infrastore-core/src/reader.rs:1579-1662 | Every accepted row's plan fits its array: each window's span is in bounds for every window, and the window shape drops exactly the counting axis |
| `ForecastPlanning.CutIsRun` | crates/infrastore-core/src/reader.rs:1334-1345 | Columns that are consecutive stretches of one run, row after row, are that run |
| `ForecastPlanning.DerivedEqualsDense` | crates/infrastore-core/src/reader.rs:1334-1345 | A derived window is byte-identical to the window of the dense forecast whose entry (s, k) is source step k * interval + s |
| `ForecastPlanning.PlanForecastEntries` | crates/infrastore-core/src/reader.rs:1682-1783 | Builds exactly when every row joins one timeline; one slot per distinct (array, read plan, element type), every slot used, and each entry reaches a slot standing for its own row's window |
| `ForecastPlanning.SlotFor` | crates/infrastore-core/src/reader.rs:1733-1764 | A row takes the slot already filed under its key, or a new one |
| `ForecastPlanning.BuildForecastReader` | crates/infrastore-core/src/reader.rs:1682-1783 | The reader it returns is valid over the store: every slot fits the array its hash names and starts empty |
| `Grids.GridInverse` | crates/infrastore-core/src/reader.rs:678-704 | On a positive step, index and timestamp undo each other for every index in range |
| `Grids.GridInverseExactly` | crates/infrastore-core/src/reader.rs:709-726 | They undo each other for every index exactly when the step is positive, or it is zero and the grid has one row; a negative step never does |
| `Grids.StepsExactly` | crates/infrastore-core/src/types/period.rs:168-217 | A whole number of steps is found exactly when the instant is that many steps on; a step that is not positive finds none |
| `Cohorts.CohortTimeReference` | crates/infrastore-core/src/reader.rs:890-923 | The cohort's spelling is the one its rows share; zoneless and zoned rows never mix |
| `Timestamps.IndexAt` | crates/infrastore-core/src/timestamps.rs:120-122 | The value-in-force lookup returns the last breakpoint at or before the instant, and nothing exactly when there is none |
| `Timestamps.FindExact` | crates/infrastore-core/src/reader.rs:457-469 | The exact lookup finds an instant exactly when it is on the axis |
| `Timestamps.BreakpointIsItsOwn` | crates/infrastore-core/src/reader.rs:107-126 | At a vector's own breakpoint the value in force is that breakpoint's, agreeing with the exact search |
| `Timestamps.UnionAxis` | crates/infrastore-core/src/store.rs:6397-6407 | The merged axis is strictly increasing and holds exactly the breakpoints of every vector |
| `Timestamps.UnionLosesNothing` | crates/infrastore-core/src/store.rs:6397-6407 | For every vector and instant, the index in force is the one at the union point in force: a sweep of the union axis misses nothing |
| `StaticPlanning.RegularTimeline` | crates/infrastore-core/src/reader.rs:736-764 | A shared grid exists exactly when every row carries the same one |
| `StaticPlanning.WindowTimeline` | crates/infrastore-core/src/reader.rs:781-870 | An explicit length is taken exactly when every row can be placed and it is positive; with none, the window is the longest every row covers |
| `StaticPlanning.LeastLeft` | crates/infrastore-core/src/reader.rs:821-828 | The default length is covered by every column and one step more is not |
| `StaticPlanning.BuildGroups` | crates/infrastore-core/src/reader.rs:984-1163 | Builds exactly when every row is admitted; the groups are the rows in column order, each uniform in element type and shape, no two alike |
| `StaticPlanning.CutGroups` | crates/infrastore-core/src/reader.rs:1100-1131 | Cutting sorted rows where the layout changes partitions them into uniform groups with pairwise distinct layouts |
| `StaticPlanning.ClearingZerosKeepsColumns` | crates/infrastore-core/src/reader.rs:1132-1140 | Dropping an all-zero offset list changes no column |
| `StaticPlanning.ColumnOrderIsLayoutOrder` | crates/infrastore-core/src/reader.rs:1082-1097 | Column order sorts rows of one layout together |
| `StaticReading.StaticGroup.Fill` | crates/infrastore-core/src/reader.rs:260-273 | One row of every column; a failure leaves the group empty |
| `StaticReading.StaticGroup.FillPerVector` | crates/infrastore-core/src/reader.rs:282-312 | Each column reads the row its own vector resolved to; fails exactly when a vector id is out of range or the read fails |
| `StaticReading.StaticGroup.FillAtOffsets` | crates/infrastore-core/src/reader.rs:322-341 | Each column reads the shared index shifted by its own offset |
| `StaticReading.StaticReader.ReadAt` | crates/infrastore-core/src/reader.rs:542-593 | On success every group shows, column by column, the row its timeline assigns to the instant; it succeeds whenever every row is there and no read fails |
| `StaticReading.StaticReader.ReadPersistent` | crates/infrastore-core/src/reader.rs:578-589 | Rows are resolved once per interned vector and scattered to the columns that use it |
| `StaticReading.StaticReader.StaticRead` | crates/infrastore-core/src/store.rs:3911-3945 | All or nothing: every group holds the instant, or every group is empty |
| `StaticReading.StaticReader.Invalidate` | crates/infrastore-core/src/reader.rs:418-422 | Every group reads as empty |
| `StaticReading.RowIsTheSeriesOwn` | crates/infrastore-core/src/reader.rs:440-471 | The row a column reads is the one that holds its value at the instant on that series' own axis, inside its array, offsets included |
| `StaticReading.ColumnHasValueIffReadable` | crates/infrastore-core/src/reader.rs:440-471 | A shared axis refuses an instant exactly when the series has no value there |
| `StaticReading.AxisInverse` | crates/infrastore-core/src/reader.rs:440-498 | Index and timestamp of the public axis undo each other on all three timelines; a per-vector reader carries the instants in between to the breakpoint in force |
| `StaticReading.ReadAtUnionPoint` | crates/infrastore-core/src/reader.rs:576-593 | A per-vector read at any instant shows exactly the bytes it shows at the union point in force |
| `StaticBuilding.PlanUniform` | crates/infrastore-core/src/store.rs:3775-3905 | Builds exactly for series that share one non-empty grid; each sits on its own |
| `StaticBuilding.PlanWindowed` | crates/infrastore-core/src/reader.rs:781-870 | An explicit length builds exactly when every placed row covers it; the default is the greatest length that would build; index k with offset o lands on the row's own grid at anchor + k steps |
| `StaticBuilding.MakeReader` | crates/infrastore-core/src/reader.rs:984-1163 | The reader starts with every group empty and the groups of its plan |
| `StaticBuilding.ColumnSlice` | crates/infrastore-core/src/reader.rs:250-252 | Column j of a group's buffer is its own array's row, in its own slot of the buffer |
| `StaticBuilding.ReadIsEachSeriesAtItsOwnInstant` | crates/infrastore-core/src/reader.rs:542-593 | End to end: after a successful read of an accepted reader, column j of group g is some row's series and its bytes are that series' value at the instant on the axis it sits on, straight from its own array; the uniform, windowed and explicit-axis plans each supply that axis |
| `StaticAxes.PlanIrregular` | crates/infrastore-core/src/store.rs:3836-3872 | Builds over the filter's rows exactly when they name one vector between them and the groups build on it; the timeline is that vector |
| `StaticAxes.CohortsOf` | crates/infrastore-core/src/store.rs:3847-3870 | The listing's distinct axes are one exactly when no row names any other |
| `StaticAxes.IrregularRowsSitOnTheirOwn` | crates/infrastore-core/src/store.rs:3836-3872 | A row sits on the axis its own hash names exactly when it names one |
| `StaticAxes.UnnamedRowJoins` | crates/infrastore-core/src/store.rs:3836-3872 | A row of the vector's length that names no axis joins any cohort that builds, and the longer cohort meets the exact condition under which the shared-axis reader builds |
| `StaticAxes.PlanPersistent` | crates/infrastore-core/src/store.rs:3873-3898 | Builds over the filter's rows exactly when the groups build on their interned vectors; every row resolves on the vector its own hash names; the public axis is the union |
| `StaticAxes.PersistentRowsSitOnTheirOwn` | crates/infrastore-core/src/store.rs:3873-3898 | Every row of the per-vector reader sits on the axis its own hash names |
| `StaticAxes.IrregularReadIsOwn` | crates/infrastore-core/src/reader.rs:542-593 | From the catalog to the bytes: every column of a shared-axis read is a matched series' row, and its value on the axis it names whenever it names one, whatever the other rows name |
| `StaticAxes.PersistentReadIsOwn` | crates/infrastore-core/src/reader.rs:576-593 | From the catalog to the bytes: every column of a per-vector read is a matched series' value in force on the axis its row names |
| `StaticBuilding.LayoutIgnoresListingOrder` | crates/infrastore-core/src/reader.rs:1082-1097 | The column layout is the same for every listing order when no two rows tie |
| `Timestamps.StoredExactlyWhenPrecise` | crates/infrastore-core/src/timestamps.rs:64-88 | The stored millisecond form gives an instant back exactly when the precision rule admits it |
| `Timestamps.StoredOrder` | crates/infrastore-core/src/timestamps.rs:98-100 | Distinct admitted instants stay distinct and keep their order |
| `Codec.CurveRoundTrip` | crates/infrastore-core/src/codec.rs:102-179 | A packed piecewise-linear row unpacks to the curve, whatever its padding |
| `Codec.StepRoundTrip` | crates/infrastore-core/src/codec.rs:102-179 | A packed step row with 0, 1 or n coordinates unpacks to the function |
| `Codec.Widest` | crates/infrastore-core/src/codec.rs:188-280 | The width is the least that holds every row, and 1 when all are empty |
| `Codec.FillCurves` | crates/infrastore-core/src/codec.rs:232-244 | The in-place fill of the preallocated buffer equals the padded packed rows |
| `Codec.FillSteps` | crates/infrastore-core/src/codec.rs:245-276 | The in-place fill of step rows equals the padded packed rows |
| `Codec.Encode` | crates/infrastore-core/src/codec.rs:188-280 | The imperative encoder produces the packed array of its values |
| `Codec.PackedUnpacks` | crates/infrastore-core/src/codec.rs:102-179 | A packed array is valid for its element type and unpacks to the values it was packed from |
| `Codec.RoundTrip` | crates/infrastore-core/src/codec.rs:313-340 | decode(encode_as(v)) == v for every well-formed value, ragged, empty and zero-row cases included |
| `Codec.ReencodingNarrows` | crates/infrastore-core/src/codec.rs:188-280 | Re-encoding any validly decoded ragged array decodes to the same values in no greater width |
| `Hashing.StreamSplit` | crates/infrastore-core/src/hash.rs:74-91 | The canonical stream of a whole number of elements followed by more splits at the boundary |
| `Hashing.UpdateCanonicalNans` | crates/infrastore-core/src/hash.rs:74-91 | The run-batching loop feeds exactly the element-at-a-time canonical stream, for every byte string, width and NaN test, ignoring only a trailing partial element |
| `Hashing.FeedElements` | crates/infrastore-core/src/hash.rs:74-91 | The routine's loop over whole elements feeds the canonical stream, runs between NaNs at once |
| `Encoding.U64RoundTrip` | crates/infrastore-core/src/hash.rs:25-60 | Little-endian lengths read back |
| `Encoding.I64RoundTrip` | crates/infrastore-core/src/hash.rs:153-166 | Little-endian signed values read back |
| `Encoding.HashHex` | crates/infrastore-core/src/hash.rs:169-178 | The loop writes two lower-case digits per byte |
| `Encoding.HashFromHex` | crates/infrastore-core/src/hash.rs:191-205 | The loop reads a 64-digit text, refusing any other |
| `Encoding.HexInverse` | crates/infrastore-core/src/hash.rs:169-205 | Decoding undoes encoding for every 32-byte hash |
| `Encoding.HexInverseUpToCase` | crates/infrastore-core/src/hash.rs:191-205 | Exactly the 64-digit texts decode, and encoding undoes decoding up to letter case |
| `Preimages.FeaturesHash` | crates/infrastore-core/src/hash.rs:98-136 | The hasher is fed exactly the feature preimage |
| `Preimages.FeaturesParse` | crates/infrastore-core/src/hash.rs:98-136 | A parser over the fed bytes recovers the feature map, floats up to NaN canonicalisation |
| `Preimages.FeaturesStreamIdentifies` | crates/infrastore-core/src/hash.rs:98-136 | Two maps feed equal bytes exactly when they are equal up to NaN |
| `Preimages.TimestampsHash` | crates/infrastore-core/src/hash.rs:153-166 | The hasher is fed exactly the timestamp preimage |
| `Preimages.TimestampsParse` | crates/infrastore-core/src/hash.rs:153-166 | A parser over the fed bytes recovers the vector |
| `Preimages.ArrayHash` | crates/infrastore-core/src/hash.rs:25-60 | The hasher is fed exactly the array preimage |
| `Preimages.ArrayParses` | crates/infrastore-core/src/hash.rs:25-60 | A parser over the fed bytes recovers dtype, shape and canonical content |
| `Preimages.ArrayStreamIdentifies` | crates/infrastore-core/src/hash.rs:25-60 | Two arrays feed equal bytes exactly when dtype, shape and canonical content agree |
| `Preimages.DomainsDisjoint` | crates/infrastore-core/src/hash.rs:25-166 | No stream of one domain equals a stream of another |
| `ForecastCsv.ForecastValuesFromRows` | crates/infrastore-cli/src/descriptor.rs:311-340 | Accepts exactly the declared dimensions and returns the transpose: every cell written once, at its stored place |
| `ForecastCsv.ForecastValues` | crates/infrastore-cli/src/descriptor.rs:283-297 | Only the timestamped layout is transposed; the others pass through |
| `ForecastCsv.TransposedAt` | crates/infrastore-cli/src/descriptor.rs:325-338 | out[((s*H+h)*count+c)*E+j] = csv[(c*H+h)*(S*E)+s*E+j], for every coordinate |
| `ForecastCsv.ScatterOne` | crates/infrastore-cli/src/descriptor.rs:325-338 | Writing one more cell never overwrites an earlier one |
| `ForecastCsv.TransposeInverts` | crates/infrastore-cli/src/descriptor.rs:311-340 | The transpose is a bijection, undone in both directions |
| `ForecastCsv.WindowIsCsvWindow` | crates/infrastore-cli/src/descriptor.rs:311-340 | Window c of the stored order is the CSV rows of window c, each series' columns gathered together |
| `ForecastCsv.SingleSeriesWindowIsCsvRows` | crates/infrastore-cli/src/descriptor.rs:311-340 | For one series, window c is CSV rows c*H to (c+1)*H unchanged |
| `ForecastCsv.CutOfBytes` | crates/infrastore-core/src/storage.rs:698-728 | Cutting columns of values is cutting the columns of their bytes |
| `ForecastCsv.IngestedWindowIsCsvWindow` | crates/infrastore-cli/src/descriptor.rs:901-1035 | The window a reader serves from an array built out of a timestamped CSV is, byte for byte, that window of the CSV, for arrays with a leading series axis of any length, one included, and for those without |
| `Catalog.MoveProbeIsExact` | crates/infrastore-core/src/metadata.rs:3605-3656 | The owner-move probe reports a conflict exactly when the whole-set move would put an excluded pair in one family |
| `Catalog.MoveOrderDoesNotMatter` | crates/infrastore-core/src/metadata.rs:1555-1570 | Checked row by row in any order, the unique index refuses only a move it would refuse at the end |
| `Catalog.RemovalGuardIsExact` | crates/infrastore-core/src/store.rs:2681-2711 | The removal guard refuses exactly the removals that would take the last source from a view that stays |
| `CatalogInvariants.DigestIdentifies` | crates/infrastore-core/src/metadata.rs:1347-1350 | Where the digest tells maps apart, equal digests mean equal keys and values the catalog stores alike |
| `CatalogInvariants.PresentIsExact` | crates/infrastore-core/src/metadata.rs:1351-1376 | A set that is present is exactly the map it was written from, key for key and value for value |
| `CatalogInvariants.WithEntriesAt` | crates/infrastore-core/src/metadata.rs:1351-1376 | The feature statements change no stored row and add exactly the missing keys |
| `CatalogInvariants.InsertKeepsGood` | crates/infrastore-core/src/metadata.rs:1216-1339 | One insert, whichever of its statements fails, keeps ids unissued twice, identities unique, families exclusive and every row's feature set present |
| `CatalogInvariants.InsertReportsTheCollision` | crates/infrastore-core/src/metadata.rs:1306-1336 | The primary key is blamed before the identity; a filed id is new to the whole history; no other row changes |
| `CatalogInvariants.TrustedCacheNeedsTheSet` | crates/infrastore-core/src/metadata.rs:1241-1243 | Skipping the feature statements on a cache hit keeps referential integrity exactly when the set really is there or the insert will be refused: its statement fails, no id is to be had, or the identity is taken |
| `CatalogRuns.AddAllKeeps` | crates/infrastore-core/src/store.rs:2627-2655 | Every prefix of a batch, ids checked once against the mark before it, keeps the catalog and the cache sound |
| `CatalogRuns.SharedCacheIsTransparent` | crates/infrastore-core/src/metadata.rs:1207-1243 | A batch through one shared-set cache reaches the same rows, feature sets, ids and error as with a fresh cache per row |
| `CatalogRuns.BatchAdds` | crates/infrastore-core/src/metadata.rs:1216-1339 | A batch only adds: earlier rows and feature rows stay, and the new rows are filed under the ids it returns |
| `CatalogRuns.ImportKeeps` | crates/infrastore-core/src/store.rs:3105-3156 | An import with explicit ids in any order, views last, keeps the catalog sound |
| `CatalogRuns.DeriveKeeps` | crates/infrastore-core/src/store.rs:4540-4640 | A transform that checked every family first keeps the exclusion without a per-row probe |
| `CatalogRuns.SweepKeepsGood` | crates/infrastore-core/src/metadata.rs:1382-1390 | The sweep takes no feature row a live association references |
| `CatalogRuns.MoveKeepsGood` | crates/infrastore-core/src/store.rs:2874-2897 | An owner move keeps identities unique and families exclusive |
| `CatalogRuns.StepKeeps` | crates/infrastore-core/src/metadata.rs:1216-1592 | Every step of the store keeps the whole invariant, for the live state and every open savepoint |
| `CatalogRuns.EveryRunIsSound` | crates/infrastore-core/src/metadata.rs:1216-1592 | Every run from an empty store: no id issued twice, identities unique, no family with both forecast kinds, every feature set present |
| `CatalogRuns.EveryRunKeepsFeatures` | crates/infrastore-core/src/metadata.rs:1351-1376 | In every reachable state a row's feature rows are exactly the map it was filed with |
| `CatalogRuns.DeletedStaysDeleted` | crates/infrastore-core/src/metadata.rs:2667-2709 | A deleted id is not back after any step but a rollback, whatever the step files |
| `CatalogRuns.IssuedGrows` | crates/infrastore-core/src/metadata.rs:1245-1339 | Every step but a rollback only appends to the issued ids |
| `CatalogRuns.RowsAfter` | crates/infrastore-core/src/metadata.rs:1216-1592 | After such a step the table holds old rows, at most under another owner, and rows filed under ids the step handed out |
| `CatalogRuns.RollbackUndoes` | crates/infrastore-core/src/store.rs:1873-1912 | A rolled-back transaction leaves the catalog as it found it, id sequence included, with an empty cache, whatever levels it opened and closed inside |
| `CatalogRuns.RollbackReissues` | crates/infrastore-core/src/store.rs:1873-1912 | A concrete run in which an id handed out inside a rolled-back transaction is handed out again |
| `IdHistory.NothingUndoneNothingReissued` | crates/infrastore-core/src/metadata.rs:2667-2709 | Over every run in which no rollback undoes a handed-out id, the log of every id ever handed out has no repeats and none above the mark |
| `IdHistory.ReturnsOnlyByRollback` | crates/infrastore-core/src/metadata.rs:2667-2709 | A deleted id is back after a step exactly when the step is a rollback to a state that held it |
| `IdHistory.DeletedNeverReturns` | crates/infrastore-core/src/metadata.rs:2667-2709 | Over every run, a deleted id never returns as long as each rollback leaves it issued and deleted, whatever other ids the run undoes |
| `IdHistory.IdNamesOneSeries` | crates/infrastore-core/src/metadata.rs:2667-2709 | Over every run, an id that stays issued from some point on names one series from there on: whenever it resolves, it is the same row but for its owner, whatever other ids are undone |
| `IdHistory.AllOrNothing` | crates/infrastore-core/src/metadata.rs:1216-1339 | A step hands out exactly the ids fixed before it is called, or none |
| `IdHistory.AddReissuesExactly` | crates/infrastore-core/src/metadata.rs:1245-1339 | A successful add or transform of n rows hands out a logged id exactly when some logged id is one of the n next above the mark |
| `IdHistory.ImportReissuesExactly` | crates/infrastore-core/src/metadata.rs:2688-2709 | A successful import of explicit ids hands out a logged id exactly when it lists one, all of them above the mark; an import without ids is an add |
| `IdHistory.LogDistinctExactly` | crates/infrastore-core/src/metadata.rs:2667-2709 | Over every run, the log of every id ever handed out, undone or not, is free of repeats exactly when no step's ids, fixed before it is called, meet the log before it |
| `CatalogStore.Select` | crates/infrastore-core/src/metadata.rs:1529-1549 | A filtered scan names each matching row once, in scan order |
| `CatalogStore.MetadataStore.InsertFeatureSet` | crates/infrastore-core/src/metadata.rs:1351-1376 | The statement loop leaves exactly the entries written before a failure, and all of them without one |
| `CatalogStore.MetadataStore.InsertBatched` | crates/infrastore-core/src/metadata.rs:1216-1339 | The tables and result are those of the specification, the cache gains the digest even when the write fails |
| `CatalogStore.MetadataStore.InsertAssociationRow` | crates/infrastore-core/src/metadata.rs:1265-1336 | One statement for assigned and explicit ids, its two collisions told apart |
| `CatalogStore.MetadataStore.ReadExplicitIds` | crates/infrastore-core/src/metadata.rs:2688-2709 | Accepts a batch exactly when every id is positive and above the mark |
| `CatalogStore.MetadataStore.AddRows` | crates/infrastore-core/src/store.rs:2627-2655 | A batch loop with a savepoint: all of it or none of it; without one, the rows before the failure |
| `CatalogStore.MetadataStore.AddRow` | crates/infrastore-core/src/store.rs:6490-6497 | The family probe, then the insert |
| `CatalogStore.MetadataStore.DeleteById` | crates/infrastore-core/src/metadata.rs:1450-1525 | Deletes exactly the named row, and nothing when it is absent or another owner's |
| `CatalogStore.MetadataStore.DeleteByOwner` | crates/infrastore-core/src/metadata.rs:1529-1549 | Deletes exactly one owner's rows and returns one array hash per row |
| `CatalogStore.MetadataStore.DeleteAll` | crates/infrastore-core/src/metadata.rs:1573-1592 | Empties rows and feature sets, returns one array hash per row, keeps the id mark |
| `CatalogStore.MetadataStore.SweepOrphanFeatureSets` | crates/infrastore-core/src/metadata.rs:1382-1390 | Removes exactly the feature rows no association references, and counts them |
| `CatalogStore.MetadataStore.ReplaceOwner` | crates/infrastore-core/src/store.rs:2874-2897 | Probes the whole moved set, then moves it or changes nothing |
| `CatalogStore.MetadataStore.RemoveByIds` | crates/infrastore-core/src/store.rs:2765-2800 | Succeeds exactly when every id is there, owned as expected and no staying view loses its source; then removes exactly those, counting a repeated id once; otherwise changes nothing |
| `ComponentMoves.MoveRenamesTheGraph` | crates/infrastore-core/src/metadata.rs:2872-2911 | A component rewrite renames every edge at whichever ends named it and leaves no edge naming the old component |
| `ComponentMoves.MoveKeepsLabels` | crates/infrastore-core/src/metadata.rs:2877-2893 | If no component was labelled two ways before, none is after |
| `ComponentMoves.RewriteOrderDoesNotMatter` | crates/infrastore-core/src/metadata.rs:2893-2910 | Edge by edge in any order, the unique index refuses only what it would refuse at the end |
| `ComponentMoves.EdgeTable.ReplaceComponent` | crates/infrastore-core/src/metadata.rs:2872-2911 | Rewrites everything under the destination's label, or refuses, changing nothing, exactly when two edges would coincide; a self-move changes nothing |
| `TimestampCache.RecencyIsByLastUse` | crates/infrastore-core/src/metadata.rs:117-120 | Recency order is the order of last uses, each hash once |
| `TimestampCache.TouchHeld` | crates/infrastore-core/src/metadata.rs:128-136 | Keeping only the n most recent loses nothing a hit needs: it moves to the back |
| `TimestampCache.TouchNew` | crates/infrastore-core/src/metadata.rs:138-146 | A new hash joins the n most recent, the coldest leaving when full |
| `TimestampCache.Memo.Get` | crates/infrastore-core/src/metadata.rs:128-136 | A hit exactly for the most recently accessed hashes, returning the vector the hash names |
| `TimestampCache.Memo.Insert` | crates/infrastore-core/src/metadata.rs:138-146 | The memo stays precisely the most recent hashes; one already held changes nothing |
| `TimestampCache.Memo.TimestampsForHash` | crates/infrastore-core/src/metadata.rs:1835-1846 | Returns what the hash names, from memory or the backend; fails exactly on a miss whose read fails, changing nothing |
| `TimestampCache.Lookups` | crates/infrastore-core/src/metadata.rs:1835-1846 | Over any run against a backend that comes and goes, every answer is what a direct read returned |
| `Listing.ReadFeatures` | crates/infrastore-core/src/metadata.rs:1761-1781 | The rows one digest names, collected in any scan order into the ordered map; fails exactly on a NULL value |
| `Listing.SetReadsBack` | crates/infrastore-core/src/types/metadata.rs:344-372 | A stored map reads back as written exactly when the write path's rule admits every value; the read itself fails exactly on a NaN |
| `Listing.FirstSeen` | crates/infrastore-core/src/metadata.rs:1784-1803 | The distinct axes of the surviving rows, no hash twice |
| `Listing.ReadAxes` | crates/infrastore-core/src/metadata.rs:1717-1748 | A vector the store holds is fetched once however many rows name it; one it does not hold is asked for again by every row that names it and left out; any other failure is passed on |
| `Listing.ListInner` | crates/infrastore-core/src/metadata.rs:1686-1828 | The listing is exactly the selected rows that pass the in-memory feature test, rehydrated, with the surviving axes in first-seen order; it fails only on an unreadable feature set, a failing axis lookup, or a surviving row whose axis the store does not hold |
| `Listing.Assemble` | crates/infrastore-core/src/metadata.rs:1783-1827 | Rows in order; fails exactly when hydration is on and a surviving row's axis was not found |
| `Listing.ListTimelineRows` | crates/infrastore-core/src/metadata.rs:1650-1682 | Each row is tagged with the index of its own vector in a duplicate-free list, each vector decoded once |
| `Listing.SubsetIsProbed` | crates/infrastore-core/src/metadata.rs:1960-1991 | What the in-memory subset test accepts, the correlated seeks find |
| `Listing.ProbedIsSubset` | crates/infrastore-core/src/metadata.rs:3164-3168 | What the correlated seeks find, the in-memory subset test accepts |
| `Listing.ExistsIsNonEmptyListing` | crates/infrastore-core/src/metadata.rs:1928-1949 | The two-step existence probe is true exactly when listing the same filter is non-empty |
| `CatalogColumns.ReaderKeyNamesOneRow` | crates/infrastore-core/src/reader.rs:1822-1829 | The readers' sort key, which leaves out type and interval, still names one row, thanks to the family exclusion |
| `CatalogColumns.LayoutIsOrderFree` | crates/infrastore-core/src/reader.rs:1082-1097 | On any reachable catalog a reader's column layout is the same for every listing order |
| `CatalogColumns.ExportIsOrderFree` | crates/infrastore-core/src/openapi.rs:533-573 | On any reachable catalog the exported document is the same for every listing order |
| `CatalogColumns.EveryRunServesExists` | crates/infrastore-core/src/metadata.rs:1928-1949 | Every reachable catalog of storable features meets the existence probe's hypotheses |
| `TimeReferences.ParseOffset` | crates/infrastore-core/src/types/time_reference.rs:218-245 | Anything read as an offset is strictly within a day of UTC |
| `TimeReferences.ReadsBackExactlyWhenValid` | crates/infrastore-core/src/types/time_reference.rs:107-205 | A reference's storage spelling reads back as itself exactly when it validates |
| `OpenApi.TimestampRoundTrip` | crates/infrastore-core/src/openapi.rs:332-383 | All five time-reference cases come back, the instant floored to the millisecond; only an unreal offset cannot leave |
| `OpenApi.RowRoundTrip` | crates/infrastore-core/src/openapi.rs:457-858 | Every well-formed row comes back from its wire row, column for column, its vector replaced by its axis hash |
| `OpenApi.RoundTripExactly` | crates/infrastore-core/src/openapi.rs:399-402 | The shape survives exactly when the row has a length or had no leading axes to lose |
| `OpenApi.AcceptsExactly` | crates/infrastore-core/src/openapi.rs:690-858 | An import takes exactly the rows with a storable alignment, hash locators, a timestamp that does not contradict its reference, and non-negative sizes |
| `OpenApi.SortKeyIdentifies` | crates/infrastore-core/src/openapi.rs:137-157 | Equal sort keys are equal catalog identities |
| `OpenApi.ExportTsRows` | crates/infrastore-core/src/openapi.rs:533-573 | Refused exactly when a row that travels cannot be written, which among rows whose references validate means a missing column or a float JSON cannot spell; otherwise the rows that travel, mapped and sorted |
| `OpenApi.ExportIgnoresListingOrder` | crates/infrastore-core/src/openapi.rs:566-571 | The document is the same for every listing order of rows with distinct identities |
| `Ordering.KeyOrder` | crates/infrastore-core/src/reader.rs:1822-1829 | The sort keys are strictly and totally ordered |
| `Ordering.SortIgnoresArrival` | crates/infrastore-core/src/reader.rs:1093-1097 | A stable sort of identified rows does not show the order they arrived in |
| `Metadata.FeaturesKeyInjective` | crates/infrastore-core/src/types/metadata.rs:212-229 | Equal feature sort keys are equal feature maps up to NaN |

## Left out

- Calendar months: periods are fixed numbers of milliseconds, so month arithmetic and the check that a month grid can be anchored are not modelled.
- Instants outside the date library's range, and overflow when an instant is advanced.
- HDF5 layout, packing pools, the write buffer and chunked reads: a backend is what its calls return.
- SQLite itself: statements are atomic, uniqueness and the id sequence are their documented effects, and a full disk or an I/O error that rolls back a whole transaction by itself is not modelled.
- SHA-256 and SQLite's file format.
- Codec.RoundTrip: packed counts are carried as exact numbers, so the rounding of a count above 2^53 to a float is not modelled, nor is the conversion between bytes and floats.
- Text forms of periods, element types, dtypes and numbers: they travel as values. A tuple element type of arity 0 prints a text that does not parse.
- JSON, the schema check in front of an import, and error message texts; an error is its variant.
- An import's checks that each array and axis is in the file and has the declared shape: they only refuse more, and the file is not part of the catalog model.
- `copy_time_series`: an add of a row read back from the catalog, in a savepoint of its own.
- The owner-type label, and the other column filters of a listing, are one arbitrary predicate over the row.
- Rewriting a component id on supplemental attributes: the one-ended case of the edge rewrite.
- How a transform picks its sources, window counts and intervals: the views it files are given.
- How `build_static_reader_over` picks its builder from the filter and refuses a filter that fits none: each of the four builds is modelled, the choice between them is not.
- That every stored time axis is strictly increasing: the write path's check is taken as given by the readers' theorems.
- Counts, summaries, distinct-value queries and listings in chunks of ids.
- The command line, bindings, gRPC, Parquet and Arrow.
