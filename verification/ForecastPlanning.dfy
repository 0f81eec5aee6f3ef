/** How a forecast row becomes a window slot, and how slots are shared
    (reader.rs, entry_layout and build_forecast_entries; storage/common.rs, window_block_cols). */
module ForecastPlanning {
  import opened Wrappers
  import opened Arrays
  import opened Cuts
  import opened Storage
  import opened Ordering
  import opened Metadata
  import opened Cohorts
  import opened ForecastWindows
  import opened ForecastReading

  const MAX_CHUNK_BYTES: nat := 1048576

  /** Windows per cached block: as many as fit the chunk budget, at least one, at most all. */
  function WindowBlockCols(dtype: Dtype, shape: Shape, countAxis: nat): (cols: nat)
    ensures cols >= 1
    ensures countAxis < |shape| && shape[countAxis] > 0 ==> cols <= shape[countAxis]
  {
    var axisLen := if countAxis < |shape| then shape[countAxis] else 0;
    if axisLen == 0 then 1 else
      var windowBytes := Product(WithoutAxis(shape, countAxis)) * dtype.Size();
      var block := if windowBytes < 1 then 1 else windowBytes;
      var cap := if MAX_CHUNK_BYTES / block < 1 then 1 else MAX_CHUNK_BYTES / block;
      Min(cap, axisLen)
  }

  datatype Layout = Layout(windowShape: Shape, read: WindowRead)

  function DenseLayout(shape: Shape, countAxis: nat, count: nat): Result<Layout> {
    if countAxis >= |shape| then Err(IntegrityError)
    else if shape[countAxis] != count then Err(IntegrityError)
    else Ok(Layout(WithoutAxis(shape, countAxis), Dense(countAxis)))
  }

  function EntryLayout(m: TimeSeriesMetadata, shape: Shape, count: nat): Result<Layout> {
    match m.tsType
    case Deterministic => DenseLayout(shape, 1, count)
    case Probabilistic | Scenarios => DenseLayout(shape, 2, count)
    case DeterministicSingleTimeSeries =>
      if m.resolution.None? || m.horizon.None? || m.interval.None? then Err(IntegrityError) else
      var h := m.resolution.value.DivideInto(m.horizon.value);
      if h.Err? then Err(IntegrityError) else
      var interval := m.interval.value;
      var steps := if count == 1 && interval.IsZero() then Ok(0) else m.resolution.value.DivideInto(interval);
      if steps.Err? then Err(IntegrityError) else
      var totalLen := if shape == [] then 0 else shape[0];
      var required := (if count == 0 then 0 else count - 1) * steps.value + h.value;
      if required > totalLen then Err(IntegrityError) else
      Ok(Layout([h.value] + (if shape == [] then [] else shape[1..]), Derived(steps.value, h.value)))
    case _ => Err(InvalidParameter)
  }

  /** Every window of an accepted row lies inside its array, and the window shape is the
      array's own shape without the axis that counts windows. */
  lemma LayoutFits(m: TimeSeriesMetadata, arr: TypedArray, count: nat)
    requires arr.WellFormed() && EntryLayout(m, arr.shape, count).Ok?
    ensures var l := EntryLayout(m, arr.shape, count).value;
            Describes(l.read, count, arr)
            && l.windowShape == match l.read
                                case Dense(axis) => WithoutAxis(arr.shape, axis)
                                case Derived(_, h) => [h] + arr.shape[1..]
  {
    var l := EntryLayout(m, arr.shape, count).value;
    if m.tsType.DeterministicSingleTimeSeries? {
      DividesPositive(m.resolution.value, m.horizon.value);
      assert arr.shape != [];
      forall w: nat | w < count
        ensures w * l.read.intervalSteps + l.read.horizonSteps <= arr.shape[0]
      {
        MulMonotone(w, count - 1, l.read.intervalSteps);
      }
    }
  }

  lemma DividesPositive(p: Period, q: Period)
    ensures p.DivideInto(q).Ok? ==> p.DivideInto(q).value > 0 && p.DivideInto(q).value * p.ms == q.ms
  {}

  // ---- a derived view against the dense forecast it stands for --------------------------

  /** Bytes of one step of a `[len, *E]` array. */
  function StepBytes(source: TypedArray): nat
    requires source.shape != []
  {
    Product(source.shape[1..]) * source.dtype.Size()
  }

  /** The `i`-th run of `e` entries. */
  function EntryAt<T>(s: seq<T>, i: nat, e: nat): seq<T> {
    if 0 <= i * e <= i * e + e <= |s| then s[i * e..i * e + e] else []
  }

  /** `dense` is the `[H, count, *E]` forecast whose entry `[s, k]` is step `k * steps + s` of
      the source `[len, *E]`. */
  ghost predicate Materializes(dense: TypedArray, source: TypedArray, steps: nat, h: nat, count: nat) {
    && dense.WellFormed() && source.WellFormed() && source.shape != []
    && dense.dtype == source.dtype
    && dense.shape == [h, count] + source.shape[1..]
    && Describes(Derived(steps, h), count, source)
    && forall s: nat, k: nat :: s < h && k < count ==>
         EntryAt(dense.bytes, s * count + k, StepBytes(source)) == EntryAt(source.bytes, k * steps + s, StepBytes(source))
  }

  predicate SameRun<T(==)>(a: seq<T>, i: int, b: seq<T>, j: int, n: nat) {
    0 <= i <= i + n <= |a| && 0 <= j <= j + n <= |b| && a[i..i + n] == b[j..j + n]
  }

  /** Row `s` of `src` has, from column `from`, the `s`-th stretch of `run`. */
  predicate RowRuns<T(==)>(src: seq<T>, width: nat, from: nat, len: nat, run: seq<T>, base: nat, s: nat) {
    SameRun(src, s * width + from, run, base + s * len, len)
  }

  /** If each row's cut columns are the next `len` entries of `run`, the cut is that run. */
  lemma {:induction false} CutIsRun<T>(src: seq<T>, h: nat, width: nat, from: nat, len: nat, run: seq<T>, base: nat)
    requires |src| == h * width && from + len <= width && base + h * len <= |run|
    requires forall s: nat :: s < h ==> RowRuns(src, width, from, len, run, base, s)
    ensures Cut(src, h, width, from, len) == run[base..base + h * len]
  {
    if h > 0 {
      RowsFit(h, width);
      RowsFit(h, len);
      var tail, next, n := src[width..], base + len, (h - 1) * len;
      forall s: nat | s < h - 1
        ensures RowRuns(tail, width, from, len, run, next, s)
      {
        RowRunsBehind(src, width, from, len, run, base, s);
      }
      CutIsRun(tail, h - 1, width, from, len, run, next);
      assert RowRuns(src, width, from, len, run, base, 0);
      RunJoins(run, base, len, n);
    }
  }

  lemma RowRunsBehind<T>(src: seq<T>, width: nat, from: nat, len: nat, run: seq<T>, base: nat, s: nat)
    requires width <= |src| && RowRuns(src, width, from, len, run, base, s + 1)
    ensures RowRuns(src[width..], width, from, len, run, base + len, s)
  {
    Distribute(s, 1, width);
    Distribute(s, 1, len);
    SameRunBehind(src, width, s * width + from, run, base + len + s * len, len);
  }

  lemma SameRunBehind<T>(a: seq<T>, skip: nat, i: nat, b: seq<T>, j: nat, n: nat)
    requires SameRun(a, skip + i, b, j, n) && skip <= |a|
    ensures SameRun(a[skip..], i, b, j, n)
  {
    assert a[skip..][i..i + n] == a[skip + i..skip + i + n];
  }

  lemma RunJoins<T>(run: seq<T>, base: nat, m: nat, n: nat)
    requires base + m + n <= |run|
    ensures run[base..base + m] + run[base + m..base + m + n] == run[base..base + (m + n)]
  {}

  lemma EntryRuns(dense: TypedArray, source: TypedArray, steps: nat, h: nat, count: nat, w: nat, s: nat, e: nat, width: nat, from: nat, base: nat)
    requires Materializes(dense, source, steps, h, count) && w < count && s < h
    requires e == StepBytes(source) && width == count * e && from == w * e && base == (w * steps) * e
    requires |dense.bytes| == h * width && |source.bytes| == source.shape[0] * e
    ensures RowRuns(dense.bytes, width, from, e, source.bytes, base, s)
  {
    SourceStart(s, count, w, e);
    RowInside(s, h, width);
    StepsFit(count, w, 1, e);
    Distribute(w * steps, s, e);
    RowInside(w * steps + s, source.shape[0], e);
    assert EntryAt(dense.bytes, s * count + w, e) == EntryAt(source.bytes, w * steps + s, e);
  }

  /** The derived run for window `w` is, byte for byte, window `w` of the dense forecast. */
  lemma DerivedEqualsDense(dense: TypedArray, source: TypedArray, steps: nat, h: nat, count: nat, w: nat)
    requires Materializes(dense, source, steps, h, count) && w < count
    ensures Describes(Dense(1), count, dense)
    ensures WindowBytes(Derived(steps, h), count, source, w) == WindowBytes(Dense(1), count, dense, w)
  {
    var e := StepBytes(source);
    MulMonotone(0, w, steps);
    MulMonotone(0, w * steps, e);
    StepsFit(count, w, 1, e);
    var width: nat, from: nat, base: nat := count * e, w * e, (w * steps) * e;
    RunOfSource(source, w * steps, h, e, base);
    CutOfDense(dense, source, h, count, w, e, width, from);
    forall s: nat | s < h
      ensures RowRuns(dense.bytes, width, from, e, source.bytes, base, s)
    {
      EntryRuns(dense, source, steps, h, count, w, s, e, width, from, base);
    }
    CutIsRun(dense.bytes, h, width, from, e, source.bytes, base);
  }

  /** Rows of the source from one on are one stretch of its bytes. */
  lemma RunOfSource(source: TypedArray, start: nat, h: nat, e: nat, base: nat)
    requires source.WellFormed() && source.shape != [] && e == StepBytes(source)
    requires start + h <= source.shape[0] && base == start * e
    ensures |source.bytes| == source.shape[0] * e && base + h * e <= |source.bytes|
    ensures Block(source, 0, start, h) == source.bytes[base..base + h * e]
  {
    assert source.shape[..0] == [];
    MatrixSize(source, 0);
    StepsFit(source.shape[0], start, h, e);
    CutOneRow(source.bytes, base, h * e);
  }

  /** A window of an `[h, count, *E]` forecast is the window's columns of each of its `h` rows. */
  lemma CutOfDense(dense: TypedArray, source: TypedArray, h: nat, count: nat, w: nat, e: nat, width: nat, from: nat)
    requires dense.WellFormed() && source.shape != [] && dense.dtype == source.dtype
    requires dense.shape == [h, count] + source.shape[1..] && w < count
    requires e == StepBytes(source) && width == count * e && from == w * e
    ensures from + e <= width && |dense.bytes| == h * width
    ensures Window(dense, 1, w) == Cut(dense.bytes, h, width, from, e)
  {
    assert dense.shape[2..] == source.shape[1..] && dense.shape[..1] == [h];
    ProductOne(h);
    MatrixSize(dense, 1);
    StepsFit(count, w, 1, e);
  }

  // ---- shared slots -----------------------------------------------------------------------

  datatype Item = Item(meta: TimeSeriesMetadata, shape: Shape)
  datatype WindowTimeline = WindowTimeline(initial: Instant, resolution: Period, interval: Period, count: nat)
  datatype SlotKey = SlotKey(hash: Digest, read: WindowRead, elementType: ElementType)

  function ForecastTimeline(m: TimeSeriesMetadata): Result<WindowTimeline> {
    if m.initial.None? || m.resolution.None? || m.interval.None? || m.count.None? then Err(IntegrityError)
    else Ok(WindowTimeline(m.initial.value, m.resolution.value, m.interval.value, m.count.value))
  }

  /** What a row has to satisfy to join a reader on `timeline`. */
  predicate Joins(reported: TimeSeriesType, timeline: WindowTimeline, item: Item) {
    && reported.Accepts(item.meta.tsType)
    && ForecastTimeline(item.meta) == Ok(timeline)
    && EntryLayout(item.meta, item.shape, timeline.count).Ok?
    && item.meta.id.Some?
  }

  /** A slot before it has buffers. */
  datatype SlotPlan = SlotPlan(hash: Digest, elementType: ElementType, windowShape: Shape, read: WindowRead, blockCols: nat) {
    function Key(): SlotKey { SlotKey(hash, read, elementType) }
  }

  function Metas(items: seq<Item>): seq<TimeSeriesMetadata> {
    seq(|items|, i requires 0 <= i < |items| => items[i].meta)
  }

  function ByIdentity(items: seq<Item>): seq<Item> {
    SortBy(items, (it: Item) => IdentitySortKey(it.meta))
  }

  /** The shapes handed in are the stored ones, and an array's dtype is the one its catalog
      element type derives. */
  ghost predicate StoredShapes(items: seq<Item>, contents: Contents) {
    && SoundContents(contents)
    && forall i :: 0 <= i < |items| ==>
         && items[i].meta.dataHash in contents
         && contents[items[i].meta.dataHash].shape == items[i].shape
         && contents[items[i].meta.dataHash].dtype == items[i].meta.elementType.PhysicalDtype()
  }

  ghost predicate Buildable(reported: TimeSeriesType, sorted: seq<Item>) {
    && sorted != []
    && CohortSpelling(References(Metas(sorted))).Ok?
    && ForecastTimeline(sorted[0].meta).Ok?
    && AllJoin(reported, ForecastTimeline(sorted[0].meta).value, sorted, |sorted|)
  }

  ghost predicate AllJoin(reported: TimeSeriesType, timeline: WindowTimeline, rows: seq<Item>, n: nat)
    requires n <= |rows|
  {
    forall i :: 0 <= i < n ==> Joins(reported, timeline, rows[i])
  }

  lemma OneMoreJoins(reported: TimeSeriesType, timeline: WindowTimeline, rows: seq<Item>, n: nat)
    requires n < |rows| && AllJoin(reported, timeline, rows, n)
    ensures AllJoin(reported, timeline, rows, n + 1) <==> Joins(reported, timeline, rows[n])
    ensures !Joins(reported, timeline, rows[n]) ==> !AllJoin(reported, timeline, rows, |rows|)
  {}

  /** One slot per distinct (array, read plan, element type), every slot used, and each entry
      reaching a slot that stands for exactly its own row's window. */
  ghost predicate SharesSlots(plans: seq<SlotPlan>, entries: seq<ForecastEntry>, sorted: seq<Item>, count: nat)
  {
    && |entries| == |sorted|
    && (forall i, j :: 0 <= i < j < |plans| ==> plans[i].Key() != plans[j].Key())
    && (forall i :: 0 <= i < |entries| ==> entries[i].slot < |plans| && Reaches(entries[i], plans[entries[i].slot], sorted[i], count))
    && (forall s :: 0 <= s < |plans| ==> Used(entries, s))
  }

  ghost predicate Used(entries: seq<ForecastEntry>, s: nat) {
    exists i :: 0 <= i < |entries| && entries[i].slot == s
  }

  ghost predicate Reaches(entry: ForecastEntry, plan: SlotPlan, item: Item, count: nat) {
    && item.meta.id == Some(entry.id)
    && EntryLayout(item.meta, item.shape, count) == Ok(Layout(plan.windowShape, plan.read))
    && plan.hash == item.meta.dataHash && plan.elementType == item.meta.elementType
  }

  ghost predicate PlanFits(plan: SlotPlan, count: nat, contents: Contents) {
    && plan.hash in contents
    && contents[plan.hash].dtype == plan.elementType.PhysicalDtype()
    && Describes(plan.read, count, contents[plan.hash])
    && plan.windowShape == match plan.read
                           case Dense(axis) => WithoutAxis(contents[plan.hash].shape, axis)
                           case Derived(_, h) => [h] + contents[plan.hash].shape[1..]
  }

  datatype ForecastPlan = ForecastPlan(timeline: WindowTimeline, spelling: Option<TimeReference>,
                                       slots: seq<SlotPlan>, entries: seq<ForecastEntry>)

  method PlanForecastEntries(reported: TimeSeriesType, items: seq<Item>, ghost contents: Contents)
    returns (r: Result<ForecastPlan>)
    requires StoredShapes(items, contents)
    ensures r.Ok? <==> Buildable(reported, ByIdentity(items))
    ensures r.Ok? ==> SharesSlots(r.value.slots, r.value.entries, ByIdentity(items), r.value.timeline.count)
    ensures r.Ok? ==> ForecastTimeline(ByIdentity(items)[0].meta) == Ok(r.value.timeline)
    ensures r.Ok? ==> CohortSpelling(References(Metas(ByIdentity(items)))) == Ok(r.value.spelling)
    ensures r.Ok? ==> forall s :: 0 <= s < |r.value.slots| ==> PlanFits(r.value.slots[s], r.value.timeline.count, contents)
  {
    var sorted := ByIdentity(items);
    if items == [] {
      return Err(InvalidParameter);
    }
    SortKeepsShapes(items, contents);
    var spelling :- CohortTimeReference(Metas(sorted));
    var timeline :- ForecastTimeline(sorted[0].meta);
    var planned :- PlanRows(reported, timeline, sorted, contents);
    return Ok(ForecastPlan(timeline, spelling, planned.0, planned.1));
  }

  method PlanRows(reported: TimeSeriesType, timeline: WindowTimeline, sorted: seq<Item>, ghost contents: Contents)
    returns (r: Result<(seq<SlotPlan>, seq<ForecastEntry>)>)
    requires StoredShapes(sorted, contents)
    ensures r.Ok? <==> AllJoin(reported, timeline, sorted, |sorted|)
    ensures r.Ok? ==> SharesSlots(r.value.0, r.value.1, sorted, timeline.count)
    ensures r.Ok? ==> forall s :: 0 <= s < |r.value.0| ==> PlanFits(r.value.0[s], timeline.count, contents)
  {
    var count := timeline.count;
    var plans: seq<SlotPlan>, entries: seq<ForecastEntry> := [], [];
    var slotOf: map<SlotKey, nat> := map[];
    var i := 0;
    while i < |sorted|
      invariant 0 <= i <= |sorted|
      invariant AllJoin(reported, timeline, sorted, i)
      invariant SharesSlots(plans, entries, sorted[..i], count)
      invariant Indexed(plans, slotOf)
      invariant forall s :: 0 <= s < |plans| ==> PlanFits(plans[s], count, contents)
    {
      OneMoreJoins(reported, timeline, sorted, i);
      var layout :- CheckRow(reported, timeline, sorted[i]);
      plans, slotOf, entries := FileRow(sorted, i, layout, plans, slotOf, entries, count, contents);
      i := i + 1;
    }
    assert sorted[..i] == sorted;
    return Ok((plans, entries));
  }

  /** File row `i` under its slot. */
  method FileRow(sorted: seq<Item>, i: nat, layout: Layout, plans: seq<SlotPlan>, slotOf: map<SlotKey, nat>, entries: seq<ForecastEntry>,
                 count: nat, ghost contents: Contents)
    returns (plans': seq<SlotPlan>, slotOf': map<SlotKey, nat>, entries': seq<ForecastEntry>)
    requires i < |sorted| && StoredShapes(sorted, contents) && sorted[i].meta.id.Some?
    requires EntryLayout(sorted[i].meta, sorted[i].shape, count) == Ok(layout)
    requires SharesSlots(plans, entries, sorted[..i], count) && Indexed(plans, slotOf)
    requires forall s :: 0 <= s < |plans| ==> PlanFits(plans[s], count, contents)
    ensures SharesSlots(plans', entries', sorted[..i + 1], count) && Indexed(plans', slotOf')
    ensures forall s :: 0 <= s < |plans'| ==> PlanFits(plans'[s], count, contents)
  {
    var slot: nat;
    OneStored(sorted, i, contents);
    plans', slotOf', slot := SlotFor(sorted[i], layout, plans, slotOf, count, contents);
    entries' := entries + [ForecastEntry(sorted[i].meta.id.value, slot)];
    KeysApart(plans', slotOf');
    SharesOneMore(plans, entries, sorted[..i], plans', sorted[i], slot, count);
    PrefixPush(sorted, i);
  }

  lemma OneStored(sorted: seq<Item>, i: nat, contents: Contents)
    requires i < |sorted| && StoredShapes(sorted, contents)
    ensures StoredShapes([sorted[i]], contents)
  {}

  lemma KeysApart(plans: seq<SlotPlan>, slotOf: map<SlotKey, nat>)
    requires Indexed(plans, slotOf)
    ensures forall i, j :: 0 <= i < j < |plans| ==> plans[i].Key() != plans[j].Key()
  {}

  /** The per-row checks, in the order they are made. */
  function CheckRow(reported: TimeSeriesType, timeline: WindowTimeline, item: Item): (r: Result<Layout>)
    ensures r.Ok? <==> Joins(reported, timeline, item)
    ensures r.Ok? ==> EntryLayout(item.meta, item.shape, timeline.count) == r
  {
    if !reported.Accepts(item.meta.tsType) then Err(IntegrityError) else
    var tl :- ForecastTimeline(item.meta);
    if tl != timeline then Err(InvalidParameter) else
    var layout :- EntryLayout(item.meta, item.shape, timeline.count);
    if item.meta.id.None? then Err(IntegrityError) else Ok(layout)
  }

  ghost predicate Indexed(plans: seq<SlotPlan>, slotOf: map<SlotKey, nat>) {
    && (forall s :: 0 <= s < |plans| ==> plans[s].Key() in slotOf && slotOf[plans[s].Key()] == s)
    && (forall k :: k in slotOf ==> slotOf[k] < |plans| && plans[slotOf[k]].Key() == k)
  }

  /** The slot already filed under the row's key, or a new one. */
  method SlotFor(item: Item, layout: Layout, plans: seq<SlotPlan>, slotOf: map<SlotKey, nat>, count: nat,
                 ghost contents: Contents)
    returns (plans': seq<SlotPlan>, slotOf': map<SlotKey, nat>, slot: nat)
    requires StoredShapes([item], contents) && EntryLayout(item.meta, item.shape, count) == Ok(layout)
    requires Indexed(plans, slotOf) && forall s :: 0 <= s < |plans| ==> PlanFits(plans[s], count, contents)
    ensures Indexed(plans', slotOf') && forall s :: 0 <= s < |plans'| ==> PlanFits(plans'[s], count, contents)
    ensures plans' == plans || (|plans'| == |plans| + 1 && plans'[..|plans|] == plans && slot == |plans|)
    ensures slot < |plans'| && plans'[slot].hash == item.meta.dataHash && plans'[slot].elementType == item.meta.elementType
    ensures Layout(plans'[slot].windowShape, plans'[slot].read) == layout
  {
    assert [item][0] == item;
    LayoutFits(item.meta, contents[item.meta.dataHash], count);
    var key := SlotKey(item.meta.dataHash, layout.read, item.meta.elementType);
    if key in slotOf {
      assert PlanFits(plans[slotOf[key]], count, contents);
      return plans, slotOf, slotOf[key];
    }
    var blockCols := match layout.read
      case Dense(axis) => WindowBlockCols(item.meta.elementType.PhysicalDtype(), item.shape, axis)
      case Derived(_, _) => 1;
    plans' := plans + [SlotPlan(item.meta.dataHash, item.meta.elementType, layout.windowShape, layout.read, blockCols)];
    slotOf' := slotOf[key := |plans|];
    slot := |plans|;
  }

  lemma SharesOneMore(before: seq<SlotPlan>, had: seq<ForecastEntry>, done: seq<Item>, plans: seq<SlotPlan>, item: Item,
                      slot: nat, count: nat)
    requires SharesSlots(before, had, done, count) && item.meta.id.Some?
    requires plans == before || (|plans| == |before| + 1 && plans[..|before|] == before && slot == |before|)
    requires forall i, j :: 0 <= i < j < |plans| ==> plans[i].Key() != plans[j].Key()
    requires slot < |plans| && Reaches(ForecastEntry(item.meta.id.value, slot), plans[slot], item, count)
    ensures SharesSlots(plans, had + [ForecastEntry(item.meta.id.value, slot)], done + [item], count)
  {
    var entries := had + [ForecastEntry(item.meta.id.value, slot)];
    forall s | 0 <= s < |plans|
      ensures Used(entries, s)
    {
      if s < |before| {
        assert Used(had, s);
        var i :| 0 <= i < |had| && had[i].slot == s;
        assert entries[i].slot == s;
      } else {
        assert entries[|had|].slot == s;
      }
    }
    forall i | 0 <= i < |entries|
      ensures entries[i].slot < |plans| && Reaches(entries[i], plans[entries[i].slot], (done + [item])[i], count)
    {
      if i < |had| {
        assert Reaches(had[i], before[had[i].slot], done[i], count);
        assert plans[had[i].slot] == before[had[i].slot];
      }
    }
  }

  lemma SortKeepsShapes(items: seq<Item>, contents: Contents)
    requires StoredShapes(items, contents)
    ensures StoredShapes(ByIdentity(items), contents)
  {
    var sorted := ByIdentity(items);
    forall i | 0 <= i < |sorted|
      ensures sorted[i] in items
    {
      assert sorted[i] in multiset(sorted);
    }
  }

  /** Build the reader: the planned slots, each with empty buffers. */
  method BuildForecastReader(reported: TimeSeriesType, items: seq<Item>, ghost contents: Contents)
    returns (r: Result<ForecastReader>, ghost plan: Result<ForecastPlan>)
    requires StoredShapes(items, contents)
    ensures r.Ok? <==> Buildable(reported, ByIdentity(items))
    ensures r.Ok? ==> plan.Ok? && SharesSlots(plan.value.slots, plan.value.entries, ByIdentity(items), r.value.count)
    ensures r.Ok? ==> r.value.Valid(contents) && r.value.entries == plan.value.entries
    ensures r.Ok? ==> |r.value.slots| == |plan.value.slots|
    ensures r.Ok? ==> forall s :: 0 <= s < |r.value.slots| ==> Realizes(r.value.slots[s], plan.value.slots[s])
  {
    var made := PlanForecastEntries(reported, items, contents);
    plan := made;
    if made.Err? {
      return Err(made.error), plan;
    }
    var p := made.value;
    var slots := AllocateSlots(p.slots, p.timeline.count);
    var reader := new ForecastReader(p.timeline.initial, p.timeline.interval, p.timeline.count, slots, p.entries);
    forall s | 0 <= s < |slots|
      ensures slots[s].hash in contents && slots[s].Fits(contents[slots[s].hash]) && slots[s].cached == None
    {
      assert PlanFits(p.slots[s], p.timeline.count, contents);
    }
    return Ok(reader), plan;
  }

  method AllocateSlots(plans: seq<SlotPlan>, count: nat) returns (slots: seq<WindowSlot>)
    ensures |slots| == |plans|
    ensures forall i, j :: 0 <= i < j < |slots| ==> slots[i] != slots[j]
    ensures forall s :: 0 <= s < |slots| ==> Realizes(slots[s], plans[s]) && slots[s].count == count
    ensures forall s :: 0 <= s < |slots| ==> slots[s].cached == None && !slots[s].filled && fresh(slots[s])
  {
    slots := [];
    while |slots| < |plans|
      invariant |slots| <= |plans|
      invariant forall i, j :: 0 <= i < j < |slots| ==> slots[i] != slots[j]
      invariant forall s :: 0 <= s < |slots| ==> Realizes(slots[s], plans[s]) && slots[s].count == count
      invariant forall s :: 0 <= s < |slots| ==> slots[s].cached == None && !slots[s].filled && fresh(slots[s])
    {
      var q := plans[|slots|];
      var slot := new WindowSlot(q.hash, q.elementType, q.windowShape, q.read, count, q.blockCols);
      slots := slots + [slot];
    }
  }

  predicate Realizes(slot: WindowSlot, plan: SlotPlan) {
    && slot.hash == plan.hash && slot.elementType == plan.elementType && slot.windowShape == plan.windowShape
    && slot.read == plan.read && slot.blockCols == plan.blockCols
  }
}
