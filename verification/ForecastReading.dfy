/** A prepared forecast reader: deduplicated window slots driven over one window timeline
    (reader.rs, ForecastReader; store.rs, forecast_read). */
module ForecastReading {
  import opened Wrappers
  import opened Arrays
  import opened Cuts
  import opened Storage
  import opened Metadata
  import opened Grids
  import opened ForecastWindows

  /** The store's answers while one timestamp is read. */
  datatype StoreCalls = StoreCalls(
    holds: Digest -> Result<bool>,
    readBlock: BlockReader,
    readRanges: (seq<Digest>, seq<Dtype>, seq<Range>) -> Reply)

  /** Blocks are honest; a range read that returns the right number of bytes returns the
      right bytes. A success of the wrong length is the caller's to catch. */
  ghost predicate Honest(calls: StoreCalls, contents: Contents)
    requires SoundContents(contents)
  {
    && (forall h: Digest :: h in contents ==> HonestBlocks(calls.readBlock, h, contents[h]))
    && forall hs: seq<Digest>, ds: seq<Dtype>, rs: seq<Range> ::
         calls.readRanges(hs, ds, rs).result.Ok? && |hs| == |ds| == |rs|
         && (forall i :: 0 <= i < |hs| ==> HasRows(contents, hs[i], rs[i]))
         && |calls.readRanges(hs, ds, rs).out| == |Gathered(contents, hs, rs)|
         ==> calls.readRanges(hs, ds, rs).out == Gathered(contents, hs, rs)
  }

  /** Nothing fails: arrays are held, and every read inside them answers in full. */
  ghost predicate Reliable(calls: StoreCalls, contents: Contents)
    requires SoundContents(contents)
  {
    && (forall h :: h in contents ==> calls.holds(h) == Ok(true))
    && (forall h: Digest, d: Dtype, axis: nat, start: nat, len: nat ::
          h in contents && d == contents[h].dtype && axis < |contents[h].shape| && start + len <= contents[h].shape[axis]
          ==> calls.readBlock(h, d, axis, start, len).result.Ok?)
    && (forall hs: seq<Digest>, ds: seq<Dtype>, rs: seq<Range> ::
          |hs| == |ds| == |rs| && (forall i :: 0 <= i < |hs| ==> HasRows(contents, hs[i], rs[i]) && ds[i] == contents[hs[i]].dtype)
          ==> calls.readRanges(hs, ds, rs).result.Ok? && |calls.readRanges(hs, ds, rs).out| == |Gathered(contents, hs, rs)|)
  }

  /** Splitting the batch by the lengths asked for gives every column its own run. */
  lemma SplitGivesEachItsOwn(contents: Contents, hashes: seq<Digest>, ranges: seq<Range>, runs: seq<seq<Byte>>)
    requires SoundContents(contents) && |hashes| == |ranges|
    requires forall i :: 0 <= i < |hashes| ==> HasRows(contents, hashes[i], ranges[i])
    requires SameLengths(runs, Runs(contents, hashes, ranges))
    ensures |Flatten(runs)| == |Gathered(contents, hashes, ranges)|
    ensures Flatten(runs) == Gathered(contents, hashes, ranges)
            <==> forall i :: 0 <= i < |runs| ==> runs[i] == RowBytes(contents, hashes[i], ranges[i])
  {
    var own := Runs(contents, hashes, ranges);
    FlattenSplits(runs, own);
    if forall i :: 0 <= i < |runs| ==> runs[i] == RowBytes(contents, hashes[i], ranges[i]) {
      assert runs == own;
    }
  }

  datatype DerivedBatch = DerivedBatch(slots: seq<nat>, hashes: seq<Digest>, dtypes: seq<Dtype>, ranges: seq<Range>)

  datatype ForecastEntry = ForecastEntry(id: int, slot: nat)

  class ForecastReader {
    const initial: Instant
    const interval: Period
    const count: nat
    const slots: seq<WindowSlot>
    const entries: seq<ForecastEntry>

    constructor (initial: Instant, interval: Period, count: nat, slots: seq<WindowSlot>, entries: seq<ForecastEntry>)
      ensures this.initial == initial && this.interval == interval && this.count == count
      ensures this.slots == slots && this.entries == entries
    {
      this.initial, this.interval, this.count := initial, interval, count;
      this.slots, this.entries := slots, entries;
    }

    /** Every slot's plan fits the array its hash names. */
    ghost predicate Planned(contents: Contents) {
      && SoundContents(contents)
      && (forall i, j :: 0 <= i < j < |slots| ==> slots[i] != slots[j])
      && (forall i :: 0 <= i < |slots| ==>
            slots[i].count == count && slots[i].hash in contents && slots[i].Fits(contents[slots[i].hash]))
    }

    ghost predicate Valid(contents: Contents)
      reads slots
    {
      && Planned(contents)
      && (forall i :: 0 <= i < |slots| ==> slots[i].Valid(contents[slots[i].hash]))
    }

    /** The bytes slot `i` stands for at window `w`. */
    ghost function SlotWindow(i: nat, w: nat, contents: Contents): seq<Byte>
      requires Planned(contents) && i < |slots| && w < count
    {
      WindowBytes(slots[i].read, count, contents[slots[i].hash], w)
    }

    function WindowIndex(at: Instant): Result<nat> {
      IndexOnGrid(initial, interval, count, at)
    }

    method Invalidate(ghost contents: Contents)
      requires Valid(contents)
      modifies slots
      ensures Valid(contents)
      ensures forall i :: 0 <= i < |slots| ==> slots[i].Window() == [] && slots[i].cached == old(slots[i].cached)
    {
      var i := 0;
      while i < |slots|
        invariant 0 <= i <= |slots| && Valid(contents)
        invariant forall k :: 0 <= k < i ==> slots[k].Window() == []
        invariant forall k :: 0 <= k < |slots| ==> slots[k].cached == old(slots[k].cached)
      {
        slots[i].filled := false;
        i := i + 1;
      }
    }

    /** All or nothing: every slot shows window `w` of its own array, or every slot is empty. A window
        that needed no read is shown only of an array the store still holds. */
    method ForecastRead(at: Instant, calls: StoreCalls, ghost contents: Contents) returns (r: Result<()>)
      requires Valid(contents) && Honest(calls, contents)
      modifies slots
      ensures Valid(contents)
      ensures r.Ok? ==> WindowIndex(at).Ok? && WindowIndex(at).value < count
      ensures r.Ok? ==> forall i :: 0 <= i < |slots| ==> slots[i].Window() == SlotWindow(i, WindowIndex(at).value, contents)
      ensures r.Ok? ==> forall k :: 0 <= k < |slots| ==> Answered(k, WindowIndex(at).value, old(slots[k].cached), calls)
      ensures r.Err? ==> forall i :: 0 <= i < |slots| ==> slots[i].Window() == []
      ensures WindowIndex(at).Ok? && Reliable(calls, contents) ==> r.Ok?
    {
      r := ForecastReadInto(at, calls, contents);
      if r.Err? {
        Invalidate(contents);
      }
    }

    method ForecastReadInto(at: Instant, calls: StoreCalls, ghost contents: Contents) returns (r: Result<()>)
      requires Valid(contents) && Honest(calls, contents)
      modifies slots
      ensures Valid(contents)
      ensures r.Ok? ==> WindowIndex(at).Ok? && WindowIndex(at).value < count
      ensures r.Ok? ==> forall i :: 0 <= i < |slots| ==> slots[i].Window() == SlotWindow(i, WindowIndex(at).value, contents)
      ensures r.Ok? ==> forall k :: 0 <= k < |slots| ==> Answered(k, WindowIndex(at).value, old(slots[k].cached), calls)
      ensures WindowIndex(at).Ok? && Reliable(calls, contents) ==> r.Ok?
    {
      var window :- WindowIndex(at);
      IndexInRange(initial, interval, count, at);
      ReliableAnswers(window, calls, contents);
      var batch: DerivedBatch;
      r, batch := ReadDenseSlots(window, calls, CachedBlocks(), contents);
      if r.Err? || batch.slots == [] {
        return;
      }
      BatchAnswers(batch, window, calls, contents);
      r := ReadDerived(batch, window, calls, contents);
    }

    /** A dense slot answers when its cached block covers the window and the store still holds the array,
        or when the block read succeeds. */
    predicate Answered(i: nat, window: nat, cached: Option<Range>, calls: StoreCalls)
      requires i < |slots| && window < slots[i].count
    {
      slots[i].read.Dense? ==>
        if cached == Some(slots[i].BlockRange(window)) then calls.holds(slots[i].hash) == Ok(true)
        else slots[i].BlockReply(window, calls.readBlock).result.Ok?
    }

    /** Strictly ascending derived slots, each with the run its window needs. */
    ghost predicate IsBatch(batch: DerivedBatch, window: nat) {
      && |batch.slots| == |batch.hashes| == |batch.dtypes| == |batch.ranges|
      && (forall k :: 0 <= k < |batch.slots| ==> IsDerivedSlot(batch.slots[k], window, batch.hashes[k], batch.ranges[k]))
      && (forall k :: 0 <= k < |batch.slots| ==> batch.dtypes[k] == slots[batch.slots[k]].elementType.PhysicalDtype())
      && (forall k, l :: 0 <= k < l < |batch.slots| ==> batch.slots[k] < batch.slots[l])
    }

    /** Every derived slot before `n` is in the batch. */
    predicate Gathers(batch: DerivedBatch, n: nat)
      requires n <= |slots|
    {
      forall k :: 0 <= k < n && slots[k].read.Derived? ==> k in batch.slots
    }

    predicate Below(batch: DerivedBatch, n: nat) { forall k :: 0 <= k < |batch.slots| ==> batch.slots[k] < n }

    function Pushed(batch: DerivedBatch, i: nat, range: Range): (r: DerivedBatch)
      requires i < |slots|
      ensures forall k :: k in batch.slots || k == i ==> k in r.slots
    {
      DerivedBatch(batch.slots + [i], batch.hashes + [slots[i].hash],
                   batch.dtypes + [slots[i].elementType.PhysicalDtype()], batch.ranges + [range])
    }

    lemma PushKeepsBatch(batch: DerivedBatch, i: nat, range: Range, window: nat)
      requires IsBatch(batch, window) && Below(batch, i) && i < |slots| && slots[i].read.Derived?
      requires slots[i].DerivedSpan(window) == Some(range)
      ensures IsBatch(Pushed(batch, i, range), window) && Below(Pushed(batch, i, range), i + 1)
    {}

    /** One slot's turn. */
    method ReadSlot(i: nat, window: nat, calls: StoreCalls, before: DerivedBatch, ghost contents: Contents)
      returns (r: Result<()>, batch: DerivedBatch)
      requires Valid(contents) && Honest(calls, contents) && window < count && i < |slots|
      requires IsBatch(before, window) && Below(before, i) && Gathers(before, i)
      modifies slots[i]
      ensures Valid(contents)
      ensures forall k :: 0 <= k < |slots| && k != i ==> slots[k].cached == old(slots[k].cached) && slots[k].Window() == old(slots[k].Window())
      ensures r.Ok? <==> Answered(i, window, old(slots[i].cached), calls)
      ensures r.Ok? ==> IsBatch(batch, window) && Below(batch, i + 1) && Gathers(batch, i + 1)
      ensures r.Ok? && slots[i].read.Dense? ==> slots[i].Window() == SlotWindow(i, window, contents)
    {
      batch := before;
      var span := slots[i].DerivedSpan(window);
      if span.Some? {
        PushKeepsBatch(batch, i, span.value, window);
        batch := Pushed(batch, i, span.value);
        return Ok(()), batch;
      }
      r := ReadDense(i, window, calls, contents);
    }

    function CachedBlocks(): (r: seq<Option<Range>>)
      reads slots
      ensures |r| == |slots| && forall k :: 0 <= k < |r| ==> r[k] == slots[k].cached
    {
      seq(|slots|, k requires 0 <= k < |slots| reads slots => slots[k].cached)
    }

    /** Read the dense slots in turn, setting the derived ones aside for the batch. */
    method ReadDenseSlots(window: nat, calls: StoreCalls, ghost held: seq<Option<Range>>, ghost contents: Contents)
      returns (r: Result<()>, batch: DerivedBatch)
      requires Valid(contents) && Honest(calls, contents) && window < count && held == CachedBlocks()
      modifies slots
      ensures Valid(contents)
      ensures r.Ok? <==> forall k :: 0 <= k < |slots| ==> Answered(k, window, held[k], calls)
      ensures r.Ok? ==> IsBatch(batch, window) && Gathers(batch, |slots|)
      ensures r.Ok? ==> forall k :: 0 <= k < |slots| && slots[k].read.Dense? ==> slots[k].Window() == SlotWindow(k, window, contents)
    {
      batch := DerivedBatch([], [], [], []);
      var i := 0;
      while i < |slots|
        invariant 0 <= i <= |slots| && Valid(contents)
        invariant IsBatch(batch, window) && Below(batch, i)
        invariant forall k :: i <= k < |slots| ==> slots[k].cached == held[k]
        invariant forall k :: 0 <= k < i ==> Answered(k, window, held[k], calls)
        invariant Gathers(batch, i)
        invariant forall k :: 0 <= k < i && slots[k].read.Dense? ==> slots[k].Window() == SlotWindow(k, window, contents)
      {
        r, batch := ReadSlot(i, window, calls, batch, contents);
        if r.Err? {
          return;
        }
        i := i + 1;
      }
      return Ok(()), batch;
    }

    /** The batch: one range read for every derived slot, split by the lengths asked for. */
    method ReadDerived(batch: DerivedBatch, ghost window: nat, calls: StoreCalls, ghost contents: Contents) returns (r: Result<()>)
      requires Valid(contents) && Honest(calls, contents) && window < count && IsBatch(batch, window)
      modifies set k | 0 <= k < |batch.slots| && batch.slots[k] < |slots| :: slots[batch.slots[k]]
      ensures Valid(contents)
      ensures r.Ok? <==> FilledBatch(batch, calls)
      ensures r.Ok? ==> forall k :: 0 <= k < |batch.slots| ==> slots[batch.slots[k]].Window() == SlotWindow(batch.slots[k], window, contents)
    {
      DerivedRowsPresent(batch, window, contents);
      var reply := calls.readRanges(batch.hashes, batch.dtypes, batch.ranges);
      if reply.result.Err? {
        return Err(reply.result.error);
      }
      ghost var runs;
      r, runs := SplitRuns(reply.out, batch.slots, contents);
      if r.Ok? {
        RunsAreWindows(batch, window, reply.out, runs, contents);
      }
    }

    /** The batch read succeeds and returns exactly what the derived windows need. */
    predicate FilledBatch(batch: DerivedBatch, calls: StoreCalls)
      requires forall k :: 0 <= k < |batch.slots| ==> batch.slots[k] < |slots|
    {
      var reply := calls.readRanges(batch.hashes, batch.dtypes, batch.ranges);
      reply.result.Ok? && |reply.out| == DerivedSize(batch.slots)
    }

    /** Runs of the right lengths, out of an honest batch, are the windows. */
    lemma RunsAreWindows(batch: DerivedBatch, window: nat, bytes: seq<Byte>, runs: seq<seq<Byte>>, contents: Contents)
      requires Planned(contents) && window < count && IsBatch(batch, window)
      requires forall k :: 0 <= k < |batch.slots| ==> HasRows(contents, batch.hashes[k], batch.ranges[k])
      requires |runs| == |batch.slots| && bytes == Flatten(runs)
      requires forall k :: 0 <= k < |runs| ==> |runs[k]| == slots[batch.slots[k]].WindowSize()
      requires |bytes| == |Gathered(contents, batch.hashes, batch.ranges)| ==> bytes == Gathered(contents, batch.hashes, batch.ranges)
      ensures forall k :: 0 <= k < |runs| ==> runs[k] == SlotWindow(batch.slots[k], window, contents)
    {
      forall k | 0 <= k < |runs|
        ensures |runs[k]| == |RowBytes(contents, batch.hashes[k], batch.ranges[k])|
      {
        DerivedRunSize(batch.slots[k], window, batch.hashes[k], batch.ranges[k], contents);
      }
      SplitGivesEachItsOwn(contents, batch.hashes, batch.ranges, runs);
      DerivedRowsPresent(batch, window, contents);
    }

    /** One dense slot: probe the array when the cache would answer, then read. */
    method ReadDense(i: nat, window: nat, calls: StoreCalls, ghost contents: Contents) returns (r: Result<()>)
      requires Valid(contents) && Honest(calls, contents)
      requires i < |slots| && window < count && slots[i].read.Dense?
      modifies slots[i]
      ensures slots[i].Valid(contents[slots[i].hash])
      ensures r.Ok? <==> Answered(i, window, old(slots[i].cached), calls)
      ensures r.Ok? ==> slots[i].Window() == SlotWindow(i, window, contents)
      ensures old(slots[i].ServesFromCache(window)) && calls.holds(slots[i].hash) == Ok(false) ==>
                r == Err(NotFound) && slots[i].cached == None && slots[i].Window() == []
      ensures old(slots[i].ServesFromCache(window)) && calls.holds(slots[i].hash).Err? ==> r == Err(calls.holds(slots[i].hash).error)
    {
      var slot := slots[i];
      if slot.ServesFromCache(window) {
        var held := calls.holds(slot.hash);
        if held.Err? {
          return Err(held.error);
        }
        if !held.value {
          slot.Forget();
          return Err(NotFound);
        }
      }
      ghost var asked;
      r, asked := slot.ReadWindow(window, calls.readBlock, contents[slot.hash]);
    }

    /** When nothing fails, every dense slot answers. */
    lemma ReliableAnswers(window: nat, calls: StoreCalls, contents: Contents)
      requires Planned(contents) && window < count
      ensures Reliable(calls, contents) ==> forall k, cached :: 0 <= k < |slots| ==> Answered(k, window, cached, calls)
    {
      if Reliable(calls, contents) {
        forall k, cached | 0 <= k < |slots|
          ensures Answered(k, window, cached, calls)
        {
          assert slots[k].Fits(contents[slots[k].hash]);
        }
      }
    }

    /** When nothing fails, the batch read answers in full. */
    lemma BatchAnswers(batch: DerivedBatch, window: nat, calls: StoreCalls, contents: Contents)
      requires Planned(contents) && window < count && IsBatch(batch, window)
      ensures Reliable(calls, contents) ==> FilledBatch(batch, calls)
    {
      DerivedRowsPresent(batch, window, contents);
      RunsFill(batch.slots, batch.hashes, batch.ranges, window, contents);
    }

    ghost predicate IsDerivedSlot(k: nat, window: nat, hash: Digest, range: Range) {
      && k < |slots| && slots[k].read.Derived? && hash == slots[k].hash
      && slots[k].DerivedSpan(window) == Some(range)
    }

    /** Bytes the derived windows need. */
    function DerivedSize(derived: seq<nat>): nat
      requires forall k :: 0 <= k < |derived| ==> derived[k] < |slots|
    {
      if derived == [] then 0 else slots[derived[0]].WindowSize() + DerivedSize(derived[1..])
    }

    /** A batch read in full is exactly as long as the windows need. */
    lemma {:induction false} RunsFill(derived: seq<nat>, hashes: seq<Digest>, ranges: seq<Range>, window: nat, contents: Contents)
      requires Planned(contents) && window < count && |derived| == |hashes| == |ranges|
      requires forall k :: 0 <= k < |derived| ==> IsDerivedSlot(derived[k], window, hashes[k], ranges[k])
      requires forall k :: 0 <= k < |derived| ==> HasRows(contents, hashes[k], ranges[k]) && derived[k] < |slots|
      ensures |Gathered(contents, hashes, ranges)| == DerivedSize(derived)
      decreases |derived|
    {
      if derived != [] {
        DerivedRunSize(derived[0], window, hashes[0], ranges[0], contents);
        GatheredHead(contents, hashes, ranges);
        RunsFill(derived[1..], hashes[1..], ranges[1..], window, contents);
      }
    }

    /** Hand each derived slot its run of the batch, refusing a batch of the wrong length. */
    method SplitRuns(bytes: seq<Byte>, derived: seq<nat>, ghost contents: Contents)
      returns (r: Result<()>, ghost runs: seq<seq<Byte>>)
      requires Valid(contents)
      requires forall k :: 0 <= k < |derived| ==> derived[k] < |slots| && slots[derived[k]].read.Derived?
      requires forall k, l :: 0 <= k < l < |derived| ==> derived[k] < derived[l]
      modifies (set k | 0 <= k < |derived| && derived[k] < |slots| :: slots[derived[k]])`buf
      modifies (set k | 0 <= k < |derived| && derived[k] < |slots| :: slots[derived[k]])`filled
      ensures r.Ok? <==> |bytes| == DerivedSize(derived)
      ensures r.Ok? ==> |runs| == |derived| && bytes == Flatten(runs)
      ensures r.Ok? ==> forall k :: 0 <= k < |derived| ==>
                |runs[k]| == slots[derived[k]].WindowSize() && slots[derived[k]].Window() == runs[k]
    {
      runs := [];
      var rest := bytes;
      var k := 0;
      assert derived[0..] == derived;
      while k < |derived|
        invariant 0 <= k <= |derived| && Splits(bytes, derived, k, runs, rest)
        invariant forall j :: 0 <= j < k ==> slots[derived[j]].Window() == runs[j]
      {
        var n := slots[derived[k]].WindowSize();
        SplitsNext(bytes, derived, k, runs, rest);
        if n > |rest| {
          return Err(IntegrityError), runs;
        }
        slots[derived[k]].SetWindow(rest[..n]);
        runs := runs + [rest[..n]];
        rest := rest[n..];
        k := k + 1;
      }
      assert derived[k..] == [];
      if rest != [] {
        return Err(IntegrityError), runs;
      }
      assert bytes == Flatten(runs);
      return Ok(()), runs;
    }

    /** The first `k` runs are cut off `bytes`, each as long as its slot's window, and `rest` is left. */
    predicate Splits(bytes: seq<Byte>, derived: seq<nat>, k: nat, runs: seq<seq<Byte>>, rest: seq<Byte>)
      requires k <= |derived| && forall j :: 0 <= j < |derived| ==> derived[j] < |slots|
    {
      && |runs| == k && bytes == Flatten(runs) + rest
      && (|bytes| == DerivedSize(derived) <==> |rest| == DerivedSize(derived[k..]))
      && (forall j :: 0 <= j < k ==> |runs[j]| == slots[derived[j]].WindowSize())
    }

    lemma SplitsNext(bytes: seq<Byte>, derived: seq<nat>, k: nat, runs: seq<seq<Byte>>, rest: seq<Byte>)
      requires k < |derived| && forall j :: 0 <= j < |derived| ==> derived[j] < |slots|
      requires Splits(bytes, derived, k, runs, rest)
      ensures var n := slots[derived[k]].WindowSize();
        if n > |rest| then |bytes| != DerivedSize(derived) else Splits(bytes, derived, k + 1, runs + [rest[..n]], rest[n..])
    {
      assert derived[k..][1..] == derived[k + 1..];
      var n := slots[derived[k]].WindowSize();
      if n <= |rest| {
        CutNext(bytes, runs, rest, n);
      }
    }

    lemma CutNext(bytes: seq<Byte>, runs: seq<seq<Byte>>, rest: seq<Byte>, n: nat)
      requires bytes == Flatten(runs) + rest && n <= |rest|
      ensures bytes == Flatten(runs + [rest[..n]]) + rest[n..]
    {
      FlattenPush(runs, rest[..n]);
      assert rest == rest[..n] + rest[n..];
    }

    lemma DerivedRowsPresent(batch: DerivedBatch, window: nat, contents: Contents)
      requires Planned(contents) && window < count && IsBatch(batch, window)
      ensures forall k :: 0 <= k < |batch.slots| ==> HasRows(contents, batch.hashes[k], batch.ranges[k])
      ensures forall k :: 0 <= k < |batch.slots| ==> batch.dtypes[k] == contents[batch.hashes[k]].dtype
      ensures forall k :: 0 <= k < |batch.slots| ==>
                RowBytes(contents, batch.hashes[k], batch.ranges[k]) == SlotWindow(batch.slots[k], window, contents)
    {
      forall k | 0 <= k < |batch.slots|
        ensures HasRows(contents, batch.hashes[k], batch.ranges[k]) && batch.dtypes[k] == contents[batch.hashes[k]].dtype
        ensures RowBytes(contents, batch.hashes[k], batch.ranges[k]) == SlotWindow(batch.slots[k], window, contents)
      {
        assert IsDerivedSlot(batch.slots[k], window, batch.hashes[k], batch.ranges[k]);
      }
    }

    lemma DerivedRunSize(i: nat, window: nat, hash: Digest, range: Range, contents: Contents)
      requires Planned(contents) && IsDerivedSlot(i, window, hash, range) && HasRows(contents, hash, range)
      ensures slots[i].WindowSize() == |RowBytes(contents, hash, range)|
    {
      var s := slots[i];
      var a := contents[s.hash];
      assert s.windowShape[1..] == a.shape[1..];
      assert a.shape[..0] == [];
      MulAssoc(s.read.horizonSteps, Product(a.shape[1..]), a.dtype.Size());
    }
  }
}
