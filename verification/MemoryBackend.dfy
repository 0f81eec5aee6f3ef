/** The in-memory backend (storage/memory.rs), and proof that it is a backend the readers may be given:
    what it returns is what a hash names, and it answers whatever it holds. */
module MemoryBackend {
  import opened Wrappers
  import opened Arrays
  import opened Cuts
  import opened Storage
  import opened Metadata
  import ForecastWindows
  import ForecastReading
  import StaticReading

  /** Arrays come and go, but a hash never names anything else. */
  predicate PartOf(arrays: Contents, contents: Contents) {
    forall h :: h in arrays ==> h in contents && arrays[h] == contents[h]
  }

  lemma PartIsSound(arrays: Contents, contents: Contents)
    requires SoundContents(contents) && PartOf(arrays, contents)
    ensures SoundContents(arrays)
  {}

  function Found(arrays: Contents, hash: Digest, dtype: Dtype): Result<TypedArray> {
    if hash !in arrays then Err(NotFound)
    else if arrays[hash].dtype != dtype then Err(IntegrityError)
    else Ok(arrays[hash])
  }

  function Slice(arrays: Contents, hash: Digest, dtype: Dtype, range: Range): Result<TypedArray>
    requires SoundContents(arrays)
  {
    var a :- Found(arrays, hash, dtype);
    Sliced(a, 0, range)
  }

  class Backend {
    var arrays: Contents

    constructor ()
      ensures arrays == map[]
    {
      arrays := map[];
    }

    /** A hash already held keeps its array. */
    method PutArray(hash: Digest, data: TypedArray, ghost contents: Contents) returns (stored: bool)
      requires PartOf(arrays, contents) && hash in contents && data == contents[hash]
      modifies this
      ensures PartOf(arrays, contents) && hash in arrays && arrays.Keys == old(arrays).Keys + {hash}
      ensures stored <==> hash !in old(arrays)
    {
      if hash in arrays {
        return false;
      }
      arrays := arrays[hash := data];
      return true;
    }

    method GetArray(hash: Digest, dtype: Dtype) returns (r: Result<TypedArray>)
      ensures r == Found(arrays, hash, dtype)
    {
      if hash !in arrays {
        return Err(NotFound);
      }
      if arrays[hash].dtype != dtype {
        return Err(IntegrityError);
      }
      return Ok(arrays[hash]);
    }

    method GetSlice(hash: Digest, dtype: Dtype, range: Range) returns (r: Result<TypedArray>)
      requires SoundContents(arrays)
      ensures r == Slice(arrays, hash, dtype, range)
    {
      var a := GetArray(hash, dtype);
      if a.Err? {
        return Err(a.error);
      }
      r := SliceAxis(a.value, 0, range);
    }
  }

  // ---- the backend as the seams the readers see -------------------------------------------------

  function Slices(arrays: Contents): SliceReader
    requires SoundContents(arrays)
  {
    (h: Digest, d: Dtype, range: Range) => Slice(arrays, h, d, range)
  }

  /** Exactly the rows of held arrays, asked for at their own dtype, are answered, and with the bytes the
      hash names. */
  lemma SlicesAreHonest(arrays: Contents, contents: Contents)
    requires SoundContents(contents) && PartOf(arrays, contents)
    ensures SoundContents(arrays) && HonestSlices(Slices(arrays), contents)
    ensures forall h: Digest, d: Dtype, range: Range ::
      Slices(arrays)(h, d, range).Ok? <==> h in arrays && arrays[h].dtype == d && HasRows(contents, h, range)
  {
    PartIsSound(arrays, contents);
  }

  function Blocks(arrays: Contents, prev: seq<Byte>): ForecastWindows.BlockReader
    requires SoundContents(arrays)
  {
    (h: Digest, d: Dtype, axis: nat, start: nat, len: nat) => BlockRead(Found(arrays, h, d), axis, start, len, prev)
  }

  /** The batch as the loop reads it; the three lists are walked together, as far as the shortest. */
  function Ranges(arrays: Contents, hs: seq<Digest>, ds: seq<Dtype>, rs: seq<Range>): Reply
    requires SoundContents(arrays)
  {
    RangesUpTo(Slices(arrays), hs, ds, rs, ForecastWindows.Min(|hs|, ForecastWindows.Min(|ds|, |rs|)))
  }

  function Calls(arrays: Contents, prev: seq<Byte>): ForecastReading.StoreCalls
    requires SoundContents(arrays)
  {
    ForecastReading.StoreCalls(
      (h: Digest) => Ok(h in arrays),
      Blocks(arrays, prev),
      (hs: seq<Digest>, ds: seq<Dtype>, rs: seq<Range>) => Ranges(arrays, hs, ds, rs))
  }

  lemma BlocksAreHonest(arrays: Contents, contents: Contents, prev: seq<Byte>, h: Digest)
    requires SoundContents(contents) && PartOf(arrays, contents) && h in contents
    ensures SoundContents(arrays) && ForecastWindows.HonestBlocks(Blocks(arrays, prev), h, contents[h])
  {
    PartIsSound(arrays, contents);
    var read := Blocks(arrays, prev);
    forall d: Dtype, axis: nat, start: nat, len: nat | read(h, d, axis, start, len).result.Ok?
      ensures axis < |contents[h].shape| && start + len <= contents[h].shape[axis]
      ensures read(h, d, axis, start, len).out == Block(contents[h], axis, start, len)
    {
      assert read(h, d, axis, start, len) == BlockRead(Found(arrays, h, d), axis, start, len, prev);
    }
  }

  lemma RangesAreHonest(arrays: Contents, contents: Contents, hs: seq<Digest>, ds: seq<Dtype>, rs: seq<Range>)
    requires SoundContents(contents) && PartOf(arrays, contents) && |hs| == |ds| == |rs|
    ensures SoundContents(arrays)
    ensures Ranges(arrays, hs, ds, rs).result.Ok?
            <==> forall i :: 0 <= i < |hs| ==> hs[i] in arrays && arrays[hs[i]].dtype == ds[i] && HasRows(contents, hs[i], rs[i])
    ensures Ranges(arrays, hs, ds, rs).result.Ok? ==> Ranges(arrays, hs, ds, rs).out == Gathered(contents, hs, rs)
  {
    SlicesAreHonest(arrays, contents);
    RangesGather(Slices(arrays), hs, ds, rs, |hs|, contents);
    assert hs[..|hs|] == hs && rs[..|hs|] == rs;
  }

  /** Whatever it holds and whatever was in the caller's buffer, the backend is honest to a forecast reader;
      holding everything, it never fails one. */
  lemma ServesForecasts(arrays: Contents, contents: Contents, prev: seq<Byte>)
    requires SoundContents(contents) && PartOf(arrays, contents)
    ensures SoundContents(arrays) && ForecastReading.Honest(Calls(arrays, prev), contents)
    ensures arrays == contents ==> ForecastReading.Reliable(Calls(arrays, prev), contents)
  {
    PartIsSound(arrays, contents);
    var calls := Calls(arrays, prev);
    forall h: Digest | h in contents
      ensures ForecastWindows.HonestBlocks(calls.readBlock, h, contents[h])
    {
      BlocksAreHonest(arrays, contents, prev, h);
    }
    forall hs: seq<Digest>, ds: seq<Dtype>, rs: seq<Range> | |hs| == |ds| == |rs|
      ensures calls.readRanges(hs, ds, rs) == Ranges(arrays, hs, ds, rs)
      ensures Ranges(arrays, hs, ds, rs).result.Ok?
              <==> forall i :: 0 <= i < |hs| ==> hs[i] in arrays && arrays[hs[i]].dtype == ds[i] && HasRows(contents, hs[i], rs[i])
      ensures Ranges(arrays, hs, ds, rs).result.Ok? ==> Ranges(arrays, hs, ds, rs).out == Gathered(contents, hs, rs)
    {
      RangesAreHonest(arrays, contents, hs, ds, rs);
    }
  }

  function Uniform(arrays: Contents): StaticReading.UniformRead
    requires SoundContents(arrays)
  {
    (hs: seq<Digest>, d: Dtype, index: nat) => RowsReply(Slices(arrays), hs, d, Same(|hs|, index))
  }

  /** Lists of different lengths are not a read the readers make. */
  function Scattered(arrays: Contents): StaticReading.ScatteredRead
    requires SoundContents(arrays)
  {
    (hs: seq<Digest>, d: Dtype, rows: seq<nat>) =>
      if |rows| == |hs| then RowsReply(Slices(arrays), hs, d, rows) else Reply([], Err(InvalidParameter))
  }

  lemma RowsAreHonest(arrays: Contents, contents: Contents, hs: seq<Digest>, d: Dtype, rows: seq<nat>)
    requires SoundContents(contents) && PartOf(arrays, contents) && |hs| == |rows|
    ensures SoundContents(arrays)
    ensures RowsReply(Slices(arrays), hs, d, rows).result.Ok?
            <==> StaticReading.OfDtype(arrays, hs, d) && RowsPresent(contents, hs, rows)
    ensures RowsReply(Slices(arrays), hs, d, rows).result.Ok?
            ==> StaticReading.Holds(contents, hs, rows, RowsReply(Slices(arrays), hs, d, rows).out)
  {
    SlicesAreHonest(arrays, contents);
    var slices := Slices(arrays);
    RowsGather(slices, hs, d, rows, contents);
    if RowsReply(slices, hs, d, rows).result.Ok? {
      forall j | 0 <= j < |hs|
        ensures hs[j] in arrays && arrays[hs[j]].dtype == d
      {
        assert slices(hs[j], d, OneRow(rows[j])).Ok?;
      }
    }
  }

  /** The same for a static reader. */
  lemma ServesStatics(arrays: Contents, contents: Contents)
    requires SoundContents(contents) && PartOf(arrays, contents)
    ensures SoundContents(arrays) && StaticReading.HonestUniform(Uniform(arrays), contents)
    ensures StaticReading.HonestScattered(Scattered(arrays), contents)
    ensures arrays == contents ==> StaticReading.Reliable(Uniform(arrays), Scattered(arrays), contents)
  {
    PartIsSound(arrays, contents);
    forall hs: seq<Digest>, d: Dtype, rows: seq<nat> | |hs| == |rows|
      ensures RowsReply(Slices(arrays), hs, d, rows).result.Ok?
              <==> StaticReading.OfDtype(arrays, hs, d) && RowsPresent(contents, hs, rows)
      ensures RowsReply(Slices(arrays), hs, d, rows).result.Ok?
              ==> StaticReading.Holds(contents, hs, rows, RowsReply(Slices(arrays), hs, d, rows).out)
    {
      RowsAreHonest(arrays, contents, hs, d, rows);
    }
  }

  /** A forecast reader over a backend that holds everything succeeds exactly on its own timeline. */
  method ForecastReadInMemory(backend: Backend, reader: ForecastReading.ForecastReader, at: Instant, prev: seq<Byte>, ghost contents: Contents)
    returns (r: Result<()>)
    requires SoundContents(contents) && backend.arrays == contents && reader.Valid(contents)
    modifies reader.slots
    ensures reader.Valid(contents)
    ensures r.Ok? <==> reader.WindowIndex(at).Ok?
    ensures r.Ok? ==> reader.WindowIndex(at).value < reader.count
    ensures r.Ok? ==> forall i :: 0 <= i < |reader.slots| ==> reader.slots[i].Window() == reader.SlotWindow(i, reader.WindowIndex(at).value, contents)
    ensures r.Err? ==> forall i :: 0 <= i < |reader.slots| ==> reader.slots[i].Window() == []
  {
    ServesForecasts(backend.arrays, contents, prev);
    r := reader.ForecastRead(at, Calls(backend.arrays, prev), contents);
  }
}
