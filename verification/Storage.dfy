/** The array store the readers draw from: content-addressed arrays, and the default
    strided reads over them (storage.rs). */
module Storage {
  import opened Wrappers
  import opened Arrays
  import opened Cuts

  /** A 32-byte content hash. */
  type Digest(==)  = seq<Byte>

  /** What each hash names. Content addressing makes this fixed: an array may come and go,
      but a hash never names different bytes. */
  type Contents = map<Digest, TypedArray>

  ghost predicate SoundContents(contents: Contents) {
    forall h :: h in contents ==> contents[h].WellFormed()
  }

  datatype Range = Range(start: nat, end: nat)

  /** `get_slice` of some backend: rows `start..end` of an array, or an error. */
  type SliceReader = (Digest, Dtype, Range) -> Result<TypedArray>

  predicate HasRows(contents: Contents, hash: Digest, range: Range) {
    && hash in contents
    && contents[hash].shape != []
    && range.start <= range.end <= contents[hash].shape[0]
  }

  function RowBytes(contents: Contents, hash: Digest, range: Range): seq<Byte>
    requires SoundContents(contents) && HasRows(contents, hash, range)
  {
    Block(contents[hash], 0, range.start, range.end - range.start)
  }

  /** A backend may fail for any reason, but what it returns is what the hash names. */
  ghost predicate HonestSlices(getSlice: SliceReader, contents: Contents)
    requires SoundContents(contents)
  {
    forall h: Digest, d: Dtype, r: Range :: getSlice(h, d, r).Ok? ==>
      HasRows(contents, h, r) && getSlice(h, d, r).value.bytes == RowBytes(contents, h, r)
  }

  /** What a backend call leaves in the caller's buffer, and what it returns. */
  datatype Reply = Reply(out: seq<Byte>, result: Result<()>)

  // ---- block and slice copies ---------------------------------------------------

  method WriteWindowBlock(arr: TypedArray, countAxis: nat, start: nat, len: nat, appendTo: seq<Byte>)
    returns (out: seq<Byte>, r: Result<()>)
    requires arr.WellFormed()
    ensures r.Ok? <==> countAxis < |arr.shape| && start + len <= arr.shape[countAxis]
    ensures r.Ok? ==> out == appendTo + Block(arr, countAxis, start, len)
    ensures r.Err? ==> out == appendTo
    ensures r.Err? ==> r.error == if countAxis >= |arr.shape| then IntegrityError else InvalidParameter
  {
    out := appendTo;
    if countAxis >= |arr.shape| {
      return out, Err(IntegrityError);
    }
    var axisLen := arr.shape[countAxis];
    if start + len > axisLen {
      return out, Err(InvalidParameter);
    }
    var outer := Product(arr.shape[..countAxis]);
    var innerBytes := Product(arr.shape[countAxis + 1..]) * arr.dtype.Size();
    var run := len * innerBytes;
    ghost var width, from, at: nat := axisLen * innerBytes, start * innerBytes, 0;
    MatrixSize(arr, countAxis);
    StepsFit(axisLen, start, len, innerBytes);
    var o := 0;
    RowsCutNone(appendTo, arr.bytes, outer, width, from, run);
    while o < outer
      invariant o <= outer && RowsCut(out, appendTo, arr.bytes, outer, width, from, run, o, at)
    {
      RowsCutNext(out, appendTo, arr.bytes, outer, width, from, run, o, at);
      SourceStart(o, axisLen, start, innerBytes);
      var src := (o * axisLen + start) * innerBytes;
      out := out + arr.bytes[src..src + run];
      o, at := o + 1, at + width;
    }
    RowsCutAll(out, appendTo, arr.bytes, outer, width, from, run, at);
    return out, Ok(());
  }

  lemma SourceStart(o: nat, axisLen: nat, start: nat, inner: nat)
    ensures (o * axisLen + start) * inner == o * (axisLen * inner) + start * inner
  {
    Distribute(o * axisLen, start, inner);
    MulAssoc(o, axisLen, inner);
  }

  /** The slice of an array along an axis, as a value. */
  function Sliced(arr: TypedArray, axis: nat, range: Range): Result<TypedArray>
    requires arr.WellFormed()
  {
    var len := if axis < |arr.shape| then arr.shape[axis] else 0;
    if range.start > range.end || range.end > len then Err(InvalidParameter)
    else if axis >= |arr.shape| then Err(IntegrityError)
    else Ok(TypedArray(arr.dtype, arr.shape[axis := range.end - range.start], Block(arr, axis, range.start, range.end - range.start)))
  }

  method SliceAxis(arr: TypedArray, axis: nat, range: Range) returns (r: Result<TypedArray>)
    requires arr.WellFormed()
    ensures r == Sliced(arr, axis, range)
    ensures r.Ok? <==> axis < |arr.shape| && range.start <= range.end <= arr.shape[axis]
    ensures r.Ok? ==> r.value == TypedArray(arr.dtype, arr.shape[axis := range.end - range.start],
                                            Block(arr, axis, range.start, range.end - range.start))
    ensures r.Ok? ==> r.value.WellFormed()
  {
    var len := if axis < |arr.shape| then arr.shape[axis] else 0;
    if range.start > range.end || range.end > len {
      return Err(InvalidParameter);
    }
    var bytes, w := WriteWindowBlock(arr, axis, range.start, range.end - range.start, []);
    if w.Err? {
      return Err(w.error);
    }
    assert bytes == Block(arr, axis, range.start, range.end - range.start);
    var shape := arr.shape[axis := range.end - range.start];
    BlockSize(arr, axis, range.start, range.end - range.start);
    return Ok(TypedArray(arr.dtype, shape, bytes));
  }

  lemma BlockSize(a: TypedArray, axis: nat, start: nat, len: nat)
    requires a.WellFormed() && axis < |a.shape| && start + len <= a.shape[axis]
    ensures |Block(a, axis, start, len)| == Product(a.shape[axis := len]) * a.dtype.Size()
  {
    var o, i, s := Product(a.shape[..axis]), Product(a.shape[axis + 1..]), a.dtype.Size();
    assert a.shape[axis := len] == a.shape[..axis] + ([len] + a.shape[axis + 1..]);
    ProductConcat(a.shape[..axis], [len] + a.shape[axis + 1..]);
    ProductConcat([len], a.shape[axis + 1..]);
    ProductOne(len);
    MulAssoc(o, len * i, s);
    MulAssoc(len, i, s);
  }

  // ---- batched reads --------------------------------------------------------------

  /** Each column's run, in column order. */
  function Runs(contents: Contents, hashes: seq<Digest>, ranges: seq<Range>): (r: seq<seq<Byte>>)
    requires SoundContents(contents) && |hashes| == |ranges|
    requires forall i :: 0 <= i < |hashes| ==> HasRows(contents, hashes[i], ranges[i])
    ensures |r| == |hashes| && forall i :: 0 <= i < |r| ==> r[i] == RowBytes(contents, hashes[i], ranges[i])
  {
    seq(|hashes|, i requires 0 <= i < |hashes| => RowBytes(contents, hashes[i], ranges[i]))
  }

  /** The runs laid end to end. */
  function Gathered(contents: Contents, hashes: seq<Digest>, ranges: seq<Range>): seq<Byte>
    requires SoundContents(contents) && |hashes| == |ranges|
    requires forall i :: 0 <= i < |hashes| ==> HasRows(contents, hashes[i], ranges[i])
  {
    Flatten(Runs(contents, hashes, ranges))
  }

  lemma GatheredPush(contents: Contents, hashes: seq<Digest>, ranges: seq<Range>, h: Digest, r: Range)
    requires SoundContents(contents) && |hashes| == |ranges|
    requires forall i :: 0 <= i < |hashes| ==> HasRows(contents, hashes[i], ranges[i])
    requires HasRows(contents, h, r)
    ensures forall i :: 0 <= i < |hashes| + 1 ==> HasRows(contents, (hashes + [h])[i], (ranges + [r])[i])
    ensures Gathered(contents, hashes + [h], ranges + [r])
         == Gathered(contents, hashes, ranges) + RowBytes(contents, h, r)
  {
    var runs, more := Runs(contents, hashes, ranges), Runs(contents, hashes + [h], ranges + [r]);
    assert more == runs + [RowBytes(contents, h, r)];
    FlattenPush(runs, RowBytes(contents, h, r));
  }

  lemma GatheredHead(contents: Contents, hashes: seq<Digest>, ranges: seq<Range>)
    requires SoundContents(contents) && |hashes| == |ranges| && hashes != []
    requires forall i :: 0 <= i < |hashes| ==> HasRows(contents, hashes[i], ranges[i])
    ensures Gathered(contents, hashes, ranges) == RowBytes(contents, hashes[0], ranges[0]) + Gathered(contents, hashes[1..], ranges[1..])
  {
    assert Runs(contents, hashes, ranges)[1..] == Runs(contents, hashes[1..], ranges[1..]);
  }

  /** Where column `j`'s run sits in the gathered bytes. */
  lemma GatheredSplit(contents: Contents, hashes: seq<Digest>, ranges: seq<Range>, j: nat)
    requires SoundContents(contents) && |hashes| == |ranges|
    requires forall i :: 0 <= i < |hashes| ==> HasRows(contents, hashes[i], ranges[i])
    requires j <= |hashes|
    ensures Gathered(contents, hashes, ranges)
         == Gathered(contents, hashes[..j], ranges[..j]) + Gathered(contents, hashes[j..], ranges[j..])
  {
    var before, after := Runs(contents, hashes[..j], ranges[..j]), Runs(contents, hashes[j..], ranges[j..]);
    assert Runs(contents, hashes, ranges) == before + after;
    FlattenConcat(before, after);
  }

  /** What the slice-by-slice read of the first `n` columns leaves and returns: the runs up to the first
      failure. */
  function RangesUpTo(getSlice: SliceReader, hashes: seq<Digest>, dtypes: seq<Dtype>, ranges: seq<Range>, n: nat): Reply
    requires n <= |hashes| && n <= |dtypes| && n <= |ranges|
  {
    if n == 0 then Reply([], Ok(())) else
      var before := RangesUpTo(getSlice, hashes, dtypes, ranges, n - 1);
      if before.result.Err? then before else
        match getSlice(hashes[n - 1], dtypes[n - 1], ranges[n - 1])
        case Ok(slice) => Reply(before.out + slice.bytes, Ok(()))
        case Err(e) => Reply(before.out, Err(e))
  }

  lemma {:induction false} RangesStop(getSlice: SliceReader, hashes: seq<Digest>, dtypes: seq<Dtype>, ranges: seq<Range>, i: nat, n: nat)
    requires i <= n <= |hashes| && n <= |dtypes| && n <= |ranges|
    requires RangesUpTo(getSlice, hashes, dtypes, ranges, i).result.Err?
    ensures RangesUpTo(getSlice, hashes, dtypes, ranges, n) == RangesUpTo(getSlice, hashes, dtypes, ranges, i)
  {
    if i < n {
      RangesStop(getSlice, hashes, dtypes, ranges, i, n - 1);
    }
  }

  /** It succeeds exactly when every column read does, and then holds the runs end to end. */
  lemma {:induction false} RangesGather(getSlice: SliceReader, hashes: seq<Digest>, dtypes: seq<Dtype>, ranges: seq<Range>, n: nat, contents: Contents)
    requires n <= |hashes| && n <= |dtypes| && n <= |ranges|
    requires SoundContents(contents) && HonestSlices(getSlice, contents)
    ensures var reply := RangesUpTo(getSlice, hashes, dtypes, ranges, n);
      && (reply.result.Ok? <==> forall i :: 0 <= i < n ==> getSlice(hashes[i], dtypes[i], ranges[i]).Ok?)
      && (reply.result.Ok? ==> (forall i :: 0 <= i < n ==> HasRows(contents, hashes[i], ranges[i]))
                               && reply.out == Gathered(contents, hashes[..n], ranges[..n]))
  {
    if n > 0 {
      var k := n - 1;
      RangesGather(getSlice, hashes, dtypes, ranges, k, contents);
      if RangesUpTo(getSlice, hashes, dtypes, ranges, n).result.Ok? {
        GatheredPush(contents, hashes[..k], ranges[..k], hashes[k], ranges[k]);
        PrefixPush(hashes, k);
        PrefixPush(ranges, k);
      }
    }
  }

  /** Clear `out`, then append one `get_slice` per column; the first failure stops the loop
      and leaves the columns before it. */
  method ReadRangesBySlice(getSlice: SliceReader, hashes: seq<Digest>, dtypes: seq<Dtype>, ranges: seq<Range>,
                           ghost contents: Contents)
    returns (out: seq<Byte>, r: Result<()>)
    requires |hashes| == |dtypes| == |ranges|
    requires SoundContents(contents) && HonestSlices(getSlice, contents)
    ensures Reply(out, r) == RangesUpTo(getSlice, hashes, dtypes, ranges, |hashes|)
    ensures r.Ok? <==> forall i :: 0 <= i < |hashes| ==> getSlice(hashes[i], dtypes[i], ranges[i]).Ok?
    ensures r.Ok? ==> (forall i :: 0 <= i < |hashes| ==> HasRows(contents, hashes[i], ranges[i]))
                      && out == Gathered(contents, hashes, ranges)
  {
    out := [];
    var i := 0;
    while i < |hashes|
      invariant 0 <= i <= |hashes| && Reply(out, Ok(())) == RangesUpTo(getSlice, hashes, dtypes, ranges, i)
    {
      var slice := getSlice(hashes[i], dtypes[i], ranges[i]);
      if slice.Err? {
        RangesStop(getSlice, hashes, dtypes, ranges, i + 1, |hashes|);
        RangesGather(getSlice, hashes, dtypes, ranges, |hashes|, contents);
        return out, Err(slice.error);
      }
      out := out + slice.value.bytes;
      i := i + 1;
    }
    RangesGather(getSlice, hashes, dtypes, ranges, |hashes|, contents);
    assert hashes[..|hashes|] == hashes && ranges[..|ranges|] == ranges;
    return out, Ok(());
  }

  /** One row of every column. */
  function OneRow(i: nat): Range { Range(i, i + 1) }

  /** The row-per-column read: a one-row range of each. */
  function RowsReply(getSlice: SliceReader, hashes: seq<Digest>, dtype: Dtype, rows: seq<nat>): Reply
    requires |rows| == |hashes|
  {
    RangesUpTo(getSlice, hashes, Same(|hashes|, dtype), OneRows(rows), |hashes|)
  }

  function Same<T>(n: nat, x: T): (r: seq<T>)
    ensures |r| == n && forall i :: 0 <= i < n ==> r[i] == x
  {
    seq(n, _ => x)
  }

  function OneRows(rows: seq<nat>): (r: seq<Range>)
    ensures |r| == |rows|
  {
    seq(|rows|, i requires 0 <= i < |rows| => OneRow(rows[i]))
  }

  /** It succeeds exactly when every one-row read does, and then holds the rows end to end. */
  lemma RowsGather(getSlice: SliceReader, hashes: seq<Digest>, dtype: Dtype, rows: seq<nat>, contents: Contents)
    requires |rows| == |hashes| && SoundContents(contents) && HonestSlices(getSlice, contents)
    ensures var reply := RowsReply(getSlice, hashes, dtype, rows);
      && (reply.result.Ok? <==> forall i :: 0 <= i < |hashes| ==> getSlice(hashes[i], dtype, OneRow(rows[i])).Ok?)
      && (reply.result.Ok? ==> RowsPresent(contents, hashes, rows) && reply.out == GatheredRows(contents, hashes, rows))
  {
    var ranges := OneRows(rows);
    RangesGather(getSlice, hashes, Same(|hashes|, dtype), ranges, |hashes|, contents);
    assert hashes[..|hashes|] == hashes && ranges[..|hashes|] == ranges;
    if RowsReply(getSlice, hashes, dtype, rows).result.Ok? {
      forall i | 0 <= i < |hashes|
        ensures HasRows(contents, hashes[i], OneRow(rows[i]))
      {
        assert HasRows(contents, hashes[i], ranges[i]);
      }
    }
  }

  method ReadIndicesInto(getSlice: SliceReader, hashes: seq<Digest>, dtype: Dtype, indices: seq<nat>,
                         ghost contents: Contents)
    returns (out: seq<Byte>, r: Result<()>)
    requires |hashes| == |indices|
    requires SoundContents(contents) && HonestSlices(getSlice, contents)
    ensures Reply(out, r) == RowsReply(getSlice, hashes, dtype, indices)
    ensures r.Ok? <==> forall i :: 0 <= i < |hashes| ==> getSlice(hashes[i], dtype, OneRow(indices[i])).Ok?
    ensures r.Ok? ==> RowsPresent(contents, hashes, indices) && out == GatheredRows(contents, hashes, indices)
  {
    out, r := ReadRows(getSlice, hashes, dtype, indices);
    RowsGather(getSlice, hashes, dtype, indices, contents);
  }

  /** Clear the buffer, then append one row per column. */
  method ReadRows(getSlice: SliceReader, hashes: seq<Digest>, dtype: Dtype, indices: seq<nat>) returns (out: seq<Byte>, r: Result<()>)
    requires |hashes| == |indices|
    ensures Reply(out, r) == RowsReply(getSlice, hashes, dtype, indices)
  {
    ghost var dtypes, ranges := Same(|hashes|, dtype), OneRows(indices);
    out := [];
    var i := 0;
    while i < |hashes|
      invariant 0 <= i <= |hashes| && Reply(out, Ok(())) == RangesUpTo(getSlice, hashes, dtypes, ranges, i)
    {
      var step := getSlice(hashes[i], dtype, Range(indices[i], indices[i] + 1));
      if step.Err? {
        RangesStop(getSlice, hashes, dtypes, ranges, i + 1, |hashes|);
        return out, Err(step.error);
      }
      out := out + step.value.bytes;
      i := i + 1;
    }
    return out, Ok(());
  }

  lemma IndexGather(getSlice: SliceReader, hashes: seq<Digest>, dtype: Dtype, index: nat, contents: Contents)
    requires SoundContents(contents) && HonestSlices(getSlice, contents)
    ensures var reply, rows := RowsReply(getSlice, hashes, dtype, Same(|hashes|, index)), Same(|hashes|, index);
      && (reply.result.Ok? <==> forall i :: 0 <= i < |hashes| ==> getSlice(hashes[i], dtype, OneRow(index)).Ok?)
      && (reply.result.Ok? ==> RowsPresent(contents, hashes, rows) && reply.out == GatheredRows(contents, hashes, rows))
  {
    RowsGather(getSlice, hashes, dtype, Same(|hashes|, index), contents);
  }

  method ReadIndexInto(getSlice: SliceReader, hashes: seq<Digest>, dtype: Dtype, index: nat, ghost contents: Contents)
    returns (out: seq<Byte>, r: Result<()>)
    requires SoundContents(contents) && HonestSlices(getSlice, contents)
    ensures Reply(out, r) == RowsReply(getSlice, hashes, dtype, Same(|hashes|, index))
    ensures r.Ok? <==> forall i :: 0 <= i < |hashes| ==> getSlice(hashes[i], dtype, OneRow(index)).Ok?
    ensures r.Ok? ==> RowsPresent(contents, hashes, Same(|hashes|, index))
                      && out == GatheredRows(contents, hashes, Same(|hashes|, index))
  {
    out, r := ReadSteps(getSlice, hashes, dtype, index);
    IndexGather(getSlice, hashes, dtype, index, contents);
  }

  /** Clear the buffer, then append one step per column. */
  method ReadSteps(getSlice: SliceReader, hashes: seq<Digest>, dtype: Dtype, index: nat) returns (out: seq<Byte>, r: Result<()>)
    ensures Reply(out, r) == RowsReply(getSlice, hashes, dtype, Same(|hashes|, index))
  {
    ghost var dtypes, ranges := Same(|hashes|, dtype), OneRows(Same(|hashes|, index));
    out := [];
    var i := 0;
    while i < |hashes|
      invariant 0 <= i <= |hashes| && Reply(out, Ok(())) == RangesUpTo(getSlice, hashes, dtypes, ranges, i)
    {
      var step := getSlice(hashes[i], dtype, Range(index, index + 1));
      if step.Err? {
        RangesStop(getSlice, hashes, dtypes, ranges, i + 1, |hashes|);
        return out, Err(step.error);
      }
      out := out + step.value.bytes;
      i := i + 1;
    }
    return out, Ok(());
  }

  predicate RowsPresent(contents: Contents, hashes: seq<Digest>, rows: seq<nat>) {
    |hashes| == |rows| && forall i :: 0 <= i < |hashes| ==> HasRows(contents, hashes[i], OneRow(rows[i]))
  }

  /** One row of each column, laid end to end. */
  function GatheredRows(contents: Contents, hashes: seq<Digest>, rows: seq<nat>): seq<Byte>
    requires SoundContents(contents) && RowsPresent(contents, hashes, rows)
  {
    Gathered(contents, hashes, OneRows(rows))
  }

  /** What the default block read leaves and returns: a missing array leaves the buffer alone. */
  function BlockRead(found: Result<TypedArray>, countAxis: nat, start: nat, len: nat, prev: seq<Byte>): Reply
    requires found.Ok? ==> found.value.WellFormed()
  {
    if found.Err? then Reply(prev, Err(found.error))
    else if countAxis >= |found.value.shape| then Reply([], Err(IntegrityError))
    else if start + len > found.value.shape[countAxis] then Reply([], Err(InvalidParameter))
    else Reply(Block(found.value, countAxis, start, len), Ok(()))
  }

  /** A read of a block of windows, defaulting to the whole array and a copy. */
  method ReadWindowBlockInto(found: Result<TypedArray>, countAxis: nat, start: nat, len: nat, prev: seq<Byte>)
    returns (out: seq<Byte>, r: Result<()>)
    requires found.Ok? ==> found.value.WellFormed()
    ensures Reply(out, r) == BlockRead(found, countAxis, start, len, prev)
    ensures r.Ok? <==> found.Ok? && countAxis < |found.value.shape| && start + len <= found.value.shape[countAxis]
    ensures r.Ok? ==> out == Block(found.value, countAxis, start, len)
    ensures r.Err? ==> out == if found.Ok? then [] else prev
  {
    if found.Err? {
      return prev, Err(found.error);
    }
    out, r := WriteWindowBlock(found.value, countAxis, start, len, []);
    if r.Ok? {
      assert out == Block(found.value, countAxis, start, len) && r.value == ();
    }
  }
}
