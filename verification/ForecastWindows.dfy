/** One physical forecast window and its chunk-aligned block cache (reader.rs, WindowSlot). */
module ForecastWindows {
  import opened Wrappers
  import opened Arrays
  import opened Cuts
  import opened Storage

  datatype WindowRead =
    | Dense(countAxis: nat)
    | Derived(intervalSteps: nat, horizonSteps: nat)

  /** `read_block(hash, dtype, count_axis, start, len, out)`. */
  type BlockReader = (Digest, Dtype, nat, nat, nat) -> Reply

  /** The seam: a call may fail and leave anything behind, but a success hands back the block
      of the array the hash names. */
  ghost predicate HonestBlocks(read: BlockReader, hash: Digest, arr: TypedArray)
    requires arr.WellFormed()
  {
    forall d: Dtype, axis: nat, start: nat, len: nat :: read(hash, d, axis, start, len).result.Ok? ==>
      && axis < |arr.shape| && start + len <= arr.shape[axis]
      && read(hash, d, axis, start, len).out == Block(arr, axis, start, len)
  }

  /** The chunk-aligned block of windows that holds `window`; the last one may be short. */
  function EnclosingBlock(blockCols: nat, count: nat, window: nat): (r: Range)
    ensures window < count ==> r.start <= window < r.end <= count
  {
    var cols := Width(blockCols);
    BlockHolds(window, cols);
    Range((window / cols) * cols, Min((window / cols) * cols + cols, count))
  }

  function Width(blockCols: nat): (cols: nat)
    ensures cols > 0
  {
    if blockCols == 0 then 1 else blockCols
  }

  function Min(a: nat, b: nat): nat { if a < b then a else b }

  /** The window a slot stands for: the array with its count axis fixed, or the run of rows. */
  predicate Describes(read: WindowRead, count: nat, arr: TypedArray) {
    && arr.WellFormed() && arr.shape != []
    && match read
       case Dense(axis) => axis < |arr.shape| && arr.shape[axis] == count
       case Derived(steps, h) => forall w: nat :: w < count ==> w * steps + h <= arr.shape[0]
  }

  function WindowBytes(read: WindowRead, count: nat, arr: TypedArray, w: nat): seq<Byte>
    requires Describes(read, count, arr) && w < count
  {
    match read
    case Dense(axis) => Window(arr, axis, w)
    case Derived(steps, h) =>
      assert 0 <= w * steps && w * steps + h <= arr.shape[0];
      Block(arr, 0, w * steps, h)
  }

  class WindowSlot {
    const hash: Digest
    const elementType: ElementType
    const windowShape: Shape
    const read: WindowRead
    const count: nat
    const blockCols: nat
    /** Windows currently held in `block`, if any. */
    var cached: Option<Range>
    var block: seq<Byte>
    var buf: seq<Byte>
    var filled: bool

    constructor (hash: Digest, elementType: ElementType, windowShape: Shape, read: WindowRead, count: nat, blockCols: nat)
      ensures this.hash == hash && this.elementType == elementType && this.windowShape == windowShape
      ensures this.read == read && this.count == count && this.blockCols == blockCols
      ensures cached == None && !filled
    {
      this.hash, this.elementType, this.windowShape, this.read := hash, elementType, windowShape, read;
      this.count, this.blockCols := count, blockCols;
      cached, block, buf, filled := None, [], [], false;
    }

    /** The plan fits the array its hash names. */
    ghost predicate Fits(arr: TypedArray) {
      && Describes(read, count, arr)
      && arr.dtype == elementType.PhysicalDtype()
      && match read
         case Dense(axis) => windowShape == WithoutAxis(arr.shape, axis)
         case Derived(_, h) => windowShape == [h] + arr.shape[1..]
    }

    /** `cached` always means that `block` is exactly that sub-block of the array. */
    ghost predicate Valid(arr: TypedArray)
      reads this
    {
      && Fits(arr)
      && (cached.Some? ==>
            && read.Dense?
            && cached.value.start <= cached.value.end <= count
            && block == Block(arr, read.countAxis, cached.value.start, cached.value.end - cached.value.start))
    }

    function BlockRange(window: nat): (r: Range)
      ensures window < count ==> r.start <= window < r.end <= count
    {
      EnclosingBlock(blockCols, count, window)
    }

    function Window(): seq<Byte>
      reads this
    {
      if filled then buf else []
    }

    predicate ServesFromCache(window: nat)
      reads this
    {
      match read
      case Dense(_) => cached == Some(BlockRange(window))
      case Derived(_, _) => false
    }

    method Forget()
      modifies this`cached, this`filled
      ensures cached == None && Window() == []
    {
      cached := None;
      filled := false;
    }

    function DerivedSpan(window: nat): Option<Range> {
      match read
      case Dense(_) => None
      case Derived(steps, h) =>
        assert 0 <= window * steps;
        Some(Range(window * steps, window * steps + h))
    }

    function WindowSize(): nat {
      Product(windowShape) * elementType.PhysicalDtype().Size()
    }

    method SetWindow(window: seq<Byte>)
      modifies this`buf, this`filled
      ensures filled && Window() == window
    {
      buf := window;
      filled := true;
    }

    /** What the backend answers when asked for the block that holds `window`. */
    function BlockReply(window: nat, readBlock: BlockReader): Reply
      requires read.Dense? && window < count
    {
      var r := BlockRange(window);
      readBlock(hash, elementType.PhysicalDtype(), read.countAxis, r.start, r.end - r.start)
    }

    /** Hold the block that covers `window`: the cached one, or one backend call. */
    method LoadBlock(window: nat, readBlock: BlockReader, ghost arr: TypedArray) returns (r: Result<()>, ghost calls: nat)
      requires Valid(arr) && HonestBlocks(readBlock, hash, arr) && read.Dense? && window < count
      modifies this`cached, this`block
      ensures Valid(arr)
      ensures calls == if old(ServesFromCache(window)) then 0 else 1
      ensures r.Ok? <==> old(ServesFromCache(window)) || BlockReply(window, readBlock).result.Ok?
      ensures cached == if r.Ok? then Some(BlockRange(window)) else None
    {
      calls := 0;
      var cols := if blockCols == 0 then 1 else blockCols;
      var start := (window / cols) * cols;
      BlockHolds(window, cols);
      var end := Min(start + cols, count);
      assert Range(start, end) == BlockRange(window);
      if cached != Some(Range(start, end)) {
        cached := None;
        var reply := readBlock(hash, elementType.PhysicalDtype(), read.countAxis, start, end - start);
        calls := 1;
        block := reply.out;
        if reply.result.Err? {
          return Err(reply.result.error), calls;
        }
        cached := Some(Range(start, end));
      }
      return Ok(()), calls;
    }

    /** Read window `window`: from the cached block when it covers it, else through one
        backend call. Whatever the call leaves behind on failure is never served. */
    method ReadWindow(window: nat, readBlock: BlockReader, ghost arr: TypedArray)
      returns (r: Result<()>, ghost calls: nat)
      requires Valid(arr) && HonestBlocks(readBlock, hash, arr)
      requires read.Dense? ==> window < count
      modifies this`cached, this`block, this`buf, this`filled
      ensures Valid(arr)
      ensures read.Derived? ==> r == Err(IntegrityError) && calls == 0 && Window() == old(Window()) && cached == old(cached)
      ensures read.Dense? ==> (calls == if old(ServesFromCache(window)) then 0 else 1)
      ensures read.Dense? ==> (r.Ok? <==> old(ServesFromCache(window)) || BlockReply(window, readBlock).result.Ok?)
      ensures read.Dense? && r.Ok? ==>
                Window() == WindowBytes(read, count, arr, window) && ServesFromCache(window)
      ensures read.Dense? && r.Err? ==> Window() == [] && cached == None
    {
      if read.Derived? {
        return Err(IntegrityError), 0;
      }
      filled := false;
      r, calls := LoadBlock(window, readBlock, arr);
      if r.Ok? {
        ServeWindow(window, arr);
      }
    }

    /** Gather the window out of the block that holds it. */
    method ServeWindow(window: nat, ghost arr: TypedArray)
      requires Valid(arr) && read.Dense? && window < count && cached == Some(BlockRange(window))
      modifies this`buf, this`filled
      ensures Valid(arr) && Window() == WindowBytes(read, count, arr, window)
    {
      var held := cached.value;
      buf := GatherWindow(block, windowShape, read.countAxis, held.end - held.start, window - held.start,
                          elementType.PhysicalDtype().Size(), arr, held.start);
      filled := true;
    }
  }

  lemma BlockHolds(window: nat, cols: nat)
    requires cols > 0
    ensures 0 <= (window / cols) * cols <= window < (window / cols) * cols + cols
  {}

  /** Gather window `lw` of a cached block of `blockLen` windows, one outer row at a time. */
  method GatherWindow(block: seq<Byte>, windowShape: Shape, countAxis: nat, blockLen: nat, lw: nat, elemSize: nat,
                      ghost arr: TypedArray, ghost start: nat)
    returns (out: seq<Byte>)
    requires arr.WellFormed() && countAxis < |arr.shape| && start + blockLen <= arr.shape[countAxis] && lw < blockLen
    requires windowShape == WithoutAxis(arr.shape, countAxis) && elemSize == arr.dtype.Size()
    requires block == Block(arr, countAxis, start, blockLen)
    ensures out == Window(arr, countAxis, start + lw)
  {
    var outer := Product(windowShape[..countAxis]);
    var innerBytes := Product(windowShape[countAxis..]) * elemSize;
    StepsFit(blockLen, lw, 1, innerBytes);
    ghost var width, from, at: nat := blockLen * innerBytes, lw * innerBytes, 0;
    AroundAxis(arr, countAxis);
    WindowOfBlock(arr, countAxis, start, blockLen, lw, innerBytes, width, from);
    out := [];
    var o := 0;
    RowsCutNone(out, block, outer, width, from, innerBytes);
    while o < outer
      invariant o <= outer && RowsCut(out, [], block, outer, width, from, innerBytes, o, at)
    {
      RowsCutNext(out, [], block, outer, width, from, innerBytes, o, at);
      SourceStart(o, blockLen, lw, innerBytes);
      var src := (o * blockLen + lw) * innerBytes;
      assert src == at + from;
      out := out + block[src..src + innerBytes];
      o, at := o + 1, at + width;
    }
    RowsCutAll(out, [], block, outer, width, from, innerBytes, at);
  }

  /** The axes before and after the counting axis, in the shape without it. */
  lemma AroundAxis(a: TypedArray, axis: nat)
    requires axis < |a.shape|
    ensures var shape := WithoutAxis(a.shape, axis);
      axis <= |shape| && Product(shape[..axis]) == OuterRows(a, axis) && Product(shape[axis..]) * a.dtype.Size() == InnerBytes(a, axis)
  {
    var shape := WithoutAxis(a.shape, axis);
    assert shape[..axis] == a.shape[..axis] && shape[axis..] == a.shape[axis + 1..];
  }

  /** Fixing step `lw` of a block that begins at `start` fixes step `start + lw` of the array. */
  lemma WindowOfBlock(a: TypedArray, axis: nat, start: nat, len: nat, lw: nat, inner: nat, run: nat, off: nat)
    requires a.WellFormed() && axis < |a.shape| && start + len <= a.shape[axis] && lw < len
    requires inner == InnerBytes(a, axis) && run == len * inner && off == lw * inner
    ensures off + inner <= run && |Block(a, axis, start, len)| == OuterRows(a, axis) * run
    ensures Cut(Block(a, axis, start, len), OuterRows(a, axis), run, off, inner) == Window(a, axis, start + lw)
  {
    var width, from := a.shape[axis] * inner, start * inner;
    MatrixSize(a, axis);
    StepsFit(len, lw, 1, inner);
    StepsFit(a.shape[axis], start, len, inner);
    Distribute(start, lw, inner);
    assert from + off == (start + lw) * inner && 1 * inner == inner;
    CutOfCut(a.bytes, OuterRows(a, axis), width, from, run, off, inner);
  }
}
