/** The one strided copy everything in the store is made of: the same columns of every
    row of a row-major matrix. Window blocks, window gathers and row slices are cuts, so
    what they mean is proved once, here, against multi-indices. */
module Cuts {
  import opened Arrays

  /** Columns `from .. from + len` of each of `rows` rows of `width` columns. */
  function Cut<T>(src: seq<T>, rows: nat, width: nat, from: nat, len: nat): (r: seq<T>)
    requires from + len <= width
    requires |src| == rows * width
    ensures |r| == rows * len
  {
    if rows == 0 then [] else
      RowsFit(rows, width);
      RowsFit(rows, len);
      src[from..from + len] + Cut(src[width..], rows - 1, width, from, len)
  }

  lemma RowsFit(rows: nat, width: nat)
    requires rows > 0
    ensures rows * width == (rows - 1) * width + width
    ensures 0 <= (rows - 1) * width
  {}

  lemma RowInside(o: nat, rows: nat, width: nat)
    requires o < rows
    ensures 0 <= o * width && o * width + width <= rows * width
  {
    MulMonotone(o + 1, rows, width);
    Distribute(o, 1, width);
  }

  /** Where each entry of a cut comes from. */
  lemma {:induction false} CutAt<T>(src: seq<T>, rows: nat, width: nat, from: nat, len: nat, o: nat, k: nat)
    requires from + len <= width && |src| == rows * width
    requires o < rows && k < len
    ensures 0 <= o * len + k < rows * len && 0 <= o * width + from + k < |src|
    ensures Cut(src, rows, width, from, len)[o * len + k] == src[o * width + from + k]
  {
    RowInside(o, rows, len);
    RowInside(o, rows, width);
    if o > 0 {
      RowsFit(rows, width);
      RowsFit(o, width);
      RowsFit(o, len);
      CutAt(src[width..], rows - 1, width, from, len, o - 1, k);
    }
  }

  lemma HeadSlice<T>(first: seq<T>, rest: seq<T>, p: nat, n: nat)
    requires p + n <= |first|
    ensures (first + rest)[p..p + n] == first[p..p + n]
    ensures (first + rest)[|first|..] == rest
  {}

  lemma SliceOfSlice<T>(s: seq<T>, at: nat, len: nat, p: nat, n: nat)
    requires at + len <= |s| && p + n <= len
    ensures s[at..at + len][p..p + n] == s[at + p..at + p + n]
  {
    var x, y := s[at..at + len][p..p + n], s[at + p..at + p + n];
    assert |x| == |y| && forall i :: 0 <= i < n ==> x[i] == y[i];
  }

  /** Cutting a cut is one cut: gathering a window out of a cached block is reading the
      window out of the whole array. */
  lemma {:induction false} CutOfCut<T>(src: seq<T>, rows: nat, width: nat, from: nat, len: nat, from': nat, len': nat)
    requires from + len <= width && |src| == rows * width && from' + len' <= len
    ensures Cut(Cut(src, rows, width, from, len), rows, len, from', len')
         == Cut(src, rows, width, from + from', len')
  {
    if rows > 0 {
      RowsFit(rows, width);
      HeadSlice(src[from..from + len], Cut(src[width..], rows - 1, width, from, len), from', len');
      SliceOfSlice(src, from, len, from', len');
      CutOfCut(src[width..], rows - 1, width, from, len, from', len');
    }
  }

  /** A one-row matrix: the cut is a plain slice. */
  lemma CutOneRow<T>(src: seq<T>, from: nat, len: nat)
    requires from + len <= |src|
    ensures |src| == 1 * |src|
    ensures Cut(src, 1, |src|, from, len) == src[from..from + len]
  {}

  /** One more row: its columns come last. */
  lemma {:induction false} CutPush<T>(src: seq<T>, row: seq<T>, rows: nat, width: nat, from: nat, len: nat)
    requires from + len <= width && |src| == rows * width && |row| == width
    ensures |src + row| == (rows + 1) * width
    ensures Cut(src + row, rows + 1, width, from, len) == Cut(src, rows, width, from, len) + row[from..from + len]
  {
    Distribute(rows, 1, width);
    if rows == 0 {
      assert src + row == row;
      assert Cut(row[width..], 0, width, from, len) == [];
    } else {
      RowsFit(rows, width);
      HeadSlice(src, row, from, len);
      assert (src + row)[width..] == src[width..] + row;
      CutPush(src[width..], row, rows - 1, width, from, len);
    }
  }

  /** The row shared by growing loops: one more row of a cut, which starts at `at`. */
  lemma CutStep<T>(src: seq<T>, rows: nat, width: nat, from: nat, len: nat, o: nat, at: nat)
    requires from + len <= width && |src| == rows * width && o < rows && at == o * width
    ensures at + width <= |src| && at + width == (o + 1) * width
    ensures Cut(src[..at + width], o + 1, width, from, len)
         == Cut(src[..at], o, width, from, len) + src[at + from..at + from + len]
  {
    RowInside(o, rows, width);
    Distribute(o, 1, width);
    SliceOfSlice(src, at, width, from, len);
    CutPush(src[..at], src[at..at + width], o, width, from, len);
    assert src[..at + width] == src[..at] + src[at..at + width];
  }

  /** The state of a loop that copies a cut: the first `o` rows are behind `prefix`, the next starts at `at`. */
  predicate RowsCut<T(==)>(out: seq<T>, prefix: seq<T>, src: seq<T>, rows: nat, width: nat, from: nat, len: nat, o: nat, at: nat) {
    && from + len <= width && |src| == rows * width && o <= rows && at == o * width && at <= |src|
    && out == prefix + Cut(src[..at], o, width, from, len)
  }

  lemma RowsCutNone<T>(prefix: seq<T>, src: seq<T>, rows: nat, width: nat, from: nat, len: nat)
    requires from + len <= width && |src| == rows * width
    ensures RowsCut(prefix, prefix, src, rows, width, from, len, 0, 0)
  {}

  lemma RowsCutNext<T>(out: seq<T>, prefix: seq<T>, src: seq<T>, rows: nat, width: nat, from: nat, len: nat, o: nat, at: nat)
    requires RowsCut(out, prefix, src, rows, width, from, len, o, at) && o < rows
    ensures at + width <= |src|
    ensures RowsCut(out + src[at + from..at + from + len], prefix, src, rows, width, from, len, o + 1, at + width)
  {
    CutStep(src, rows, width, from, len, o, at);
    var done, run := Cut(src[..at], o, width, from, len), src[at + from..at + from + len];
    assert prefix + done + run == prefix + (done + run);
  }

  lemma RowsCutAll<T>(out: seq<T>, prefix: seq<T>, src: seq<T>, rows: nat, width: nat, from: nat, len: nat, at: nat)
    requires RowsCut(out, prefix, src, rows, width, from, len, rows, at)
    ensures out == prefix + Cut(src, rows, width, from, len)
  {
    assert src[..at] == src;
  }

  // ---- what a cut along an axis means ------------------------------------------

  /** Bytes spanned by one step along `axis`. */
  function InnerBytes(a: TypedArray, axis: nat): nat
    requires axis < |a.shape|
  {
    Product(a.shape[axis + 1..]) * a.dtype.Size()
  }

  function OuterRows(a: TypedArray, axis: nat): nat
    requires axis < |a.shape|
  {
    Product(a.shape[..axis])
  }

  lemma MatrixSize(a: TypedArray, axis: nat)
    requires axis < |a.shape| && a.WellFormed()
    ensures |a.bytes| == OuterRows(a, axis) * (a.shape[axis] * InnerBytes(a, axis))
  {
    var o, n, i, s := Product(a.shape[..axis]), a.shape[axis], Product(a.shape[axis + 1..]), a.dtype.Size();
    assert a.shape == a.shape[..axis] + a.shape[axis..];
    ProductConcat(a.shape[..axis], a.shape[axis..]);
    assert a.shape[axis..][1..] == a.shape[axis + 1..];
    assert Product(a.shape) == o * (n * i);
    MulAssoc(o, n * i, s);
    MulAssoc(n, i, s);
  }

  lemma StepsFit(n: nat, start: nat, len: nat, inner: nat)
    requires start + len <= n
    ensures start * inner + len * inner <= n * inner
    ensures start * inner >= 0 && len * inner >= 0
  {
    Distribute(start, len, inner);
    MulMonotone(start + len, n, inner);
  }

  /** The sub-block `start .. start + len` along `axis`, keeping that axis. */
  function Block(a: TypedArray, axis: nat, start: nat, len: nat): (r: seq<Byte>)
    requires a.WellFormed() && axis < |a.shape| && start + len <= a.shape[axis]
    ensures |r| == OuterRows(a, axis) * (len * InnerBytes(a, axis))
  {
    var inner := InnerBytes(a, axis);
    MatrixSize(a, axis);
    StepsFit(a.shape[axis], start, len, inner);
    Cut(a.bytes, OuterRows(a, axis), a.shape[axis] * inner, start * inner, len * inner)
  }

  /** `a` with `axis` fixed at `w` and dropped. */
  function Window(a: TypedArray, axis: nat, w: nat): seq<Byte>
    requires a.WellFormed() && axis < |a.shape| && w < a.shape[axis]
  {
    Block(a, axis, w, 1)
  }

  function WithoutAxis(shape: Shape, axis: nat): Shape
    requires axis < |shape|
  {
    shape[..axis] + shape[axis + 1..]
  }

  function Insert(index: seq<nat>, axis: nat, k: nat): seq<nat>
    requires axis <= |index|
  {
    index[..axis] + [k] + index[axis..]
  }

  /** Position of `outer, k, inner` in a shape split around one axis of `n` steps. */
  lemma {:induction false} SplitOffset(a: Shape, n: nat, c: Shape, i: seq<nat>, k: nat, j: seq<nat>)
    requires InBounds(a, i) && k < n && InBounds(c, j)
    ensures InBounds(a + [n] + c, i + [k] + j)
    ensures Offset(a + [n] + c, i + [k] + j)
         == Offset(a, i) * (n * Product(c)) + k * Product(c) + Offset(c, j)
  {
    OffsetOne(n, k);
    ProductOne(n);
    OffsetConcat([n], c, [k], j);
    OffsetConcat(a, [n] + c, i, [k] + j);
    ProductConcat([n], c);
    assert a + [n] + c == a + ([n] + c) && i + [k] + j == i + ([k] + j);
  }

  /** Where byte `r` of step `k` of outer row `o` of a block comes from. */
  lemma {:induction false} BlockAt(a: TypedArray, axis: nat, start: nat, len: nat, o: nat, k: nat, r: nat)
    requires a.WellFormed() && axis < |a.shape| && start + len <= a.shape[axis]
    requires o < OuterRows(a, axis) && k < len && r < InnerBytes(a, axis)
    ensures 0 <= o * (len * InnerBytes(a, axis)) + k * InnerBytes(a, axis) + r < |Block(a, axis, start, len)|
    ensures 0 <= o * (a.shape[axis] * InnerBytes(a, axis)) + (start + k) * InnerBytes(a, axis) + r < |a.bytes|
    ensures Block(a, axis, start, len)[o * (len * InnerBytes(a, axis)) + k * InnerBytes(a, axis) + r]
         == a.bytes[o * (a.shape[axis] * InnerBytes(a, axis)) + (start + k) * InnerBytes(a, axis) + r]
  {
    var inner := InnerBytes(a, axis);
    MatrixSize(a, axis);
    StepsFit(a.shape[axis], start, len, inner);
    RowInside(k, len, inner);
    CutAt(a.bytes, OuterRows(a, axis), a.shape[axis] * inner, start * inner, len * inner, o, k * inner + r);
    Distribute(start, k, inner);
  }

  /** The byte position of `outer, k, inner, b` in an array of shape `s` whose `axis` has `n` steps. */
  lemma {:induction false} BytePosition(a: TypedArray, axis: nat, n: nat, index: seq<nat>, k: nat, b: nat)
    requires axis < |a.shape| && k < n
    requires InBounds(WithoutAxis(a.shape, axis), index) && b < a.dtype.Size()
    ensures InBounds(a.shape[..axis], index[..axis])
    ensures InBounds(a.shape[axis + 1..] + [a.dtype.Size()], index[axis..] + [b])
    ensures InBounds(a.shape[axis := n] + [a.dtype.Size()], Insert(index, axis, k) + [b])
    ensures Offset(a.shape[axis := n] + [a.dtype.Size()], Insert(index, axis, k) + [b])
         == Offset(a.shape[..axis], index[..axis]) * (n * InnerBytes(a, axis)) + k * InnerBytes(a, axis)
            + Offset(a.shape[axis + 1..] + [a.dtype.Size()], index[axis..] + [b])
    ensures Offset(a.shape[..axis], index[..axis]) < OuterRows(a, axis)
    ensures Offset(a.shape[axis + 1..] + [a.dtype.Size()], index[axis..] + [b]) < InnerBytes(a, axis)
  {
    var size := a.dtype.Size();
    var outer, c := a.shape[..axis], a.shape[axis + 1..] + [size];
    var i, j := index[..axis], index[axis..] + [b];
    OuterInner(a.shape, axis, index, size, b);
    SplitOffset(outer, n, c, i, k, j);
    ProductConcat(a.shape[axis + 1..], [size]);
    ProductOne(size);
    OffsetBound(outer, i);
    OffsetBound(c, j);
    SetAround(a.shape, axis, n, size);
    InsertAround(index, axis, k, b);
  }

  lemma SetAround(shape: Shape, axis: nat, n: nat, size: nat)
    requires axis < |shape|
    ensures shape[axis := n] + [size] == shape[..axis] + [n] + (shape[axis + 1..] + [size])
    ensures WithoutAxis(shape, axis) + [size] == shape[..axis] + (shape[axis + 1..] + [size])
  {}

  lemma InsertAround(index: seq<nat>, axis: nat, k: nat, b: nat)
    requires axis <= |index|
    ensures Insert(index, axis, k) + [b] == index[..axis] + [k] + (index[axis..] + [b])
    ensures index + [b] == index[..axis] + (index[axis..] + [b])
  {}

  /** A block is the array restricted to `start .. start + len` along `axis`: for every
      multi-index of the block, byte for byte. */
  lemma {:induction false} BlockMeansRestriction(a: TypedArray, axis: nat, start: nat, len: nat, index: seq<nat>, k: nat, b: nat)
    requires a.WellFormed() && axis < |a.shape| && start + len <= a.shape[axis] && k < len
    requires InBounds(WithoutAxis(a.shape, axis), index) && b < a.dtype.Size()
    ensures InBounds(a.shape[axis := len] + [a.dtype.Size()], Insert(index, axis, k) + [b])
    ensures InBounds(a.ByteShape(), Insert(index, axis, start + k) + [b])
    ensures Offset(a.shape[axis := len] + [a.dtype.Size()], Insert(index, axis, k) + [b]) < |Block(a, axis, start, len)|
    ensures Offset(a.ByteShape(), Insert(index, axis, start + k) + [b]) < |a.bytes|
    ensures Block(a, axis, start, len)[Offset(a.shape[axis := len] + [a.dtype.Size()], Insert(index, axis, k) + [b])]
         == a.bytes[Offset(a.ByteShape(), Insert(index, axis, start + k) + [b])]
  {
    BytePosition(a, axis, len, index, k, b);
    BytePosition(a, axis, a.shape[axis], index, start + k, b);
    assert a.shape[axis := a.shape[axis]] == a.shape;
    BlockAt(a, axis, start, len, Offset(a.shape[..axis], index[..axis]), k,
            Offset(a.shape[axis + 1..] + [a.dtype.Size()], index[axis..] + [b]));
  }

  lemma OuterInner(shape: Shape, axis: nat, index: seq<nat>, size: nat, b: nat)
    requires axis < |shape| && InBounds(WithoutAxis(shape, axis), index) && b < size
    ensures InBounds(shape[..axis], index[..axis])
    ensures InBounds(shape[axis + 1..] + [size], index[axis..] + [b])
  {
    var rest := WithoutAxis(shape, axis);
    forall i | 0 <= i < |shape[axis + 1..]|
      ensures index[axis..][i] < shape[axis + 1..][i]
    {
      assert rest[axis + i] == shape[axis + 1..][i] && index[axis + i] < rest[axis + i];
    }
    forall i | 0 <= i < axis
      ensures index[..axis][i] < shape[..axis][i]
    {
      assert rest[i] == shape[i];
    }
  }

  /** A window is the array with `axis` fixed: every multi-index, byte for byte. */
  lemma {:induction false} WindowMeansFixedAxis(a: TypedArray, axis: nat, w: nat, index: seq<nat>, b: nat)
    requires a.WellFormed() && axis < |a.shape| && w < a.shape[axis]
    requires InBounds(WithoutAxis(a.shape, axis), index) && b < a.dtype.Size()
    ensures InBounds(WithoutAxis(a.shape, axis) + [a.dtype.Size()], index + [b])
    ensures InBounds(a.ByteShape(), Insert(index, axis, w) + [b])
    ensures Offset(WithoutAxis(a.shape, axis) + [a.dtype.Size()], index + [b]) < |Window(a, axis, w)|
    ensures Offset(a.ByteShape(), Insert(index, axis, w) + [b]) < |a.bytes|
    ensures Window(a, axis, w)[Offset(WithoutAxis(a.shape, axis) + [a.dtype.Size()], index + [b])]
         == a.bytes[Offset(a.ByteShape(), Insert(index, axis, w) + [b])]
  {
    BlockMeansRestriction(a, axis, w, 1, index, 0, b);
    BytePosition(a, axis, 1, index, 0, b);
    DropUnitAxis(a, axis, index, b);
  }

  lemma {:induction false} DropUnitAxis(a: TypedArray, axis: nat, index: seq<nat>, b: nat)
    requires axis < |a.shape|
    requires InBounds(WithoutAxis(a.shape, axis), index) && b < a.dtype.Size()
    ensures InBounds(WithoutAxis(a.shape, axis) + [a.dtype.Size()], index + [b])
    ensures InBounds(a.shape[axis := 1] + [a.dtype.Size()], Insert(index, axis, 0) + [b])
    ensures Offset(WithoutAxis(a.shape, axis) + [a.dtype.Size()], index + [b])
         == Offset(a.shape[axis := 1] + [a.dtype.Size()], Insert(index, axis, 0) + [b])
  {
    var size := a.dtype.Size();
    var outer, c := a.shape[..axis], a.shape[axis + 1..] + [size];
    var i, j := index[..axis], index[axis..] + [b];
    OuterInner(a.shape, axis, index, size, b);
    OffsetConcat(outer, c, i, j);
    SplitOffset(outer, 1, c, i, 0, j);
    SetAround(a.shape, axis, 1, size);
    InsertAround(index, axis, 0, b);
  }
}
