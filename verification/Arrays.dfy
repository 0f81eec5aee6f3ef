/** Element dtypes, runtime-typed arrays, and the row-major index arithmetic every
    strided copy in the store is checked against. */
module Arrays {

  type Byte = b: int | 0 <= b < 256

  /** In declaration order, which is also the order columns are grouped by. */
  datatype Dtype = F64 | F32 | I64 | I32 | U64 | Bool | I16 | I8 | U32 | U16 | U8
  {
    /** Bytes per element. */
    function Size(): (n: nat)
      ensures n > 0
    {
      match this
      case F64 | I64 | U64 => 8
      case F32 | I32 | U32 => 4
      case I16 | U16 => 2
      case Bool | I8 | U8 => 1
    }
  }

  datatype ElementType =
    | Scalar(dtype: Dtype)
    | Tuple(arity: nat, tupleDtype: Dtype)
    | LinearFunction
    | QuadraticFunction
    | PiecewiseLinear
    | PiecewiseStep
  {
    function PhysicalDtype(): Dtype {
      match this
      case Scalar(d) => d
      case Tuple(_, d) => d
      case _ => F64
    }
  }

  type Shape = seq<nat>

  datatype TypedArray = TypedArray(dtype: Dtype, shape: Shape, bytes: seq<Byte>) {
    /** The byte length the constructors check. */
    predicate WellFormed() {
      |bytes| == Product(shape) * dtype.Size()
    }

    /** The shape of the array seen as bytes: each element is one more, innermost, axis. */
    function ByteShape(): Shape {
      shape + [dtype.Size()]
    }
  }

  function Product(shape: Shape): nat {
    if shape == [] then 1 else shape[0] * Product(shape[1..])
  }

  predicate InBounds(shape: Shape, index: seq<nat>) {
    |index| == |shape| && forall i :: 0 <= i < |index| ==> index[i] < shape[i]
  }

  /** Row-major position of a multi-index. */
  function Offset(shape: Shape, index: seq<nat>): nat
    requires InBounds(shape, index)
  {
    if shape == [] then 0 else index[0] * Product(shape[1..]) + Offset(shape[1..], index[1..])
  }

  lemma {:induction false} ProductConcat(a: Shape, b: Shape)
    ensures Product(a + b) == Product(a) * Product(b)
  {
    if a == [] {
      assert a + b == b;
    } else {
      assert (a + b)[1..] == a[1..] + b;
      ProductConcat(a[1..], b);
      MulAssoc(a[0], Product(a[1..]), Product(b));
    }
  }

  lemma MulAssoc(x: int, y: int, z: int)
    ensures x * (y * z) == (x * y) * z
  {}

  /** Splitting a shape splits the offset: an outer position times the inner volume,
      plus the inner position. */
  lemma {:induction false} OffsetConcat(a: Shape, b: Shape, i: seq<nat>, j: seq<nat>)
    requires InBounds(a, i) && InBounds(b, j)
    ensures InBounds(a + b, i + j)
    ensures Offset(a + b, i + j) == Offset(a, i) * Product(b) + Offset(b, j)
  {
    if a == [] {
      assert a + b == b && i + j == j;
    } else {
      assert (a + b)[1..] == a[1..] + b && (i + j)[1..] == i[1..] + j;
      OffsetConcat(a[1..], b, i[1..], j);
      ProductConcat(a[1..], b);
      assert InBounds(a + b, i + j);
      HornerStep(i[0], Product(a[1..]), Product(b), Offset(a[1..], i[1..]), Offset(b, j));
    }
  }

  lemma HornerStep(head: int, p: int, q: int, tail: int, rest: int)
    ensures head * (p * q) + (tail * q + rest) == (head * p + tail) * q + rest
  {
    MulAssoc(head, p, q);
    Distribute(head * p, tail, q);
  }

  lemma Distribute(x: int, y: int, z: int)
    ensures (x + y) * z == x * z + y * z
  {}

  lemma {:induction false} OffsetBound(shape: Shape, index: seq<nat>)
    requires InBounds(shape, index)
    ensures Offset(shape, index) < Product(shape)
  {
    if shape != [] {
      OffsetBound(shape[1..], index[1..]);
      var p := Product(shape[1..]);
      Distribute(index[0], 1, p);
      MulMonotone(index[0] + 1, shape[0], p);
    }
  }

  lemma MulMonotone(x: int, y: int, z: nat)
    requires x <= y
    ensures x * z <= y * z
  {}

  lemma DivUnique(d: int, m: int, q: int)
    requires m > 0 && q * m <= d < q * m + m
    ensures d / m == q && d % m == d - q * m
  {
    var e := d / m;
    if e < q {
      MulMonotone(e + 1, q, m);
    } else if q < e {
      MulMonotone(q + 1, e, m);
    }
  }

  lemma ProductOne(n: nat)
    ensures Product([n]) == n
  {
    assert [n][1..] == [];
  }

  lemma OffsetOne(n: nat, k: nat)
    requires k < n
    ensures InBounds([n], [k]) && Offset([n], [k]) == k
  {
    assert [n][1..] == [] && [k][1..] == [];
    assert Offset([n], [k]) == k * Product([]) + Offset([], []);
  }

  // ---- prefixes, and sequences laid end to end -------------------------------------------

  lemma PrefixPush<T>(s: seq<T>, i: nat)
    requires i < |s|
    ensures s[..i + 1] == s[..i] + [s[i]]
    ensures i + 1 == |s| ==> s[..i + 1] == s
  {}

  lemma WholePrefix<T>(s: seq<T>)
    ensures s[..|s|] == s
  {}

  lemma PrefixOfPrefix<T>(s: seq<T>, n: nat, k: nat)
    requires k <= n <= |s|
    ensures s[..n][..k] == s[..k]
  {}

  lemma Assoc<T>(a: seq<T>, b: seq<T>, c: seq<T>)
    ensures (a + b) + c == a + (b + c)
  {}

  lemma Behind<T>(a: seq<T>, b: seq<T>, k: nat)
    requires |a| <= k < |a| + |b|
    ensures (a + b)[k] == b[k - |a|]
  {}

  function Flatten<T>(runs: seq<seq<T>>): seq<T> {
    if runs == [] then [] else runs[0] + Flatten(runs[1..])
  }

  predicate AllWide<T>(runs: seq<seq<T>>, width: nat) {
    forall i :: 0 <= i < |runs| ==> |runs[i]| == width
  }

  lemma {:induction false} FlattenConcat<T>(a: seq<seq<T>>, b: seq<seq<T>>)
    ensures Flatten(a + b) == Flatten(a) + Flatten(b)
  {
    if a == [] {
      assert a + b == b;
    } else {
      assert (a + b)[0] == a[0] && (a + b)[1..] == a[1..] + b;
      FlattenConcat(a[1..], b);
    }
  }

  lemma FlattenPush<T>(runs: seq<seq<T>>, run: seq<T>)
    ensures Flatten(runs + [run]) == Flatten(runs) + run
  {
    FlattenConcat(runs, [run]);
    assert Flatten([run]) == run + Flatten([run][1..]);
  }

  lemma {:induction false} FlattenLength<T>(runs: seq<seq<T>>, width: nat)
    requires AllWide(runs, width)
    ensures |Flatten(runs)| == |runs| * width
  {
    if runs != [] {
      FlattenLength(runs[1..], width);
      Distribute(|runs| - 1, 1, width);
    }
  }

  /** The run at `i`, where `i` runs of `width` end. */
  lemma FlattenAt<T>(runs: seq<seq<T>>, width: nat, i: nat, at: nat)
    requires AllWide(runs, width) && i < |runs| && at == i * width
    ensures at + width <= |Flatten(runs)| && Flatten(runs)[at..at + width] == runs[i]
  {
    var head, tail := runs[..i], runs[i..];
    assert runs == head + tail;
    FlattenConcat(head, tail);
    FlattenLength(head, width);
    assert tail[0] == runs[i];
    RunAfter(Flatten(head), runs[i], Flatten(tail[1..]));
  }

  lemma RunAfter<T>(head: seq<T>, run: seq<T>, rest: seq<T>)
    ensures (head + (run + rest))[|head|..|head| + |run|] == run
  {}

  predicate SameLengths<T>(a: seq<seq<T>>, b: seq<seq<T>>) {
    |a| == |b| && forall i :: 0 <= i < |a| ==> |a[i]| == |b[i]|
  }

  /** Runs of the same lengths are as long end to end, and are told apart end to end. */
  lemma {:induction false} FlattenSplits<T>(a: seq<seq<T>>, b: seq<seq<T>>)
    requires SameLengths(a, b)
    ensures |Flatten(a)| == |Flatten(b)|
    ensures Flatten(a) == Flatten(b) ==> a == b
  {
    if a != [] {
      var x, y, rest, more := a[0], b[0], Flatten(a[1..]), Flatten(b[1..]);
      FlattenSplits(a[1..], b[1..]);
      if x + rest == y + more {
        assert (x + rest)[..|x|] == x && (y + more)[..|y|] == y;
        assert (x + rest)[|x|..] == rest && (y + more)[|y|..] == more;
        assert a == [x] + a[1..] && b == [y] + b[1..];
      }
    }
  }
}
