/** The reference codec between a stored array and its per-timestep values (codec.rs). */
module Codec {
  import opened Wrappers
  import opened Arrays

  /** A 64-bit float: the sign is kept on zero, and a NaN keeps its payload. */
  datatype Real64 = Finite(negative: bool, magnitude: real) | Infinite(negative: bool) | Nan(payload: int)

  const ZERO: Real64 := Finite(false, 0.0)

  /** A length written as a float. */
  function Count(n: nat): Real64 { Finite(false, n as real) }

  /** The count a float spells, if it is a non-negative whole number; minus zero is zero. */
  function WholeOf(v: Real64): (n: Option<nat>)
    ensures n.Some? ==> v.Finite? && v.magnitude == n.value as real
  {
    if v.Finite? && v.magnitude >= 0.0 && (!v.negative || v.magnitude == 0.0) && v.magnitude.Floor as real == v.magnitude
    then Some(v.magnitude.Floor) else None
  }

  lemma CountIsWhole(n: nat)
    ensures WholeOf(Count(n)) == Some(n)
  {}

  datatype Xy = Xy(x: Real64, y: Real64)
  datatype Line = Line(proportional: Real64, constant: Real64)
  datatype Quadratic = Quadratic(quadratic: Real64, proportional: Real64, constant: Real64)
  /** `n` x-coordinates and the `n - 1` values between them; both lists empty together. */
  datatype Step = Step(x: seq<Real64>, y: seq<Real64>)

  datatype DecodedValues =
    | Raw
    | Tuples(rows: seq<seq<Real64>>)
    | Lines(lines: seq<Line>)
    | Quadratics(quadratics: seq<Quadratic>)
    | Curves(curves: seq<seq<Xy>>)
    | StepRows(steps: seq<Step>)

  datatype FloatArray = FloatArray(dtype: Dtype, shape: Shape, values: seq<Real64>) {
    predicate WellFormed() { |values| == Product(shape) }
  }

  // ---- rows of a flat array -------------------------------------------------------------

  /** Full rows of a flat array; a trailing partial row is dropped. */
  function Chunks<T>(flat: seq<T>, width: nat): (r: seq<seq<T>>)
    requires width > 0
    ensures |r| == |flat| / width && AllWide(r, width)
  {
    seq(|flat| / width, i requires 0 <= i < |flat| / width => ChunkAt(flat, width, i))
  }

  function ChunkAt<T>(flat: seq<T>, width: nat, i: nat): (r: seq<T>)
    requires width > 0 && i < |flat| / width
    ensures |r| == width
  {
    ChunkFits(|flat|, width, i);
    flat[i * width..i * width + width]
  }

  lemma ChunkFits(n: nat, width: nat, i: nat)
    requires width > 0 && i < n / width
    ensures 0 <= i * width && i * width + width <= n
  {
    MulMonotone(i + 1, n / width, width);
    Distribute(i, 1, width);
  }

  /** Chunking undoes laying rows end to end. */
  lemma ChunksOfFlat<T>(rows: seq<seq<T>>, width: nat)
    requires width > 0 && AllWide(rows, width)
    ensures Chunks(Flatten(rows), width) == rows
  {
    FlattenLength(rows, width);
    DivUnique(|rows| * width, width, |rows|);
    forall i | 0 <= i < |rows|
      ensures Chunks(Flatten(rows), width)[i] == rows[i]
    {
      FlattenAt(rows, width, i, i * width);
    }
  }

  // ---- packed rows ------------------------------------------------------------------------

  /** `n, x1, y1, ..., xn, yn`, zero-padded to `width`. */
  function PackCurve(points: seq<Xy>, width: nat): (r: seq<Real64>)
    ensures |r| == width
  {
    seq(width, i requires 0 <= i < width =>
      if i == 0 then Count(|points|)
      else if i > 2 * |points| then ZERO
      else if i % 2 == 1 then points[i / 2].x else points[i / 2 - 1].y)
  }

  function UnpackCurve(row: seq<Real64>): seq<Xy>
    requires row != [] && WholeOf(row[0]).Some? && 1 + 2 * WholeOf(row[0]).value <= |row|
  {
    seq(WholeOf(row[0]).value, k requires 0 <= k < WholeOf(row[0]).value => Xy(row[1 + 2 * k], row[2 + 2 * k]))
  }

  /** `n, x1..xn, y1..y(n-1)`, zero-padded to `width`. */
  function PackStep(s: Step, width: nat): (r: seq<Real64>)
    ensures |r| == width
  {
    seq(width, i requires 0 <= i < width =>
      if i == 0 then Count(|s.x|)
      else if i <= |s.x| then s.x[i - 1]
      else if i <= |s.x| + |s.y| then s.y[i - 1 - |s.x|] else ZERO)
  }

  function StepSpan(n: nat): nat { if n == 0 then 1 else 2 * n }

  function UnpackStep(row: seq<Real64>): Step
    requires row != [] && WholeOf(row[0]).Some? && StepSpan(WholeOf(row[0]).value) <= |row|
  {
    var n := WholeOf(row[0]).value;
    Step(row[1..1 + n], row[1 + n..if n == 0 then 1 else 2 * n])
  }

  predicate StepShaped(s: Step) {
    |s.y| == if s.x == [] then 0 else |s.x| - 1
  }

  lemma CurveRoundTrip(points: seq<Xy>, width: nat)
    requires 1 + 2 * |points| <= width
    ensures WholeOf(PackCurve(points, width)[0]) == Some(|points|)
    ensures UnpackCurve(PackCurve(points, width)) == points
  {
    CountIsWhole(|points|);
    var row := PackCurve(points, width);
    forall k | 0 <= k < |points|
      ensures UnpackCurve(row)[k] == points[k]
    {
      assert (1 + 2 * k) / 2 == k && (2 + 2 * k) / 2 - 1 == k;
    }
  }

  lemma StepRoundTrip(s: Step, width: nat)
    requires StepShaped(s) && StepSpan(|s.x|) <= width
    ensures WholeOf(PackStep(s, width)[0]) == Some(|s.x|)
    ensures UnpackStep(PackStep(s, width)) == s
  {
    CountIsWhole(|s.x|);
    var u := UnpackStep(PackStep(s, width));
    assert u.x == s.x && u.y == s.y;
  }

  function Widest<T>(rows: seq<T>, size: T -> nat): (m: nat)
    ensures forall i :: 0 <= i < |rows| ==> size(rows[i]) <= m
    ensures rows == [] ==> m == 0
    ensures rows != [] ==> exists i :: 0 <= i < |rows| && size(rows[i]) == m
  {
    if rows == [] then 0 else
      var last := size(rows[|rows| - 1]);
      var rest := Widest(rows[..|rows| - 1], size);
      assert rows != [] && last < rest ==> exists i :: 0 <= i < |rows| && size(rows[i]) == rest by {
        if last < rest {
          var i :| 0 <= i < |rows| - 1 && size(rows[..|rows| - 1][i]) == rest;
          assert size(rows[i]) == rest;
        }
      }
      if last < rest then rest else last
  }

  function CurveWidth(curves: seq<seq<Xy>>): nat {
    1 + 2 * Widest(curves, (c: seq<Xy>) => |c|)
  }

  function StepWidth(steps: seq<Step>): nat {
    var w := 2 * Widest(steps, (s: Step) => |s.x|);
    if w < 1 then 1 else w
  }

  function PackedCurves(curves: seq<seq<Xy>>, width: nat): seq<seq<Real64>> {
    seq(|curves|, i requires 0 <= i < |curves| => PackCurve(curves[i], width))
  }

  function PackedSteps(steps: seq<Step>, width: nat): seq<seq<Real64>> {
    seq(|steps|, i requires 0 <= i < |steps| => PackStep(steps[i], width))
  }

  // ---- validation and decoding ------------------------------------------------------------

  function FixedWidth(et: ElementType): Option<nat> {
    match et
    case Tuple(n, _) => Some(n)
    case LinearFunction => Some(2)
    case QuadraticFunction => Some(3)
    case _ => None
  }

  predicate IsRagged(et: ElementType) { et.PiecewiseLinear? || et.PiecewiseStep? }

  predicate ElementDimsOk(et: ElementType, dims: Shape) {
    if FixedWidth(et).Some? then dims == [FixedWidth(et).value]
    else if !IsRagged(et) then true
    else |dims| == 1 && dims[0] >= 1
         && (et.PiecewiseLinear? ==> dims[0] % 2 == 1)
         && (et.PiecewiseStep? ==> dims[0] == 1 || dims[0] % 2 == 0)
  }

  /** The slots a row with this count uses. */
  function Needed(et: ElementType, n: nat): nat {
    if et.PiecewiseLinear? then 2 * n + 1 else StepSpan(n)
  }

  predicate RowOk(et: ElementType, row: seq<Real64>) {
    row != [] && WholeOf(row[0]).Some? && Needed(et, WholeOf(row[0]).value) <= |row|
  }

  predicate RowsOk(et: ElementType, rows: seq<seq<Real64>>) {
    forall i :: 0 <= i < |rows| ==> RowOk(et, rows[i])
  }

  predicate ValidArray(et: ElementType, a: FloatArray, leading: nat) {
    && a.dtype == et.PhysicalDtype() && |a.shape| >= leading
    && ElementDimsOk(et, a.shape[leading..])
    && (IsRagged(et) ==> RowsOk(et, Chunks(a.values, a.shape[leading])))
  }

  /** What rows of a composite element type stand for. */
  function Unpacked(et: ElementType, rows: seq<seq<Real64>>): DecodedValues
    requires FixedWidth(et).Some? ==> AllWide(rows, FixedWidth(et).value)
    requires IsRagged(et) ==> RowsOk(et, rows)
  {
    match et
    case Scalar(_) => Raw
    case Tuple(_, _) => Tuples(rows)
    case LinearFunction => Lines(seq(|rows|, i requires 0 <= i < |rows| => Line(rows[i][0], rows[i][1])))
    case QuadraticFunction => Quadratics(seq(|rows|, i requires 0 <= i < |rows| => Quadratic(rows[i][0], rows[i][1], rows[i][2])))
    case PiecewiseLinear => Curves(seq(|rows|, i requires 0 <= i < |rows| => UnpackCurve(rows[i])))
    case PiecewiseStep => StepRows(seq(|rows|, i requires 0 <= i < |rows| => UnpackStep(rows[i])))
  }

  function Decode(a: FloatArray, et: ElementType, leading: nat): Result<DecodedValues> {
    if !ValidArray(et, a, leading) then Err(InvalidParameter)
    else if !a.dtype.F64? || et.Scalar? then Ok(Raw)
    else
      var width := if FixedWidth(et).Some? then FixedWidth(et).value else a.shape[leading];
      if width == 0 then Err(InvalidParameter)
      else Ok(Unpacked(et, Chunks(a.values, width)))
  }

  // ---- encoding -----------------------------------------------------------------------------

  predicate AllStepShaped(steps: seq<Step>) {
    forall i :: 0 <= i < |steps| ==> StepShaped(steps[i])
  }

  datatype PackedRows = PackedRows(width: nat, rows: seq<seq<Real64>>)

  /** The packed rows of some values, and their common width. */
  function Packed(values: DecodedValues): (r: Result<PackedRows>)
    ensures r.Ok? ==> r.value.width > 0 && AllWide(r.value.rows, r.value.width)
  {
    match values
    case Raw => Err(InvalidParameter)
    case Tuples(rows) =>
      var width := if rows == [] then 0 else |rows[0]|;
      if width == 0 || !AllWide(rows, width) then Err(InvalidParameter) else Ok(PackedRows(width, rows))
    case Lines(lines) =>
      Ok(PackedRows(2, seq(|lines|, i requires 0 <= i < |lines| => [lines[i].proportional, lines[i].constant])))
    case Quadratics(qs) =>
      Ok(PackedRows(3, seq(|qs|, i requires 0 <= i < |qs| => [qs[i].quadratic, qs[i].proportional, qs[i].constant])))
    case Curves(curves) => Ok(PackedRows(CurveWidth(curves), PackedCurves(curves, CurveWidth(curves))))
    case StepRows(steps) =>
      if AllStepShaped(steps) then Ok(PackedRows(StepWidth(steps), PackedSteps(steps, StepWidth(steps))))
      else Err(InvalidParameter)
  }

  /** What encoding yields: the packed rows end to end, if they fill the leading dims. */
  function Encoded(values: DecodedValues, leadingDims: Shape): Result<FloatArray> {
    var packed :- Packed(values);
    if |packed.rows| != Product(leadingDims) then Err(InvalidParameter)
    else Ok(FloatArray(F64, leadingDims + [packed.width], Flatten(packed.rows)))
  }

  predicate Zeroed(s: seq<Real64>) {
    forall i :: 0 <= i < |s| ==> s[i] == ZERO
  }

  /** Write one curve into its zeroed row. */
  method WriteCurve(flat: array<Real64>, base: nat, points: seq<Xy>, width: nat)
    requires base + width <= flat.Length && 1 + 2 * |points| <= width
    requires forall i :: base <= i < base + width ==> flat[i] == ZERO
    modifies flat
    ensures flat[base..base + width] == PackCurve(points, width)
    ensures flat[..base] == old(flat[..base]) && flat[base + width..] == old(flat[base + width..])
  {
    ghost var want := PackCurve(points, width);
    flat[base] := Count(|points|);
    var k := 0;
    while k < |points|
      invariant 0 <= k <= |points|
      invariant forall i :: base <= i < base + 1 + 2 * k ==> flat[i] == want[i - base]
      invariant forall i :: base + 1 + 2 * k <= i < base + width ==> flat[i] == ZERO
      invariant flat[..base] == old(flat[..base]) && flat[base + width..] == old(flat[base + width..])
    {
      PointInRow(points, width, k);
      flat[base + 1 + 2 * k] := points[k].x;
      flat[base + 2 + 2 * k] := points[k].y;
      k := k + 1;
    }
    forall i | 0 <= i < width
      ensures flat[base..base + width][i] == want[i]
    {
      assert flat[base + i] == want[base + i - base];
    }
  }

  lemma PointInRow(points: seq<Xy>, width: nat, k: nat)
    requires k < |points| && 1 + 2 * |points| <= width
    ensures PackCurve(points, width)[1 + 2 * k] == points[k].x && PackCurve(points, width)[2 + 2 * k] == points[k].y
  {
    assert (1 + 2 * k) / 2 == k && (2 + 2 * k) / 2 - 1 == k;
  }

  method WriteStep(flat: array<Real64>, base: nat, s: Step, width: nat)
    requires base + width <= flat.Length && StepShaped(s) && StepSpan(|s.x|) <= width
    requires forall i :: base <= i < base + width ==> flat[i] == ZERO
    modifies flat
    ensures flat[base..base + width] == PackStep(s, width)
    ensures flat[..base] == old(flat[..base]) && flat[base + width..] == old(flat[base + width..])
  {
    ghost var want := PackStep(s, width);
    flat[base] := Count(|s.x|);
    forall i | base + 1 <= i < base + 1 + |s.x| {
      flat[i] := s.x[i - base - 1];
    }
    forall i | base + 1 + |s.x| <= i < base + 1 + |s.x| + |s.y| {
      flat[i] := s.y[i - base - 1 - |s.x|];
    }
    forall i | 0 <= i < width
      ensures flat[base..base + width][i] == want[i]
    {
      assert flat[base + i] == want[i];
    }
  }

  /** The loop state: `row` rows written, the rest still zero. */
  predicate Written(flat: seq<Real64>, packed: seq<seq<Real64>>, width: nat, row: nat)
  {
    && row <= |packed| && |flat| == |packed| * width && 0 <= row * width <= |flat|
    && flat[..row * width] == Flatten(packed[..row])
    && Zeroed(flat[row * width..])
  }

  lemma RowRoom(flat: seq<Real64>, packed: seq<seq<Real64>>, width: nat, row: nat)
    requires Written(flat, packed, width, row) && row < |packed|
    ensures 0 <= row * width <= row * width + width <= |flat| && row * width + width == (row + 1) * width
    ensures forall i :: row * width <= i < row * width + width ==> flat[i] == ZERO
  {
    MulMonotone(row + 1, |packed|, width);
    Distribute(row, 1, width);
    forall i | row * width <= i < row * width + width
      ensures flat[i] == ZERO
    {
      assert flat[row * width..][i - row * width] == flat[i];
    }
  }

  lemma NextRow(flat: seq<Real64>, after: seq<Real64>, packed: seq<seq<Real64>>, width: nat, row: nat, base: nat)
    requires Written(flat, packed, width, row) && row < |packed|
    requires |after| == |flat| && base == row * width && base + width == (row + 1) * width && base + width <= |flat|
    requires after[..base] == flat[..base] && after[base..base + width] == packed[row]
    requires after[base + width..] == flat[base + width..]
    ensures Written(after, packed, width, row + 1)
  {
    assert packed[..row + 1] == packed[..row] + [packed[row]];
    FlattenPush(packed[..row], packed[row]);
    assert after[..base + width] == after[..base] + after[base..base + width];
    assert flat[base + width..] == flat[base..][width..];
  }

  lemma AllWritten(flat: seq<Real64>, packed: seq<seq<Real64>>, width: nat)
    requires Written(flat, packed, width, |packed|)
    ensures flat == Flatten(packed)
  {
    assert packed[..|packed|] == packed;
    assert flat[..|packed| * width] == flat;
  }

  method EncodeCurves(curves: seq<seq<Xy>>) returns (width: nat, flat: seq<Real64>)
    ensures width == CurveWidth(curves) && flat == Flatten(PackedCurves(curves, width))
  {
    width := CurveWidth(curves);
    assert forall i :: 0 <= i < |curves| ==> 1 + 2 * |curves[i]| <= width;
    flat := FillCurves(curves, width);
  }

  /** Fill a zeroed buffer one row at a time. */
  method FillCurves(curves: seq<seq<Xy>>, width: nat) returns (flat: seq<Real64>)
    requires forall i :: 0 <= i < |curves| ==> 1 + 2 * |curves[i]| <= width
    ensures flat == Flatten(PackedCurves(curves, width))
  {
    ghost var packed := PackedCurves(curves, width);
    var buffer := new Real64[|curves| * width](_ => ZERO);
    var row := 0;
    while row < |curves|
      invariant 0 <= row <= |curves| && Written(buffer[..], packed, width, row)
    {
      ghost var before := buffer[..];
      RowRoom(before, packed, width, row);
      WriteCurve(buffer, row * width, curves[row], width);
      NextRow(before, buffer[..], packed, width, row, row * width);
      row := row + 1;
    }
    flat := buffer[..];
    AllWritten(flat, packed, width);
  }

  method FillSteps(steps: seq<Step>, width: nat) returns (flat: seq<Real64>)
    requires AllStepShaped(steps) && forall i :: 0 <= i < |steps| ==> StepSpan(|steps[i].x|) <= width
    ensures flat == Flatten(PackedSteps(steps, width))
  {
    ghost var packed := PackedSteps(steps, width);
    var buffer := new Real64[|steps| * width](_ => ZERO);
    var row := 0;
    while row < |steps|
      invariant 0 <= row <= |steps| && Written(buffer[..], packed, width, row)
    {
      ghost var before := buffer[..];
      RowRoom(before, packed, width, row);
      WriteStep(buffer, row * width, steps[row], width);
      NextRow(before, buffer[..], packed, width, row, row * width);
      row := row + 1;
    }
    flat := buffer[..];
    AllWritten(flat, packed, width);
  }

  method EncodeSteps(steps: seq<Step>) returns (r: Result<PackedFlat>)
    ensures r == if AllStepShaped(steps) then Ok(PackedFlat(StepWidth(steps), Flatten(PackedSteps(steps, StepWidth(steps)))))
                 else Err(InvalidParameter)
  {
    var i := 0;
    while i < |steps|
      invariant 0 <= i <= |steps| && forall k :: 0 <= k < i ==> StepShaped(steps[k])
    {
      if |steps[i].y| != (if |steps[i].x| == 0 then 0 else |steps[i].x| - 1) {
        return Err(InvalidParameter);
      }
      i := i + 1;
    }
    var width := StepWidth(steps);
    assert forall i :: 0 <= i < |steps| ==> StepSpan(|steps[i].x|) <= width;
    var flat := FillSteps(steps, width);
    return Ok(PackedFlat(width, flat));
  }

  datatype PackedFlat = PackedFlat(width: nat, flat: seq<Real64>)

  /** Encode values under leading dims; the ragged kinds fill a buffer row by row. */
  method Encode(values: DecodedValues, leadingDims: Shape) returns (r: Result<FloatArray>)
    ensures r == Encoded(values, leadingDims)
  {
    var width: nat, flat: seq<Real64>;
    match values {
      case Curves(curves) =>
        width, flat := EncodeCurves(curves);
      case StepRows(steps) =>
        var packed :- EncodeSteps(steps);
        width, flat := packed.width, packed.flat;
      case _ =>
        return Encoded(values, leadingDims);
    }
    ghost var rows := Packed(values).value.rows;
    FlattenLength(rows, width);
    DivUnique(|rows| * width, width, |rows|);
    if |flat| / width != Product(leadingDims) {
      return Err(InvalidParameter);
    }
    return Ok(FloatArray(F64, leadingDims + [width], flat));
  }

  /** Encode under a declared element type: an empty tuple series takes its arity from the
      declaration, and the result is checked against it. */
  function EncodedAs(values: DecodedValues, leadingDims: Shape, et: ElementType): Result<FloatArray> {
    var a :- if values.Tuples? && et.Tuple? && values.rows == [] then
               if Product(leadingDims) != 0 then Err(InvalidParameter)
               else Ok(FloatArray(F64, leadingDims + [et.arity], []))
             else Encoded(values, leadingDims);
    if ValidArray(et, a, |leadingDims|) then Ok(a) else Err(InvalidParameter)
  }

  // ---- round trips --------------------------------------------------------------------------

  /** Values a series of this element type and these leading dims can hold. */
  predicate Suits(values: DecodedValues, leadingDims: Shape, et: ElementType) {
    match et
    case Tuple(n, d) => n > 0 && d.F64? && values.Tuples? && |values.rows| == Product(leadingDims) && AllWide(values.rows, n)
    case LinearFunction => values.Lines? && |values.lines| == Product(leadingDims)
    case QuadraticFunction => values.Quadratics? && |values.quadratics| == Product(leadingDims)
    case PiecewiseLinear => values.Curves? && |values.curves| == Product(leadingDims)
    case PiecewiseStep => values.StepRows? && |values.steps| == Product(leadingDims) && AllStepShaped(values.steps)
    case Scalar(_) => false
  }

  lemma PackedCurvesUnpack(curves: seq<seq<Xy>>, width: nat)
    requires forall i :: 0 <= i < |curves| ==> 1 + 2 * |curves[i]| <= width
    ensures RowsOk(PiecewiseLinear, PackedCurves(curves, width))
    ensures Unpacked(PiecewiseLinear, PackedCurves(curves, width)) == Curves(curves)
  {
    var rows := PackedCurves(curves, width);
    forall i | 0 <= i < |rows|
      ensures RowOk(PiecewiseLinear, rows[i]) && UnpackCurve(rows[i]) == curves[i]
    {
      CurveRoundTrip(curves[i], width);
    }
    assert Unpacked(PiecewiseLinear, rows).curves == curves;
  }

  lemma PackedStepsUnpack(steps: seq<Step>, width: nat)
    requires AllStepShaped(steps) && forall i :: 0 <= i < |steps| ==> StepSpan(|steps[i].x|) <= width
    ensures RowsOk(PiecewiseStep, PackedSteps(steps, width))
    ensures Unpacked(PiecewiseStep, PackedSteps(steps, width)) == StepRows(steps)
  {
    var rows := PackedSteps(steps, width);
    forall i | 0 <= i < |rows|
      ensures RowOk(PiecewiseStep, rows[i]) && UnpackStep(rows[i]) == steps[i]
    {
      StepRoundTrip(steps[i], width);
    }
    assert Unpacked(PiecewiseStep, rows).steps == steps;
  }

  lemma PackedFixedUnpack(values: DecodedValues, leadingDims: Shape, et: ElementType)
    requires Suits(values, leadingDims, et) && Packed(values).Ok? && !IsRagged(et)
    ensures |Packed(values).value.rows| == Product(leadingDims)
    ensures FixedWidth(et) == Some(Packed(values).value.width)
    ensures Unpacked(et, Packed(values).value.rows) == values
  {
    var rows := Packed(values).value.rows;
    if et.LinearFunction? {
      assert Unpacked(et, rows).lines == values.lines;
    } else if et.QuadraticFunction? {
      assert Unpacked(et, rows).quadratics == values.quadratics;
    }
  }

  /** The packed rows validate, and unpack to what was packed. */
  lemma PackedUnpacks(values: DecodedValues, leadingDims: Shape, et: ElementType)
    requires Suits(values, leadingDims, et) && Packed(values).Ok?
    ensures |Packed(values).value.rows| == Product(leadingDims)
    ensures ElementDimsOk(et, [Packed(values).value.width])
    ensures FixedWidth(et).Some? ==> Packed(values).value.width == FixedWidth(et).value
    ensures IsRagged(et) ==> RowsOk(et, Packed(values).value.rows)
    ensures Unpacked(et, Packed(values).value.rows) == values
  {
    if et.PiecewiseLinear? {
      PackedLinearUnpacks(values, leadingDims);
    } else if et.PiecewiseStep? {
      PackedStepUnpacks(values, leadingDims);
    } else {
      PackedFixedUnpack(values, leadingDims, et);
    }
  }

  lemma PackedLinearUnpacks(values: DecodedValues, leadingDims: Shape)
    requires Suits(values, leadingDims, PiecewiseLinear) && Packed(values).Ok?
    ensures |Packed(values).value.rows| == Product(leadingDims)
    ensures ElementDimsOk(PiecewiseLinear, [Packed(values).value.width])
    ensures RowsOk(PiecewiseLinear, Packed(values).value.rows)
    ensures Unpacked(PiecewiseLinear, Packed(values).value.rows) == values
  {
    PackedCurvesUnpack(values.curves, CurveWidth(values.curves));
  }

  lemma PackedStepUnpacks(values: DecodedValues, leadingDims: Shape)
    requires Suits(values, leadingDims, PiecewiseStep) && Packed(values).Ok?
    ensures |Packed(values).value.rows| == Product(leadingDims)
    ensures ElementDimsOk(PiecewiseStep, [Packed(values).value.width])
    ensures RowsOk(PiecewiseStep, Packed(values).value.rows)
    ensures Unpacked(PiecewiseStep, Packed(values).value.rows) == values
  {
    PackedStepsUnpack(values.steps, StepWidth(values.steps));
  }

  /** Chunking an encoded array gives its packed rows. */
  lemma EncodedRows(values: DecodedValues, leadingDims: Shape)
    requires Encoded(values, leadingDims).Ok?
    ensures var a, p := Encoded(values, leadingDims).value, Packed(values).value;
            a.dtype.F64? && a.shape == leadingDims + [p.width] && a.shape[|leadingDims|..] == [p.width]
            && Chunks(a.values, p.width) == p.rows
  {
    var p := Packed(values).value;
    ChunksOfFlat(p.rows, p.width);
    assert (leadingDims + [p.width])[|leadingDims|..] == [p.width];
  }

  /** Decoding what was encoded gives the values back: every kind, every width, ragged rows,
      empty rows and zero-row series alike. */
  lemma RoundTrip(values: DecodedValues, leadingDims: Shape, et: ElementType)
    requires Suits(values, leadingDims, et)
    ensures EncodedAs(values, leadingDims, et).Ok?
    ensures Decode(EncodedAs(values, leadingDims, et).value, et, |leadingDims|) == Ok(values)
  {
    if values.Tuples? && values.rows == [] {
      EmptyRoundTrip(values, leadingDims, et);
    } else {
      PackedRoundTrip(values, leadingDims, et);
    }
  }

  /** No rows at all: the arity comes from the declaration. */
  lemma EmptyRoundTrip(values: DecodedValues, leadingDims: Shape, et: ElementType)
    requires Suits(values, leadingDims, et) && values.Tuples? && values.rows == []
    ensures EncodedAs(values, leadingDims, et).Ok?
    ensures Decode(EncodedAs(values, leadingDims, et).value, et, |leadingDims|) == Ok(values)
  {
    assert (leadingDims + [et.arity])[|leadingDims|..] == [et.arity];
  }

  lemma PackedRoundTrip(values: DecodedValues, leadingDims: Shape, et: ElementType)
    requires Suits(values, leadingDims, et) && !(values.Tuples? && values.rows == [])
    ensures EncodedAs(values, leadingDims, et).Ok?
    ensures Decode(EncodedAs(values, leadingDims, et).value, et, |leadingDims|) == Ok(values)
  {
    PackedUnpacks(values, leadingDims, et);
    EncodedRows(values, leadingDims);
  }

  /** The rows of a valid ragged array, and what they decode to. */
  lemma RaggedParts(a: FloatArray, et: ElementType, leading: nat)
    requires a.WellFormed() && IsRagged(et) && Decode(a, et, leading).Ok?
    ensures |a.shape| == leading + 1 && a.shape[leading] > 0
    ensures |Chunks(a.values, a.shape[leading])| == Product(a.shape[..leading])
    ensures RowsOk(et, Chunks(a.values, a.shape[leading]))
    ensures Decode(a, et, leading) == Ok(Unpacked(et, Chunks(a.values, a.shape[leading])))
    ensures ElementDimsOk(et, [a.shape[leading]])
  {
    var dims, width := a.shape[..leading], a.shape[leading];
    assert a.shape[leading..] == [width];
    assert a.shape == dims + [width];
    ProductConcat(dims, [width]);
    ProductOne(width);
    DivUnique(Product(dims) * width, width, Product(dims));
  }

  /** What a valid ragged array decodes to can be encoded again, in no greater width. */
  lemma ReencodingNarrows(a: FloatArray, et: ElementType, leading: nat)
    requires a.WellFormed() && IsRagged(et) && Decode(a, et, leading).Ok?
    ensures |a.shape| == leading + 1 && Suits(Decode(a, et, leading).value, a.shape[..leading], et)
    ensures var again := EncodedAs(Decode(a, et, leading).value, a.shape[..leading], et);
            again.Ok? && again.value.shape[..leading] == a.shape[..leading]
            && |again.value.shape| == leading + 1 && again.value.shape[leading] <= a.shape[leading]
            && Decode(again.value, et, leading) == Decode(a, et, leading)
  {
    RaggedParts(a, et, leading);
    var dims := a.shape[..leading];
    var values := Decode(a, et, leading).value;
    RaggedWidth(et, Chunks(a.values, a.shape[leading]), a.shape[leading]);
    RoundTrip(values, dims, et);
    EncodedRows(values, dims);
  }

  /** Decoded rows keep the shape rules, and fit back into the width they came from. */
  lemma RaggedWidth(et: ElementType, rows: seq<seq<Real64>>, width: nat)
    requires IsRagged(et) && RowsOk(et, rows) && AllWide(rows, width) && width > 0
    ensures et.PiecewiseStep? ==> AllStepShaped(Unpacked(et, rows).steps)
    ensures Packed(Unpacked(et, rows)).Ok? && Packed(Unpacked(et, rows)).value.width <= width
  {
    var values := Unpacked(et, rows);
    forall i | 0 <= i < |rows|
      ensures Needed(et, WholeOf(rows[i][0]).value) <= width
      ensures et.PiecewiseLinear? ==> 1 + 2 * |values.curves[i]| <= width
      ensures et.PiecewiseStep? ==> StepShaped(values.steps[i]) && 2 * |values.steps[i].x| <= width
    {
      assert RowOk(et, rows[i]);
    }
  }
}
