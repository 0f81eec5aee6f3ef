/** Re-ordering a timestamped forecast CSV into the stored array's layout
    (crates/infrastore-cli/src/descriptor.rs, forecast_values_from_rows). */
module ForecastCsv {
  import opened Wrappers
  import opened Arrays
  import opened Cuts

  /** The axes of a forecast: series, horizon steps, windows, values per step. */
  datatype Dims = Dims(series: nat, horizon: nat, count: nat, element: nat) {
    function Rows(): nat { count * horizon }
    function Width(): nat { series * element }
    function Size(): nat { Rows() * Width() }
  }

  datatype Coord = Coord(s: nat, h: nat, c: nat, j: nat)

  predicate Inside(d: Dims, p: Coord) {
    p.s < d.series && p.h < d.horizon && p.c < d.count && p.j < d.element
  }

  /** Where a coordinate sits in the stored array `[series, horizon, count, element]`. */
  function StoredAt(d: Dims, p: Coord): nat {
    ((p.s * d.horizon + p.h) * d.count + p.c) * d.element + p.j
  }

  /** Where it sits in the CSV: row `(window, step)`, column `(series, element)`. */
  function CsvAt(d: Dims, p: Coord): nat {
    (p.c * d.horizon + p.h) * (d.series * d.element) + (p.s * d.element + p.j)
  }

  /** The coordinate of CSV row `r`, column `k`. */
  function CoordOfCell(d: Dims, r: nat, k: nat): Coord
    requires d.horizon > 0 && d.element > 0
  {
    Coord(k / d.element, r % d.horizon, r / d.horizon, k % d.element)
  }

  /** The coordinate stored at position `i`. */
  function CoordOfStored(d: Dims, i: nat): Coord
    requires d.horizon > 0 && d.count > 0 && d.element > 0
  {
    var outer := i / d.element / d.count;
    Coord(outer / d.horizon, outer % d.horizon, i / d.element % d.count, i % d.element)
  }

  /** A mixed-radix pair stays below the product of its radices. */
  lemma PairBelow(a: nat, n: nat, b: nat, m: nat)
    requires a < n && b < m
    ensures 0 <= a * m && a * m + b < n * m
  {
    MulMonotone(a + 1, n, m);
    Distribute(a, 1, m);
  }

  lemma PairSplits(a: nat, b: nat, m: nat)
    requires b < m
    ensures (a * m + b) / m == a && (a * m + b) % m == b
  {
    DivUnique(a * m + b, m, a);
  }

  lemma QuotientBelow(x: nat, n: nat, m: nat)
    requires m > 0 && x < n * m
    ensures x / m < n && x == (x / m) * m + x % m
  {
    if x / m >= n {
      MulMonotone(n, x / m, m);
    }
  }

  lemma StoredSize(d: Dims)
    ensures d.Size() == ((d.series * d.horizon) * d.count) * d.element
  {
    var s, h, c, e := d.series, d.horizon, d.count, d.element;
    MulAssoc(c * h, s, e);
    assert c * h * s == s * h * c by {
      MulAssoc(c, h, s);
      assert h * s == s * h;
      assert c * (s * h) == s * h * c;
    }
  }

  /** The stored position decodes back to its coordinate, and is inside the array. */
  lemma StoredDecodes(d: Dims, p: Coord)
    requires Inside(d, p)
    ensures StoredAt(d, p) < d.Size() && CoordOfStored(d, StoredAt(d, p)) == p
  {
    var outer := p.s * d.horizon + p.h;
    PairBelow(p.s, d.series, p.h, d.horizon);
    PairBelow(outer, d.series * d.horizon, p.c, d.count);
    PairBelow(outer * d.count + p.c, d.series * d.horizon * d.count, p.j, d.element);
    StoredSize(d);
    PairSplits(outer * d.count + p.c, p.j, d.element);
    PairSplits(outer, p.c, d.count);
    PairSplits(p.s, p.h, d.horizon);
  }

  /** Every stored position is some coordinate's. */
  lemma StoredCovered(d: Dims, i: nat)
    requires i < d.Size()
    ensures d.horizon > 0 && d.count > 0 && d.element > 0
    ensures Inside(d, CoordOfStored(d, i)) && StoredAt(d, CoordOfStored(d, i)) == i
  {
    StoredSize(d);
    QuotientBelow(i, d.series * d.horizon * d.count, d.element);
    QuotientBelow(i / d.element, d.series * d.horizon, d.count);
    QuotientBelow(i / d.element / d.count, d.series, d.horizon);
  }

  /** A CSV cell's coordinate is inside, and is read back from the cell's own place. */
  lemma CellDecodes(d: Dims, r: nat, k: nat)
    requires r < d.Rows() && k < d.Width()
    ensures d.horizon > 0 && d.element > 0
    ensures Inside(d, CoordOfCell(d, r, k)) && CsvAt(d, CoordOfCell(d, r, k)) == r * d.Width() + k
    ensures r * d.Width() + k < d.Size()
  {
    QuotientBelow(r, d.count, d.horizon);
    QuotientBelow(k, d.series, d.element);
    PairBelow(r, d.Rows(), k, d.Width());
  }

  lemma CellOfCoord(d: Dims, p: Coord)
    requires Inside(d, p)
    ensures p.c * d.horizon + p.h < d.Rows() && p.s * d.element + p.j < d.Width()
    ensures CoordOfCell(d, p.c * d.horizon + p.h, p.s * d.element + p.j) == p
    ensures CsvAt(d, p) < d.Size()
  {
    PairBelow(p.c, d.count, p.h, d.horizon);
    PairBelow(p.s, d.series, p.j, d.element);
    PairSplits(p.c, p.h, d.horizon);
    PairSplits(p.s, p.j, d.element);
    PairBelow(p.c * d.horizon + p.h, d.Rows(), p.s * d.element + p.j, d.Width());
  }

  /** The stored order as a gather from the CSV: each position asks where its value is. */
  function Transposed<T>(d: Dims, csv: seq<T>): (r: seq<T>)
    requires |csv| == d.Size()
    ensures |r| == d.Size()
  {
    seq(d.Size(), i requires 0 <= i < d.Size() =>
      StoredCovered(d, i);
      CellOfCoord(d, CoordOfStored(d, i));
      csv[CsvAt(d, CoordOfStored(d, i))])
  }

  /** What the transpose means, coordinate by coordinate. */
  lemma TransposedAt<T>(d: Dims, csv: seq<T>, p: Coord)
    requires |csv| == d.Size() && Inside(d, p)
    ensures StoredAt(d, p) < d.Size() && CsvAt(d, p) < |csv|
    ensures Transposed(d, csv)[StoredAt(d, p)] == csv[CsvAt(d, p)]
  {
    StoredDecodes(d, p);
    CellOfCoord(d, p);
  }

  datatype CsvData<T> = CsvData(rows: nat, rowWidth: nat, values: seq<T>)

  /** Cells written so far by the scatter loop: rows before `r`, and columns before `k` of row `r`. */
  ghost predicate Scattered<T>(d: Dims, csv: seq<T>, out: seq<T>, r: nat, k: nat)
    requires |csv| == |out| == d.Size()
  {
    forall p: Coord {:trigger StoredAt(d, p)} :: Inside(d, p) && Before(d, p, r, k) ==>
      StoredAt(d, p) < |out| && CsvAt(d, p) < |csv| && out[StoredAt(d, p)] == csv[CsvAt(d, p)]
  }

  predicate Before(d: Dims, p: Coord, r: nat, k: nat) {
    var row := p.c * d.horizon + p.h;
    row < r || (row == r && p.s * d.element + p.j < k)
  }

  /** Writing one more cell never overwrites an earlier one. */
  lemma ScatterOne<T>(d: Dims, csv: seq<T>, out: seq<T>, r: nat, k: nat, dst: nat, src: nat)
    requires |csv| == |out| == d.Size() && Scattered(d, csv, out, r, k)
    requires r < d.Rows() && k < d.Width() && d.horizon > 0 && d.element > 0
    requires dst == StoredAt(d, CoordOfCell(d, r, k)) && src == r * d.Width() + k
    ensures src < |csv| && dst < |out| && Scattered(d, csv, out[dst := csv[src]], r, k + 1)
  {
    CellDecodes(d, r, k);
    StoredDecodes(d, CoordOfCell(d, r, k));
    var next := out[dst := csv[src]];
    forall p: Coord | Inside(d, p) && Before(d, p, r, k + 1)
      ensures StoredAt(d, p) < |next| && CsvAt(d, p) < |csv| && next[StoredAt(d, p)] == csv[CsvAt(d, p)]
    {
      StoredDecodes(d, p);
      CellOfCoord(d, p);
    }
  }

  lemma AllScattered<T>(d: Dims, csv: seq<T>, out: seq<T>)
    requires |csv| == |out| == d.Size() && Scattered(d, csv, out, d.Rows(), 0)
    ensures out == Transposed(d, csv)
  {
    forall i | 0 <= i < d.Size()
      ensures out[i] == Transposed(d, csv)[i]
    {
      StoredCovered(d, i);
      var p := CoordOfStored(d, i);
      CellOfCoord(d, p);
      TransposedAt(d, csv, p);
      assert StoredAt(d, p) == i;
    }
  }

  /** Scatter every CSV cell to its stored position. */
  method ForecastValuesFromRows<T(0,==)>(csv: CsvData<T>, d: Dims, blank: T) returns (r: Result<seq<T>>)
    requires |csv.values| == csv.rows * csv.rowWidth
    ensures r.Ok? <==> csv.rows == d.Rows() && csv.rowWidth == d.Width()
    ensures r.Ok? ==> r.value == Transposed(d, csv.values)
  {
    var expectedRows := d.count * d.horizon;
    var expectedWidth := d.series * d.element;
    if csv.rows != expectedRows || csv.rowWidth != expectedWidth {
      return Err(InvalidParameter);
    }
    var out := new T[expectedRows * expectedWidth](_ => blank);
    var row := 0;
    while row < expectedRows
      invariant 0 <= row <= expectedRows && out.Length == d.Size()
      invariant Scattered(d, csv.values, out[..], row, 0)
    {
      ScatterRow(csv.values, d, out, row);
      row := row + 1;
    }
    AllScattered(d, csv.values, out[..]);
    return Ok(out[..]);
  }

  /** The cells of one row, each to its stored position. */
  method ScatterRow<T>(csv: seq<T>, d: Dims, out: array<T>, row: nat)
    requires |csv| == out.Length == d.Size() && row < d.Rows() && Scattered(d, csv, out[..], row, 0)
    modifies out
    ensures Scattered(d, csv, out[..], row + 1, 0)
  {
    var width := d.series * d.element;
    var k := 0;
    while k < width
      invariant 0 <= k <= width && out.Length == d.Size()
      invariant Scattered(d, csv, out[..], row, k)
    {
      ScatterCell(csv, d, out, row, k);
      k := k + 1;
    }
    RowDone(d, csv, out[..], row);
  }

  method ScatterCell<T>(csv: seq<T>, d: Dims, out: array<T>, row: nat, k: nat)
    requires |csv| == out.Length == d.Size() && row < d.Rows() && k < d.Width() && Scattered(d, csv, out[..], row, k)
    modifies out
    ensures Scattered(d, csv, out[..], row, k + 1)
  {
    CellDecodes(d, row, k);
    var dst, src := StoredAt(d, CoordOfCell(d, row, k)), row * d.Width() + k;
    ScatterOne(d, csv, out[..], row, k, dst, src);
    out[dst] := csv[src];
  }

  lemma RowDone<T>(d: Dims, csv: seq<T>, out: seq<T>, r: nat)
    requires |csv| == |out| == d.Size() && Scattered(d, csv, out, r, d.Width())
    ensures Scattered(d, csv, out, r + 1, 0)
  {
    forall p: Coord | Inside(d, p) && Before(d, p, r + 1, 0)
      ensures Before(d, p, r, d.Width())
    {
      CellOfCoord(d, p);
    }
  }

  /** The transpose is a bijection: it can be undone, so no cell is lost or repeated. */
  function Untransposed<T>(d: Dims, stored: seq<T>): (r: seq<T>)
    requires |stored| == d.Size()
    ensures |r| == d.Size()
  {
    seq(d.Size(), i requires 0 <= i < d.Size() =>
      CsvCovered(d, i);
      var p := CoordOfCell(d, i / d.Width(), i % d.Width());
      StoredDecodes(d, p);
      stored[StoredAt(d, p)])
  }

  lemma CsvCovered(d: Dims, i: nat)
    requires i < d.Size()
    ensures d.Width() > 0 && d.horizon > 0 && d.element > 0
    ensures Inside(d, CoordOfCell(d, i / d.Width(), i % d.Width()))
    ensures CsvAt(d, CoordOfCell(d, i / d.Width(), i % d.Width())) == i
  {
    QuotientBelow(i, d.Rows(), d.Width());
    CellDecodes(d, i / d.Width(), i % d.Width());
  }

  lemma TransposeInverts<T>(d: Dims, csv: seq<T>)
    requires |csv| == d.Size()
    ensures Untransposed(d, Transposed(d, csv)) == csv
    ensures Transposed(d, Untransposed(d, csv)) == csv
  {
    forall i | 0 <= i < d.Size()
      ensures Untransposed(d, Transposed(d, csv))[i] == csv[i]
    {
      CsvCovered(d, i);
      TransposedAt(d, csv, CoordOfCell(d, i / d.Width(), i % d.Width()));
    }
    forall i | 0 <= i < d.Size()
      ensures Transposed(d, Untransposed(d, csv))[i] == csv[i]
    {
      StoredCovered(d, i);
      var p := CoordOfStored(d, i);
      CellOfCoord(d, p);
      PairSplits(p.c * d.horizon + p.h, p.s * d.element + p.j, d.Width());
    }
  }

  datatype CsvLayout = Values | Timestamped | ForecastTimestamped

  /** A value-only file is already in array order; only the timestamped layout is transposed. */
  method ForecastValues<T(0,==)>(csv: CsvData<T>, layout: CsvLayout, d: Dims, blank: T) returns (r: Result<seq<T>>)
    requires |csv.values| == csv.rows * csv.rowWidth
    ensures !layout.ForecastTimestamped? ==> r == Ok(csv.values)
    ensures layout.ForecastTimestamped? ==> (r.Ok? <==> csv.rows == d.Rows() && csv.rowWidth == d.Width())
    ensures layout.ForecastTimestamped? && r.Ok? ==> r.value == Transposed(d, csv.values)
  {
    match layout
    case ForecastTimestamped => r := ForecastValuesFromRows(csv, d, blank);
    case _ => return Ok(csv.values);
  }

  // ---- the stored forecast, read back window by window ---------------------------------

  /** The values of window `c` in the per-window order `[series, horizon, element]`. */
  function WindowValues<T>(d: Dims, stored: seq<T>, c: nat): (r: seq<T>)
    requires |stored| == d.Size() && c < d.count
    ensures |r| == (d.series * d.horizon) * d.element
  {
    StoredSize(d);
    MulAssoc(d.series * d.horizon, d.count, d.element);
    StepsFit(d.count, c, 1, d.element);
    Cut(stored, d.series * d.horizon, d.count * d.element, c * d.element, d.element)
  }

  /** Window `c` of the stored order holds exactly the CSV rows of window `c`, each series' columns
      gathered together. */
  lemma WindowIsCsvWindow<T>(d: Dims, csv: seq<T>, p: Coord)
    requires |csv| == d.Size() && Inside(d, p)
    ensures 0 <= (p.s * d.horizon + p.h) * d.element + p.j < |WindowValues(d, Transposed(d, csv), p.c)|
    ensures CsvAt(d, p) < |csv|
    ensures WindowValues(d, Transposed(d, csv), p.c)[(p.s * d.horizon + p.h) * d.element + p.j] == csv[CsvAt(d, p)]
  {
    TransposedAt(d, csv, p);
    WindowValuesAt(d, Transposed(d, csv), p);
  }

  /** Where a value of window `c` sits in the stored order. */
  lemma WindowValuesAt<T>(d: Dims, stored: seq<T>, p: Coord)
    requires |stored| == d.Size() && Inside(d, p)
    ensures 0 <= (p.s * d.horizon + p.h) * d.element + p.j < |WindowValues(d, stored, p.c)|
    ensures StoredAt(d, p) < |stored|
    ensures WindowValues(d, stored, p.c)[(p.s * d.horizon + p.h) * d.element + p.j] == stored[StoredAt(d, p)]
  {
    var o, rows := p.s * d.horizon + p.h, d.series * d.horizon;
    PairBelow(p.s, d.series, p.h, d.horizon);
    StoredSize(d);
    MulAssoc(rows, d.count, d.element);
    StepsFit(d.count, p.c, 1, d.element);
    PairBelow(o, rows, p.j, d.element);
    CutAt(stored, rows, d.count * d.element, p.c * d.element, d.element, o, p.j);
    StoredDecodes(d, p);
    Distribute(o * d.count, p.c, d.element);
    MulAssoc(o, d.count, d.element);
  }

  /** One series: window `c` is rows `c·horizon .. (c+1)·horizon` of the CSV, unchanged. */
  lemma SingleSeriesWindowIsCsvRows<T>(d: Dims, csv: seq<T>, c: nat)
    requires |csv| == d.Size() && d.series == 1 && c < d.count
    ensures 0 <= c * d.horizon * d.Width() <= (c + 1) * d.horizon * d.Width() <= |csv|
    ensures WindowValues(d, Transposed(d, csv), c) == csv[c * d.horizon * d.Width()..(c + 1) * d.horizon * d.Width()]
  {
    var from, to := c * d.horizon * d.Width(), (c + 1) * d.horizon * d.Width();
    RowsOfWindow(d, c);
    var w := WindowValues(d, Transposed(d, csv), c);
    forall i | 0 <= i < |w|
      ensures from + i < |csv| && w[i] == csv[from + i]
    {
      SingleSeriesCell(d, csv, c, i);
    }
  }

  lemma SingleSeriesCell<T>(d: Dims, csv: seq<T>, c: nat, i: nat)
    requires |csv| == d.Size() && d.series == 1 && c < d.count && i < d.horizon * d.element
    ensures i < |WindowValues(d, Transposed(d, csv), c)| && 0 <= c * d.horizon * d.Width() + i < |csv|
    ensures WindowValues(d, Transposed(d, csv), c)[i] == csv[c * d.horizon * d.Width() + i]
  {
    QuotientBelow(i, d.horizon, d.element);
    var p := Coord(0, i / d.element, c, i % d.element);
    WindowIsCsvWindow(d, csv, p);
    Distribute(c * d.horizon, p.h, d.element);
    assert CsvAt(d, p) == c * d.horizon * d.element + i;
  }

  lemma RowsOfWindow(d: Dims, c: nat)
    requires c < d.count && d.series == 1
    ensures d.Width() == d.element
    ensures 0 <= c * d.horizon * d.Width() <= (c + 1) * d.horizon * d.Width() <= d.Size()
    ensures (c + 1) * d.horizon * d.Width() == c * d.horizon * d.Width() + (d.series * d.horizon) * d.element
  {
    Distribute(c, 1, d.horizon);
    Distribute(c * d.horizon, d.horizon, d.Width());
    MulMonotone(c + 1, d.count, d.horizon);
    MulMonotone((c + 1) * d.horizon, d.Rows(), d.Width());
  }

  /** Each value as its fixed number of bytes. */
  function Bytes<T>(enc: T -> seq<Byte>, values: seq<T>): seq<Byte> {
    Flatten(Encodings(enc, values))
  }

  function Encodings<T>(enc: T -> seq<Byte>, values: seq<T>): (r: seq<seq<Byte>>)
    ensures |r| == |values| && forall i :: 0 <= i < |r| ==> r[i] == enc(values[i])
  {
    seq(|values|, i requires 0 <= i < |values| => enc(values[i]))
  }

  ghost predicate FixedWidth<T(!new)>(enc: T -> seq<Byte>, width: nat) {
    forall v :: |enc(v)| == width
  }

  lemma BytesLength<T(!new)>(enc: T -> seq<Byte>, width: nat, values: seq<T>)
    requires FixedWidth(enc, width)
    ensures |Bytes(enc, values)| == |values| * width
  {
    FlattenLength(Encodings(enc, values), width);
  }

  lemma BytesConcat<T>(enc: T -> seq<Byte>, a: seq<T>, b: seq<T>)
    ensures Bytes(enc, a + b) == Bytes(enc, a) + Bytes(enc, b)
  {
    assert Encodings(enc, a + b) == Encodings(enc, a) + Encodings(enc, b);
    FlattenConcat(Encodings(enc, a), Encodings(enc, b));
  }

  /** The bytes of a slice, which start at `start` and end at `end`. */
  lemma BytesOfSlice<T(!new)>(enc: T -> seq<Byte>, width: nat, values: seq<T>, from: nat, to: nat, start: nat, end: nat)
    requires FixedWidth(enc, width) && from <= to <= |values| && start == from * width && end == to * width
    ensures start <= end <= |Bytes(enc, values)|
    ensures Bytes(enc, values)[start..end] == Bytes(enc, values[from..to])
  {
    var head, mid, tail := values[..from], values[from..to], values[to..];
    assert values == head + (mid + tail);
    BytesConcat(enc, head, mid + tail);
    BytesConcat(enc, mid, tail);
    BytesLength(enc, width, head);
    BytesLength(enc, width, mid);
    Distribute(from, to - from, width);
    RunAfter(Bytes(enc, head), Bytes(enc, mid), Bytes(enc, tail));
  }

  /** Cutting columns of values is cutting their bytes. */
  lemma {:induction false} CutOfBytes<T(!new)>(enc: T -> seq<Byte>, width: nat, values: seq<T>, rows: nat, cols: nat, from: nat, len: nat)
    requires FixedWidth(enc, width) && from + len <= cols && |values| == rows * cols
    ensures from * width + len * width <= cols * width
    ensures |Bytes(enc, values)| == rows * (cols * width)
    ensures from * width >= 0 && len * width >= 0
    ensures Cut(Bytes(enc, values), rows, cols * width, from * width, len * width)
         == Bytes(enc, Cut(values, rows, cols, from, len))
  {
    StepsFit(cols, from, len, width);
    BytesLength(enc, width, values);
    MulAssoc(rows, cols, width);
    if rows > 0 {
      RowsFit(rows, cols);
      RowsFit(rows, cols * width);
      FirstRowOfBytes(enc, width, values, cols, from, len, cols * width, from * width, len * width);
      CutOfBytes(enc, width, values[cols..], rows - 1, cols, from, len);
      BytesConcat(enc, values[from..from + len], Cut(values[cols..], rows - 1, cols, from, len));
    }
  }

  lemma FirstRowOfBytes<T(!new)>(enc: T -> seq<Byte>, width: nat, values: seq<T>, cols: nat, from: nat, len: nat, row: nat, start: nat, run: nat)
    requires FixedWidth(enc, width) && from + len <= cols <= |values|
    requires row == cols * width && start == from * width && run == len * width
    ensures start + run <= row <= |Bytes(enc, values)|
    ensures Bytes(enc, values)[start..start + run] == Bytes(enc, values[from..from + len])
    ensures Bytes(enc, values)[row..] == Bytes(enc, values[cols..])
  {
    StepsFit(cols, from, len, width);
    Distribute(from, len, width);
    BytesOfSlice(enc, width, values, from, from + len, start, start + run);
    var head, tail := values[..cols], values[cols..];
    assert values == head + tail;
    BytesConcat(enc, head, tail);
    BytesLength(enc, width, head);
  }

  /** The stored array's axes. Percentile and scenario forecasts lead with a series axis, of whatever
      length; a deterministic one has no such axis. */
  function ForecastAxes(d: Dims, leading: bool, elementShape: Shape): Shape {
    (if leading then [d.series, d.horizon] else [d.horizon]) + [d.count] + elementShape
  }

  function CountAxis(leading: bool): nat { if leading then 2 else 1 }

  lemma ForecastRows(d: Dims, leading: bool, es: Shape)
    requires leading || d.series == 1
    ensures CountAxis(leading) < |ForecastAxes(d, leading, es)| && ForecastAxes(d, leading, es)[CountAxis(leading)] == d.count
    ensures Product(ForecastAxes(d, leading, es)[..CountAxis(leading)]) == d.series * d.horizon
    ensures ForecastAxes(d, leading, es)[CountAxis(leading) + 1..] == es
  {
    var lead := ForecastAxes(d, leading, es)[..CountAxis(leading)];
    ProductOne(d.horizon);
    if leading {
      assert lead == [d.series, d.horizon] && lead[1..] == [d.horizon];
    } else {
      assert lead == [d.horizon];
    }
  }

  /** Ingest then read: the window a reader serves from an array built out of a timestamped CSV is
      that window of the CSV, in both layouts. */
  lemma IngestedWindowIsCsvWindow<T(!new)>(d: Dims, leading: bool, csv: seq<T>, enc: T -> seq<Byte>, dtype: Dtype, es: Shape, c: nat)
    requires |csv| == d.Size() && FixedWidth(enc, dtype.Size()) && d.element == Product(es) && c < d.count
    requires leading || d.series == 1
    ensures var a := TypedArray(dtype, ForecastAxes(d, leading, es), Bytes(enc, Transposed(d, csv)));
            a.WellFormed() && CountAxis(leading) < |a.shape| && a.shape[CountAxis(leading)] == d.count
            && Window(a, CountAxis(leading), c) == Bytes(enc, WindowValues(d, Transposed(d, csv), c))
  {
    var axis, size := CountAxis(leading), dtype.Size();
    var values := Transposed(d, csv);
    var a := TypedArray(dtype, ForecastAxes(d, leading, es), Bytes(enc, values));
    var rows, e := d.series * d.horizon, d.element;
    ForecastRows(d, leading, es);
    StoredSize(d);
    BytesLength(enc, size, values);
    ProductOne(d.count);
    ProductConcat(a.shape[..axis], [d.count] + es);
    assert a.shape == a.shape[..axis] + ([d.count] + es);
    ProductConcat([d.count], es);
    MulAssoc(rows, d.count, e);
    StepsFit(d.count, c, 1, e);
    CutOfBytes(enc, size, values, rows, d.count * e, c * e, e);
    MulAssoc(d.count, e, size);
    MulAssoc(c, e, size);
  }
}
