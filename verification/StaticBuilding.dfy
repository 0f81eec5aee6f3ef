/** The static readers the store builds, and what a successful read of one returns
    (store.rs, build_static_reader_over). */
module StaticBuilding {
  import opened Wrappers
  import opened Arrays
  import opened Cuts
  import opened Storage
  import opened Ordering
  import opened Metadata
  import opened Cohorts
  import opened Grids
  import opened Timestamps
  import opened StaticPlanning
  import opened StaticReading

  /** Allocate the planned groups. */
  method MakeReader(plan: StaticPlan, ghost role: ColumnRole) returns (reader: StaticReader)
    requires RoleFits(plan.timeline, role) && AllParallel(plan.groups, role)
    ensures reader.Valid() && reader.timeline == plan.timeline && reader.role == role
    ensures |reader.groups| == |plan.groups|
    ensures forall g :: 0 <= g < |plan.groups| ==> reader.groups[g].plan == plan.groups[g] && reader.groups[g].Values() == []
  {
    var groups: seq<StaticGroup> := [];
    while |groups| < |plan.groups|
      invariant |groups| <= |plan.groups|
      invariant forall i, j :: 0 <= i < j < |groups| ==> groups[i] != groups[j]
      invariant forall g :: 0 <= g < |groups| ==> fresh(groups[g]) && groups[g].plan == plan.groups[g] && !groups[g].filled
    {
      var group := new StaticGroup(plan.groups[|groups|]);
      groups := groups + [group];
    }
    reader := new StaticReader(plan.timeline, role, groups);
  }

  function Unplaced(rows: seq<TimeSeriesMetadata>): (r: seq<Row>)
    ensures |r| == |rows|
  {
    seq(|rows|, i requires 0 <= i < |rows| => Row(rows[i], 0))
  }

  /** The row's own grid. */
  function OwnGrid(m: TimeSeriesMetadata): SeriesAxis
    requires m.initial.Some? && m.resolution.Some?
  {
    Grid(m.initial.value, m.resolution.value, LengthOf(m))
  }

  predicate OnOwnGrids(timeline: Timeline, role: ColumnRole, rows: seq<Row>) {
    forall i :: 0 <= i < |rows| ==>
      && rows[i].meta.initial.Some? && rows[i].meta.resolution.Some? && Admits(timeline, role, rows[i])
      && (rows[i].meta.resolution.value.ms > 0 ==> SitsOn(timeline, role, rows[i], OwnGrid(rows[i].meta)))
  }

  /** A reader over series that share one grid. */
  method PlanUniform(rows: seq<TimeSeriesMetadata>) returns (r: Result<StaticPlan>)
    ensures r.Ok? ==> r.value.timeline.Regular? && OnOwnGrids(r.value.timeline, Shared, Unplaced(rows))
    ensures r.Ok? ==> GroupsPartition(r.value.groups, Shared, InColumnOrder(Unplaced(rows)))
    ensures r.Ok? <==> OneGrid(rows) && CohortSpelling(References(rows)).Ok? && forall i :: 0 <= i < |rows| ==> rows[i].id.Some?
  {
    var timeline :- RegularTimeline(rows);
    r := BuildGroups(timeline, Unplaced(rows), Shared);
    assert MetasOf(Unplaced(rows)) == rows;
    forall i | 0 <= i < |rows|
      ensures GridOf(rows[i]) == Ok((timeline.initial, timeline.resolution, timeline.length))
      ensures Admits(timeline, Shared, Unplaced(rows)[i])
      ensures Unplaced(rows)[i].meta == rows[i]
    {}
  }

  /** Series that share one grid of at least one step. */
  predicate OneGrid(rows: seq<TimeSeriesMetadata>) {
    && rows != [] && GridOf(rows[0]).Ok? && GridOf(rows[0]).value.2 > 0
    && forall i :: 0 <= i < |rows| ==> GridOf(rows[i]) == GridOf(rows[0])
  }

  /** Rows as a windowed reader places them. */
  predicate PlacedRows(rows: seq<TimeSeriesMetadata>, placed: seq<Row>, resolution: Period, anchor: Instant, zonelessBound: bool) {
    && |placed| == |rows|
    && forall i :: 0 <= i < |rows| ==>
         placed[i].meta == rows[i] && Place(rows[i], resolution, anchor, zonelessBound) == Ok(placed[i].companion)
  }

  /** What a caller of the windowed build has to bring besides the length. */
  ghost predicate WindowReady(rows: seq<TimeSeriesMetadata>, placed: seq<Row>) {
    && rows != []
    && (forall i :: 0 <= i < |rows| ==> rows[i].tsType.SingleTimeSeries? && rows[i].id.Some?)
    && CohortSpelling(References(MetasOf(placed))).Ok?
  }

  /** A reader over a caller-named window. An explicit length builds exactly when every placed
      row covers it; with none given the window is the longest every row covers. */
  method PlanWindowed(rows: seq<TimeSeriesMetadata>, resolution: Period, anchor: Instant, zonelessBound: bool, len: Option<nat>)
    returns (r: Result<StaticPlan>, ghost placed: seq<Row>)
    requires forall i :: 0 <= i < |rows| ==> rows[i].resolution == Some(resolution)
    ensures AllPlaced(rows, resolution, anchor, zonelessBound) ==> PlacedRows(rows, placed, resolution, anchor, zonelessBound)
    ensures !AllPlaced(rows, resolution, anchor, zonelessBound) ==> r.Err?
    ensures r.Ok? ==> r.value.timeline.Regular? && r.value.timeline.length > 0 && OnOwnGrids(r.value.timeline, Offset, placed)
    ensures r.Ok? ==> GroupsPartition(r.value.groups, Offset, InColumnOrder(placed))
    ensures len.Some? && AllPlaced(rows, resolution, anchor, zonelessBound) ==>
              (r.Ok? <==> WindowReady(rows, placed) && len.value > 0 && Covers(placed, len.value))
    ensures len.Some? && r.Ok? ==> r.value.timeline.length == len.value
    ensures len.None? && r.Ok? ==> forall n: nat :: Covers(placed, n) <==> n <= r.value.timeline.length
    ensures len.None? && AllPlaced(rows, resolution, anchor, zonelessBound) ==>
              (r.Ok? <==> WindowReady(rows, placed) && Covers(placed, 1))
  {
    placed := if AllPlaced(rows, resolution, anchor, zonelessBound) then
      PlacedAt(rows, resolution, anchor, zonelessBound) else [];
    var window := WindowTimeline(rows, resolution, anchor, zonelessBound, len);
    if window.Err? {
      if AllPlaced(rows, resolution, anchor, zonelessBound) && len.None? && rows != [] {
        ghost var i :| 0 <= i < |rows| && LengthOf(rows[i]) <= Place(rows[i], resolution, anchor, zonelessBound).value;
        assert placed[i].companion + 1 > LengthOf(placed[i].meta);
      }
      return Err(window.error), placed;
    }
    var timeline := window.value.0;
    assert placed == window.value.1;
    r := BuildGroups(timeline, window.value.1, Offset);
    PlacedRowsAdmitted(rows, placed, timeline, zonelessBound);
    if len.None? {
      CoversShorter(placed, timeline.length, 1);
      forall n: nat
        ensures Covers(placed, n) <==> n <= timeline.length
      {
        DefaultIsTheGreatest(placed, timeline.length, n);
      }
    }
  }

  function PlacedAt(rows: seq<TimeSeriesMetadata>, resolution: Period, anchor: Instant, zonelessBound: bool): (r: seq<Row>)
    requires AllPlaced(rows, resolution, anchor, zonelessBound)
    ensures PlacedRows(rows, r, resolution, anchor, zonelessBound)
  {
    seq(|rows|, i requires 0 <= i < |rows| => Row(rows[i], Place(rows[i], resolution, anchor, zonelessBound).value))
  }

  lemma PlacedRowsAdmitted(rows: seq<TimeSeriesMetadata>, placed: seq<Row>, timeline: Timeline, zonelessBound: bool)
    requires timeline.Regular? && PlacedRows(rows, placed, timeline.resolution, timeline.initial, zonelessBound)
    requires forall i :: 0 <= i < |rows| ==> rows[i].resolution == Some(timeline.resolution)
    ensures (forall i :: 0 <= i < |placed| ==> Admits(timeline, Offset, placed[i])) <==>
            (forall i :: 0 <= i < |rows| ==> rows[i].tsType.SingleTimeSeries?) && Covers(placed, timeline.length)
    ensures (forall i :: 0 <= i < |placed| ==> Admits(timeline, Offset, placed[i])) && timeline.length > 0
            ==> OnOwnGrids(timeline, Offset, placed)
    ensures AllHaveIds(placed) <==> forall i :: 0 <= i < |rows| ==> rows[i].id.Some?
  {
    forall i | 0 <= i < |rows|
      ensures Admits(timeline, Offset, placed[i]) <==>
              rows[i].tsType.SingleTimeSeries? && placed[i].companion + timeline.length <= LengthOf(placed[i].meta)
      ensures placed[i].meta == rows[i] && rows[i].initial.Some?
    {}
  }

  lemma CoversShorter(placed: seq<Row>, n: nat, m: nat)
    requires Covers(placed, n) && m <= n
    ensures Covers(placed, m)
  {}

  /** With no length given the window is the greatest explicit length that would build. */
  lemma DefaultIsTheGreatest(placed: seq<Row>, n: nat, m: nat)
    requires Covers(placed, n) && !Covers(placed, n + 1)
    ensures Covers(placed, m) <==> m <= n
  {
    if m <= n {
      CoversShorter(placed, n, m);
    }
  }

  // ---- what a read returns ------------------------------------------------------------------

  /** Every column of every group is one of the rows handed in. */
  lemma {:induction false} EveryColumnIsARow(groups: seq<GroupPlan>, role: ColumnRole, g: nat, j: nat)
    returns (k: nat)
    requires AllParallel(groups, role) && g < |groups| && j < |groups[g].ids|
    ensures k < |AllColumns(groups, role)| && AllColumns(groups, role)[k] == groups[g].Columns(role)[j]
  {
    var last := |groups| - 1;
    if g == last {
      k := |AllColumns(groups[..last], role)| + j;
    } else {
      k := EveryColumnIsARow(groups[..last], role, g, j);
    }
  }

  /** The stored arrays are the ones the catalog describes. */
  ghost predicate Stored(rows: seq<Row>, contents: Contents) {
    && SoundContents(contents)
    && forall i :: 0 <= i < |rows| ==> StoredRow(rows[i], contents)
  }

  ghost predicate StoredRow(row: Row, contents: Contents) {
    && row.meta.dataHash in contents
    && contents[row.meta.dataHash].dtype == row.meta.elementType.PhysicalDtype()
    && contents[row.meta.dataHash].shape == [LengthOf(row.meta)] + row.meta.elementShape
  }

  /** Bytes per column of a group. */
  function ColumnSize(g: GroupPlan): nat {
    Product(g.elementShape) * g.elementType.PhysicalDtype().Size()
  }

  ghost predicate UniformColumns(g: GroupPlan, contents: Contents) {
    forall j :: 0 <= j < |g.hashes| ==>
      && g.hashes[j] in contents && contents[g.hashes[j]].shape != []
      && contents[g.hashes[j]].shape[1..] == g.elementShape
      && contents[g.hashes[j]].dtype == g.elementType.PhysicalDtype()
  }

  lemma OneRowSize(g: GroupPlan, j: nat, row: nat, contents: Contents)
    requires SoundContents(contents) && UniformColumns(g, contents) && j < |g.hashes|
    requires HasRows(contents, g.hashes[j], OneRow(row))
    ensures |RowBytes(contents, g.hashes[j], OneRow(row))| == ColumnSize(g)
  {
    var a := contents[g.hashes[j]];
    assert a.shape[..0] == [];
  }

  /** Column `j` of a group's buffer is its own array's row, in its own slot of the buffer. */
  lemma ColumnSlice(g: GroupPlan, rows: seq<nat>, values: seq<Byte>, j: nat, contents: Contents)
    requires SoundContents(contents) && UniformColumns(g, contents) && |g.hashes| == |rows| && j < |rows|
    requires Holds(contents, g.hashes, rows, values)
    ensures 0 <= j * ColumnSize(g) <= j * ColumnSize(g) + ColumnSize(g) <= |values|
    ensures values[j * ColumnSize(g)..j * ColumnSize(g) + ColumnSize(g)] == RowBytes(contents, g.hashes[j], OneRow(rows[j]))
  {
    var ranges := seq(|rows|, i requires 0 <= i < |rows| => OneRow(rows[i]));
    forall i | 0 <= i < |rows|
      ensures HasRows(contents, g.hashes[i], ranges[i]) && |RowBytes(contents, g.hashes[i], ranges[i])| == ColumnSize(g)
    {
      assert HasRows(contents, g.hashes[i], OneRow(rows[i]));
      OneRowSize(g, i, rows[i], contents);
    }
    ColumnInBatch(g.hashes, ranges, ColumnSize(g), j, j * ColumnSize(g), contents);
  }

  /** Column `j` of a batch of equally long runs. */
  lemma ColumnInBatch(hashes: seq<Digest>, ranges: seq<Range>, size: nat, j: nat, at: nat, contents: Contents)
    requires SoundContents(contents) && |hashes| == |ranges| && j < |hashes|
    requires forall i :: 0 <= i < |hashes| ==> HasRows(contents, hashes[i], ranges[i]) && |RowBytes(contents, hashes[i], ranges[i])| == size
    requires at == j * size
    ensures at + size <= |Gathered(contents, hashes, ranges)|
    ensures Gathered(contents, hashes, ranges)[at..at + size] == RowBytes(contents, hashes[j], ranges[j])
  {
    FlattenAt(Runs(contents, hashes, ranges), size, j, at);
  }

  /** The static read, end to end: after a successful read of an accepted reader, column `j` of
      group `g` is some row's series, and its bytes are that series' value at `at` on its own
      axis, read straight from its own array. */
  lemma ReadIsEachSeriesAtItsOwnInstant(plan: StaticPlan, role: ColumnRole, rows: seq<Row>, axes: seq<SeriesAxis>,
                                        at: Instant, g: nat, values: seq<Byte>, j: nat, contents: Contents)
    returns (i: nat, row: nat)
    requires RoleFits(plan.timeline, role) && (role.Offset? ==> plan.timeline.Regular?)
    requires Stored(rows, contents) && |axes| == |rows|
    requires forall k :: 0 <= k < |rows| ==> Admits(plan.timeline, role, rows[k]) && SitsOn(plan.timeline, role, rows[k], axes[k])
    requires GroupsPartition(plan.groups, role, InColumnOrder(rows))
    requires g < |plan.groups| && j < |plan.groups[g].ids|
    requires Shows(plan.timeline, role, plan.groups[g], at, values, contents)
    ensures i < |rows| && rows[i].meta.id == Some(plan.groups[g].ids[j])
    ensures rows[i].meta.elementType == plan.groups[g].elementType && rows[i].meta.elementShape == plan.groups[g].elementShape
    ensures ValueAt(axes[i], row, at) && row < LengthOf(rows[i].meta)
    ensures HasRows(contents, rows[i].meta.dataHash, OneRow(row))
    ensures 0 <= j * ColumnSize(plan.groups[g]) <= j * ColumnSize(plan.groups[g]) + ColumnSize(plan.groups[g]) <= |values|
    ensures values[j * ColumnSize(plan.groups[g])..j * ColumnSize(plan.groups[g]) + ColumnSize(plan.groups[g])]
         == RowBytes(contents, rows[i].meta.dataHash, OneRow(row))
  {
    var p := plan.groups[g];
    i := RowOfColumn(plan.groups, role, rows, g, j);
    GroupIsUniform(plan.groups, role, rows, g, contents);
    var targets := TargetRows(plan.timeline, role, p, at);
    row := targets[j];
    assert row == RowFor(plan.timeline, Used(role, rows[i]), at).value;
    RowIsTheSeriesOwn(plan.timeline, role, rows[i], axes[i], at);
    ColumnSlice(p, targets, values, j, contents);
    assert p.Columns(role)[j].hash == p.hashes[j];
  }

  lemma RowOfColumn(groups: seq<GroupPlan>, role: ColumnRole, rows: seq<Row>, g: nat, j: nat) returns (i: nat)
    requires GroupsPartition(groups, role, InColumnOrder(rows)) && g < |groups| && j < |groups[g].ids|
    ensures i < |rows| && rows[i].meta.id.Some? && groups[g].Columns(role)[j] == ColumnOf(role, rows[i])
    ensures groups[g].CompanionAt(role, j) == Used(role, rows[i])
  {
    var k := EveryColumnIsARow(groups, role, g, j);
    var sorted := InColumnOrder(rows);
    assert ColumnsOf(role, sorted)[k] == ColumnOf(role, sorted[k]);
    assert sorted[k] in multiset(rows);
    i :| 0 <= i < |rows| && rows[i] == sorted[k];
    assert groups[g].Columns(role)[j].companion == groups[g].CompanionAt(role, j);
  }

  lemma GroupIsUniform(groups: seq<GroupPlan>, role: ColumnRole, rows: seq<Row>, g: nat, contents: Contents)
    requires GroupsPartition(groups, role, InColumnOrder(rows)) && g < |groups| && Stored(rows, contents)
    ensures UniformColumns(groups[g], contents)
  {
    forall j | 0 <= j < |groups[g].hashes|
      ensures groups[g].hashes[j] in contents && contents[groups[g].hashes[j]].shape != []
      ensures contents[groups[g].hashes[j]].shape[1..] == groups[g].elementShape
      ensures contents[groups[g].hashes[j]].dtype == groups[g].elementType.PhysicalDtype()
    {
      var i := RowOfColumn(groups, role, rows, g, j);
      assert StoredRow(rows[i], contents);
      assert groups[g].Columns(role)[j].hash == groups[g].hashes[j];
    }
  }

  /** The layout does not depend on the order the catalog lists the rows in, as long as no two
      rows tie on the column key. */
  lemma LayoutIgnoresListingOrder(a: seq<Row>, b: seq<Row>)
    requires multiset(a) == multiset(b) && KeysIdentify(a, ColumnKey)
    ensures InColumnOrder(a) == InColumnOrder(b)
  {
    SortIgnoresArrival(a, b, ColumnKey);
  }
}
