/** The plan of a static reader: its time axis, where each series sits on it, and the
    columnar groups (reader.rs, regular_timeline, window_timeline, build_groups_inner). */
module StaticPlanning {
  import opened Wrappers
  import opened Arrays
  import opened Storage
  import opened Ordering
  import opened Metadata
  import opened Cohorts
  import opened Grids
  import opened Timestamps

  datatype Timeline =
    | Regular(initial: Instant, resolution: Period, length: nat)
    | Irregular(timestamps: seq<Instant>)
    | Persistent(vectors: seq<seq<Instant>>, union: seq<Instant>)
  {
    function Length(): nat {
      match this
      case Regular(_, _, n) => n
      case Irregular(ts) => |ts|
      case Persistent(_, u) => |u|
    }

    function TsType(): TimeSeriesType {
      match this
      case Regular(_, _, _) => SingleTimeSeries
      case Irregular(_) => NonSequentialTimeSeries
      case Persistent(_, _) => PersistentTimeSeries
    }
  }

  /** What the number beside each row means. */
  datatype ColumnRole = Shared | Vector | Offset

  datatype Row = Row(meta: TimeSeriesMetadata, companion: nat)

  // ---- timelines --------------------------------------------------------------------------

  function GridOf(m: TimeSeriesMetadata): Result<(Instant, Period, nat)> {
    if !m.tsType.SingleTimeSeries? then Err(InvalidParameter)
    else if m.initial.None? || m.resolution.None? || m.length.None? then Err(IntegrityError)
    else Ok((m.initial.value, m.resolution.value, m.length.value))
  }

  /** The grid every row shares, or an error at the first row that diverges. */
  method RegularTimeline(rows: seq<TimeSeriesMetadata>) returns (r: Result<Timeline>)
    ensures r.Ok? <==> rows != [] && GridOf(rows[0]).Ok? && forall i :: 0 <= i < |rows| ==> GridOf(rows[i]) == GridOf(rows[0])
    ensures r.Ok? ==> r.value.Regular?
    ensures r.Ok? ==> forall i :: 0 <= i < |rows| ==>
              GridOf(rows[i]) == Ok((r.value.initial, r.value.resolution, r.value.length))
  {
    if rows == [] {
      return Err(InvalidParameter);
    }
    var grid :- GridOf(rows[0]);
    var i := 0;
    while i < |rows|
      invariant 0 <= i <= |rows|
      invariant forall k :: 0 <= k < i ==> GridOf(rows[k]) == Ok(grid)
    {
      var g :- GridOf(rows[i]);
      if g != grid {
        return Err(InvalidParameter);
      }
      i := i + 1;
    }
    return Ok(Regular(grid.0, grid.1, grid.2));
  }

  /** A bound without a zone belongs to zoneless series, any other to the rest. */
  predicate SpelledAlike(zonelessBound: bool, reference: Option<TimeReference>) {
    zonelessBound <==> reference == Some(Zoneless)
  }

  /** Steps from a row's own start to the reader's anchor. */
  function Place(m: TimeSeriesMetadata, resolution: Period, anchor: Instant, zonelessBound: bool): Result<nat> {
    if !SpelledAlike(zonelessBound, m.timeReference) then Err(InvalidParameter)
    else if m.initial.None? then Err(IntegrityError)
    else resolution.StepsBetween(m.initial.value, anchor)
  }

  function LengthOf(m: TimeSeriesMetadata): nat {
    if m.length.Some? then m.length.value else 0
  }

  /** Steps a placed row still has from the anchor on. */
  function Left(row: Row): nat {
    if LengthOf(row.meta) < row.companion then 0 else LengthOf(row.meta) - row.companion
  }

  predicate AllPlaced(rows: seq<TimeSeriesMetadata>, resolution: Period, anchor: Instant, zonelessBound: bool) {
    forall i :: 0 <= i < |rows| ==> Place(rows[i], resolution, anchor, zonelessBound).Ok?
  }

  /** `n` steps from the anchor are inside every placed row. */
  predicate Covers(placed: seq<Row>, n: nat) {
    forall i :: 0 <= i < |placed| ==> placed[i].companion + n <= LengthOf(placed[i].meta)
  }

  /** Place every row against a caller-named window. With no length given the window runs as
      far as every row reaches. */
  method WindowTimeline(rows: seq<TimeSeriesMetadata>, resolution: Period, anchor: Instant, zonelessBound: bool,
                        len: Option<nat>)
    returns (r: Result<(Timeline, seq<Row>)>)
    ensures r.Ok? ==> rows != [] && AllPlaced(rows, resolution, anchor, zonelessBound) && |r.value.1| == |rows|
    ensures r.Ok? ==> forall i :: 0 <= i < |rows| ==>
              r.value.1[i].meta == rows[i] && Place(rows[i], resolution, anchor, zonelessBound) == Ok(r.value.1[i].companion)
    ensures r.Ok? ==> r.value.0.Regular? && r.value.0.initial == anchor && r.value.0.resolution == resolution && r.value.0.length > 0
    ensures r.Ok? && len.Some? ==> r.value.0.length == len.value
    ensures r.Ok? && len.None? ==> Covers(r.value.1, r.value.0.length) && !Covers(r.value.1, r.value.0.length + 1)
    ensures len.Some? ==> (r.Ok? <==> rows != [] && AllPlaced(rows, resolution, anchor, zonelessBound) && len.value > 0)
    ensures len.None? && r.Err? && rows != [] && AllPlaced(rows, resolution, anchor, zonelessBound) ==>
              exists i :: 0 <= i < |rows| && LengthOf(rows[i]) <= Place(rows[i], resolution, anchor, zonelessBound).value
  {
    if rows == [] {
      return Err(InvalidParameter);
    }
    var placed: seq<Row> := [];
    var i := 0;
    while i < |rows|
      invariant 0 <= i <= |rows| && |placed| == i
      invariant forall k :: 0 <= k < i ==>
                  placed[k].meta == rows[k] && Place(rows[k], resolution, anchor, zonelessBound) == Ok(placed[k].companion)
    {
      var offset := Place(rows[i], resolution, anchor, zonelessBound);
      if offset.Err? {
        return Err(offset.error);
      }
      placed := placed + [Row(rows[i], offset.value)];
      i := i + 1;
    }
    var length := if len.Some? then len.value else LeastLeft(placed);
    if length == 0 {
      return Err(InvalidParameter);
    }
    return Ok((Regular(anchor, resolution, length), placed));
  }

  /** The least of what each row has left. */
  function LeastLeft(placed: seq<Row>): (n: nat)
    requires placed != []
    ensures forall i :: 0 <= i < |placed| ==> n <= Left(placed[i])
    ensures exists i :: 0 <= i < |placed| && n == Left(placed[i])
  {
    if |placed| == 1 then
      assert Left(placed[0]) == Left(placed[0]);
      Left(placed[0])
    else
      var rest := LeastLeft(placed[1..]);
      assert exists i :: 0 <= i < |placed| && rest == Left(placed[i]) by {
        var i :| 0 <= i < |placed[1..]| && rest == Left(placed[1..][i]);
        assert rest == Left(placed[i + 1]);
      }
      if Left(placed[0]) <= rest then Left(placed[0]) else rest
  }

  // ---- groups -----------------------------------------------------------------------------

  /** One column as the caller sees it. */
  datatype Column = Column(id: int, hash: Digest, elementType: ElementType, elementShape: Shape, companion: nat)

  datatype GroupPlan = GroupPlan(elementType: ElementType, elementShape: Shape, ids: seq<int>, hashes: seq<Digest>,
                                 vectorIds: seq<nat>, rowOffsets: seq<nat>)
  {
    /** The companion lists are parallel to the ids, or empty where the role needs none. */
    predicate Parallel(role: ColumnRole) {
      && |hashes| == |ids|
      && (role.Vector? ==> |vectorIds| == |ids|) && (!role.Vector? ==> vectorIds == [])
      && (rowOffsets == [] || (role.Offset? && |rowOffsets| == |ids|))
    }

    function CompanionAt(role: ColumnRole, j: nat): nat
      requires Parallel(role) && j < |ids|
    {
      match role
      case Shared => 0
      case Vector => vectorIds[j]
      case Offset => if rowOffsets == [] then 0 else rowOffsets[j]
    }

    function Columns(role: ColumnRole): seq<Column>
      requires Parallel(role)
    {
      seq(|ids|, j requires 0 <= j < |ids| =>
        Column(ids[j], hashes[j], elementType, elementShape, CompanionAt(role, j)))
    }

    function LayoutKey(): Key { [ElementTypeRank(elementType), elementShape] }
  }

  /** Element types in declaration order, then by their parameters. */
  function ElementTypeRank(e: ElementType): Component {
    match e
    case Scalar(d) => [0, DtypeRank(d)]
    case Tuple(n, d) => [1, n, DtypeRank(d)]
    case LinearFunction => [2]
    case QuadraticFunction => [3]
    case PiecewiseLinear => [4]
    case PiecewiseStep => [5]
  }

  function DtypeRank(d: Dtype): int {
    match d
    case F64 => 0 case F32 => 1 case I64 => 2 case I32 => 3 case U64 => 4 case Bool => 5
    case I16 => 6 case I8 => 7 case U32 => 8 case U16 => 9 case U8 => 10
  }

  lemma RankIdentifies(e: ElementType, f: ElementType)
    requires ElementTypeRank(e) == ElementTypeRank(f)
    ensures e == f
  {
    var a, b := ElementTypeRank(e), ElementTypeRank(f);
    assert a[0] == b[0];
    if e.Scalar? || e.Tuple? {
      assert a[1] == b[1];
      if e.Tuple? {
        assert a[2] == b[2];
      }
    }
  }

  /** Column order: element type, element shape, then identity. */
  function ColumnKey(r: Row): Key {
    [ElementTypeRank(r.meta.elementType), r.meta.elementShape] + IdentitySortKey(r.meta)
  }

  function InColumnOrder(rows: seq<Row>): seq<Row> {
    SortBy(rows, ColumnKey)
  }

  function ColumnOf(role: ColumnRole, r: Row): Column
    requires r.meta.id.Some?
  {
    Column(r.meta.id.value, r.meta.dataHash, r.meta.elementType, r.meta.elementShape,
           if role.Shared? then 0 else r.companion)
  }

  predicate AllHaveIds(rows: seq<Row>) {
    forall i :: 0 <= i < |rows| ==> rows[i].meta.id.Some?
  }

  function ColumnsOf(role: ColumnRole, rows: seq<Row>): (c: seq<Column>)
    requires AllHaveIds(rows)
    ensures |c| == |rows|
  {
    seq(|rows|, i requires 0 <= i < |rows| => ColumnOf(role, rows[i]))
  }

  predicate AllParallel(groups: seq<GroupPlan>, role: ColumnRole) {
    forall g :: 0 <= g < |groups| ==> groups[g].Parallel(role)
  }

  /** The groups' columns, end to end. */
  function AllColumns(groups: seq<GroupPlan>, role: ColumnRole): seq<Column>
    requires AllParallel(groups, role)
  {
    if groups == [] then [] else AllColumns(groups[..|groups| - 1], role) + groups[|groups| - 1].Columns(role)
  }

  /** What a row must satisfy to be a column on `timeline`. */
  predicate Admits(timeline: Timeline, role: ColumnRole, row: Row) {
    && row.meta.tsType == timeline.TsType()
    && (match role
        case Offset => timeline.Regular? && row.companion + timeline.length <= LengthOf(row.meta)
        case _ =>
          match timeline
          case Persistent(vectors, _) =>
            row.companion < |vectors| && row.meta.length == Some(|vectors[row.companion]|)
          case _ => row.meta.length == Some(timeline.Length()))
  }

  /** Which roles the three builders use. */
  predicate RoleFits(timeline: Timeline, role: ColumnRole) {
    role.Vector? <==> timeline.Persistent?
  }

  function MetasOf(rows: seq<Row>): seq<TimeSeriesMetadata> {
    seq(|rows|, i requires 0 <= i < |rows| => rows[i].meta)
  }

  ghost predicate GroupsBuildable(timeline: Timeline, rows: seq<Row>, role: ColumnRole) {
    && rows != [] && timeline.Length() > 0
    && (forall i :: 0 <= i < |rows| ==> Admits(timeline, role, rows[i]))
    && CohortSpelling(References(MetasOf(rows))).Ok?
    && AllHaveIds(rows)
  }

  /** The groups are the rows in column order, cut where the layout changes: every row is one
      column, a group is uniform, and no two groups share a layout. */
  predicate GroupsPartition(groups: seq<GroupPlan>, role: ColumnRole, sorted: seq<Row>)
  {
    && AllHaveIds(sorted) && AllParallel(groups, role)
    && AllColumns(groups, role) == ColumnsOf(role, sorted)
    && (forall g :: 0 <= g < |groups| ==> groups[g].ids != [])
    && (forall g, h :: 0 <= g < h < |groups| ==> groups[g].LayoutKey() != groups[h].LayoutKey())
  }

  datatype StaticPlan = StaticPlan(timeline: Timeline, spelling: Option<TimeReference>, groups: seq<GroupPlan>)

  method BuildGroups(timeline: Timeline, rows: seq<Row>, role: ColumnRole) returns (r: Result<StaticPlan>)
    requires RoleFits(timeline, role)
    ensures r.Ok? <==> GroupsBuildable(timeline, rows, role)
    ensures r.Ok? ==> r.value.timeline == timeline
    ensures r.Ok? ==> CohortSpelling(References(MetasOf(rows))) == Ok(r.value.spelling)
    ensures r.Ok? ==> GroupsPartition(r.value.groups, role, InColumnOrder(rows))
  {
    if rows == [] || timeline.Length() == 0 {
      return Err(InvalidParameter);
    }
    var i := 0;
    while i < |rows|
      invariant 0 <= i <= |rows|
      invariant forall k :: 0 <= k < i ==> Admits(timeline, role, rows[k])
    {
      if rows[i].meta.tsType != timeline.TsType() {
        return Err(InvalidParameter);
      }
      if role.Offset? {
        if !timeline.Regular? {
          return Err(IntegrityError);
        }
        if LengthOf(rows[i].meta) < rows[i].companion + timeline.length {
          return Err(InvalidParameter);
        }
      } else {
        if timeline.Persistent? && rows[i].companion >= |timeline.vectors| {
          return Err(IntegrityError);
        }
        var expected := if timeline.Persistent? then |timeline.vectors[rows[i].companion]| else timeline.Length();
        if rows[i].meta.length != Some(expected) {
          return Err(InvalidParameter);
        }
      }
      i := i + 1;
    }
    var spelling :- CohortTimeReference(MetasOf(rows));
    ColumnOrderIsLayoutOrder(rows);
    var groups := CutGroups(InColumnOrder(rows), role);
    SortKeepsIds(rows);
    if groups.Err? {
      return Err(groups.error);
    }
    return Ok(StaticPlan(timeline, spelling, groups.value));
  }

  lemma SortKeepsIds(rows: seq<Row>)
    ensures AllHaveIds(InColumnOrder(rows)) <==> AllHaveIds(rows)
  {
    var sorted := InColumnOrder(rows);
    forall i | 0 <= i < |rows|
      ensures rows[i] in sorted
    {
      assert rows[i] in multiset(sorted);
    }
    forall i | 0 <= i < |sorted|
      ensures sorted[i] in rows
    {
      assert sorted[i] in multiset(rows);
    }
  }

  function LayoutKeyOf(r: Row): Key { [ElementTypeRank(r.meta.elementType), r.meta.elementShape] }

  predicate LayoutOrder(sorted: seq<Row>) {
    forall i, j :: 0 <= i < j < |sorted| ==> !KeyLess(LayoutKeyOf(sorted[j]), LayoutKeyOf(sorted[i]))
  }

  /** The layout comes first in the column key, so column order is layout order. */
  lemma ColumnOrderIsLayoutOrder(rows: seq<Row>)
    ensures LayoutOrder(InColumnOrder(rows))
  {
    var sorted := InColumnOrder(rows);
    SortOrdered(rows, ColumnKey);
    forall i, j | 0 <= i < j < |sorted|
      ensures !KeyLess(LayoutKeyOf(sorted[j]), LayoutKeyOf(sorted[i]))
    {
      assert !KeyLess(ColumnKey(sorted[j]), ColumnKey(sorted[i]));
      PrefixDecides(LayoutKeyOf(sorted[j]), LayoutKeyOf(sorted[i]), IdentitySortKey(sorted[j].meta), IdentitySortKey(sorted[i].meta));
    }
  }

  lemma PrefixDecides(a: Key, b: Key, x: Key, y: Key)
    requires |a| == |b| == 2
    ensures KeyLess(a, b) ==> KeyLess(a + x, b + y)
  {
    var u, v := a + x, b + y;
    assert u[0] == a[0] && v[0] == b[0];
    assert u[1..][0] == a[1] == a[1..][0] && v[1..][0] == b[1] == b[1..][0];
    assert a[1..][1..] == [] && b[1..][1..] == [];
    if KeyLess(a, b) && !ComponentLess(a[0], b[0]) {
      assert KeyLess(a[1..], b[1..]) && !KeyLess([], []);
      assert ComponentLess(a[1], b[1]);
      assert KeyLess(u[1..], v[1..]);
    }
  }

  lemma SameLayout(g: GroupPlan, r: Row)
    ensures g.LayoutKey() == LayoutKeyOf(r) <==> g.elementType == r.meta.elementType && g.elementShape == r.meta.elementShape
  {
    if g.LayoutKey() == LayoutKeyOf(r) {
      assert g.LayoutKey()[0] == LayoutKeyOf(r)[0] && g.LayoutKey()[1] == LayoutKeyOf(r)[1];
      RankIdentifies(g.elementType, r.meta.elementType);
    }
  }

  predicate LayoutsAscend(groups: seq<GroupPlan>) {
    forall g, h :: 0 <= g < h < |groups| ==> KeyLess(groups[g].LayoutKey(), groups[h].LayoutKey())
  }

  predicate CutColumns(groups: seq<GroupPlan>, role: ColumnRole, sorted: seq<Row>, n: nat) {
    && n <= |sorted| && AllHaveIds(sorted[..n]) && AllParallel(groups, role)
    && AllColumns(groups, role) == ColumnsOf(role, sorted[..n])
  }

  predicate CutLayouts(groups: seq<GroupPlan>, sorted: seq<Row>, n: nat) {
    && n <= |sorted|
    && (forall g :: 0 <= g < |groups| ==> groups[g].ids != [])
    && LayoutsAscend(groups)
    && (groups == [] <==> n == 0)
    && (n > 0 ==> groups[|groups| - 1].LayoutKey() == LayoutKeyOf(sorted[n - 1]))
  }

  /** State of the cutting loop after the first `n` rows. */
  predicate CutSoFar(groups: seq<GroupPlan>, role: ColumnRole, sorted: seq<Row>, n: nat) {
    CutColumns(groups, role, sorted, n) && CutLayouts(groups, sorted, n)
  }

  function EmptyGroup(r: Row): GroupPlan {
    GroupPlan(r.meta.elementType, r.meta.elementShape, [], [], [], [])
  }

  /** Push one row onto a group. */
  function PushColumn(g: GroupPlan, role: ColumnRole, r: Row): GroupPlan
    requires r.meta.id.Some?
  {
    g.(ids := g.ids + [r.meta.id.value],
       hashes := g.hashes + [r.meta.dataHash],
       vectorIds := if role.Vector? then g.vectorIds + [r.companion] else g.vectorIds,
       rowOffsets := if role.Offset? then g.rowOffsets + [r.companion] else g.rowOffsets)
  }

  /** Offsets are complete while the loop runs: they are dropped only afterwards. */
  predicate FullOffsets(g: GroupPlan, role: ColumnRole) {
    role.Offset? ==> |g.rowOffsets| == |g.ids|
  }

  lemma PushColumnAdds(g: GroupPlan, role: ColumnRole, r: Row)
    requires r.meta.id.Some? && g.Parallel(role) && FullOffsets(g, role)
    requires g.elementType == r.meta.elementType && g.elementShape == r.meta.elementShape
    ensures PushColumn(g, role, r).Parallel(role) && FullOffsets(PushColumn(g, role, r), role)
    ensures PushColumn(g, role, r).Columns(role) == g.Columns(role) + [ColumnOf(role, r)]
  {
    var p := PushColumn(g, role, r);
    forall j | 0 <= j < |g.ids|
      ensures p.Columns(role)[j] == g.Columns(role)[j]
    {
      assert p.CompanionAt(role, j) == g.CompanionAt(role, j);
    }
  }

  /** One more row keeps the loop state. */
  lemma {:induction false} CutStep(groups: seq<GroupPlan>, role: ColumnRole, sorted: seq<Row>, n: nat, open: seq<GroupPlan>)
    requires LayoutOrder(sorted) && n < |sorted| && sorted[n].meta.id.Some?
    requires CutSoFar(groups, role, sorted, n)
    requires forall g :: 0 <= g < |groups| ==> FullOffsets(groups[g], role)
    requires open == if groups == [] || groups[|groups| - 1].LayoutKey() != LayoutKeyOf(sorted[n])
                     then groups + [EmptyGroup(sorted[n])] else groups
    ensures var next := open[|open| - 1 := PushColumn(open[|open| - 1], role, sorted[n])];
            CutSoFar(next, role, sorted, n + 1)
            && forall g :: 0 <= g < |next| ==> FullOffsets(next[g], role)
  {
    CutStepLayouts(groups, role, sorted, n, open);
    CutStepColumns(groups, role, sorted, n, open);
  }

  lemma CutStepLayouts(groups: seq<GroupPlan>, role: ColumnRole, sorted: seq<Row>, n: nat, open: seq<GroupPlan>)
    requires LayoutOrder(sorted) && n < |sorted| && sorted[n].meta.id.Some? && CutLayouts(groups, sorted, n)
    requires open == if groups == [] || groups[|groups| - 1].LayoutKey() != LayoutKeyOf(sorted[n])
                     then groups + [EmptyGroup(sorted[n])] else groups
    ensures CutLayouts(open[|open| - 1 := PushColumn(open[|open| - 1], role, sorted[n])], sorted, n + 1)
  {
    OpenAscends(groups, sorted, n, open);
    PushKeepsLayouts(open, role, sorted[n]);
    var k := |open| - 1;
    assert PushColumn(open[k], role, sorted[n]).LayoutKey() == open[k].LayoutKey();
  }

  lemma CutStepColumns(groups: seq<GroupPlan>, role: ColumnRole, sorted: seq<Row>, n: nat, open: seq<GroupPlan>)
    requires n < |sorted| && sorted[n].meta.id.Some? && CutColumns(groups, role, sorted, n)
    requires forall g :: 0 <= g < |groups| ==> FullOffsets(groups[g], role)
    requires open == if groups == [] || groups[|groups| - 1].LayoutKey() != LayoutKeyOf(sorted[n])
                     then groups + [EmptyGroup(sorted[n])] else groups
    ensures var next := open[|open| - 1 := PushColumn(open[|open| - 1], role, sorted[n])];
            CutColumns(next, role, sorted, n + 1)
            && forall g :: 0 <= g < |next| ==> FullOffsets(next[g], role)
  {
    var r := sorted[n];
    SameLayout(open[|open| - 1], r);
    PushColumnAdds(open[|open| - 1], role, r);
    OpenColumns(groups, role, r, open);
    PrefixPush(sorted, n);
    ColumnsPush(role, sorted[..n], r);
  }

  lemma ColumnsPush(role: ColumnRole, rows: seq<Row>, r: Row)
    requires AllHaveIds(rows) && r.meta.id.Some?
    ensures AllHaveIds(rows + [r]) && ColumnsOf(role, rows + [r]) == ColumnsOf(role, rows) + [ColumnOf(role, r)]
  {}

  /** Pushing onto the last group changes no layout. */
  lemma PushKeepsLayouts(open: seq<GroupPlan>, role: ColumnRole, r: Row)
    requires open != [] && LayoutsAscend(open) && r.meta.id.Some?
    ensures LayoutsAscend(open[|open| - 1 := PushColumn(open[|open| - 1], role, r)])
  {
    var k := |open| - 1;
    var next := open[k := PushColumn(open[k], role, r)];
    assert forall g :: 0 <= g < |open| ==> next[g].LayoutKey() == open[g].LayoutKey();
  }

  /** A group opened for a later layout sorts after the ones before it. */
  lemma OpenAscends(groups: seq<GroupPlan>, sorted: seq<Row>, n: nat, open: seq<GroupPlan>)
    requires LayoutOrder(sorted) && n < |sorted| && LayoutsAscend(groups)
    requires groups == [] <==> n == 0
    requires n > 0 ==> groups[|groups| - 1].LayoutKey() == LayoutKeyOf(sorted[n - 1])
    requires open == if groups == [] || groups[|groups| - 1].LayoutKey() != LayoutKeyOf(sorted[n])
                     then groups + [EmptyGroup(sorted[n])] else groups
    ensures LayoutsAscend(open)
  {
    var r := sorted[n];
    if |open| > |groups| && n > 0 {
      KeyOrder(groups[|groups| - 1].LayoutKey(), LayoutKeyOf(r), []);
      forall g | 0 <= g < |groups|
        ensures KeyLess(groups[g].LayoutKey(), LayoutKeyOf(r))
      {
        KeyOrder(groups[g].LayoutKey(), groups[|groups| - 1].LayoutKey(), LayoutKeyOf(r));
      }
    }
  }

  /** Pushing onto the last group appends one column. */
  lemma OpenColumns(groups: seq<GroupPlan>, role: ColumnRole, r: Row, open: seq<GroupPlan>)
    requires r.meta.id.Some? && AllParallel(groups, role) && (forall g :: 0 <= g < |groups| ==> FullOffsets(groups[g], role))
    requires open == groups + [EmptyGroup(r)] || (open == groups && open != [])
    requires open[|open| - 1].elementType == r.meta.elementType && open[|open| - 1].elementShape == r.meta.elementShape
    ensures var next := open[|open| - 1 := PushColumn(open[|open| - 1], role, r)];
      AllParallel(next, role) && AllColumns(next, role) == AllColumns(groups, role) + [ColumnOf(role, r)]
  {
    var k := |open| - 1;
    PushColumnAdds(open[k], role, r);
    var next := open[k := PushColumn(open[k], role, r)];
    assert next[..k] == open[..k];
    if |open| > |groups| {
      assert open[..k] == groups && EmptyGroup(r).Columns(role) == [];
    }
  }

  predicate AllZero(offsets: seq<nat>) {
    forall j :: 0 <= j < |offsets| ==> offsets[j] == 0
  }

  /** Dropping all-zero offsets never moves a column. */
  lemma {:induction false} ClearingZerosKeepsColumns(groups: seq<GroupPlan>, cleared: seq<GroupPlan>, role: ColumnRole)
    requires AllParallel(groups, role) && |cleared| == |groups|
    requires forall g :: 0 <= g < |groups| ==>
               cleared[g] == if AllZero(groups[g].rowOffsets) then groups[g].(rowOffsets := []) else groups[g]
    ensures AllParallel(cleared, role) && AllColumns(cleared, role) == AllColumns(groups, role)
  {
    if groups != [] {
      var k := |groups| - 1;
      ClearingZerosKeepsColumns(groups[..k], cleared[..k], role);
      assert cleared[k].Columns(role) == groups[k].Columns(role);
    }
  }

  /** Cut the ordered rows into groups, then drop the offsets of groups that need none. */
  method CutGroups(sorted: seq<Row>, role: ColumnRole) returns (r: Result<seq<GroupPlan>>)
    requires LayoutOrder(sorted)
    ensures r.Ok? <==> AllHaveIds(sorted)
    ensures r.Ok? ==> GroupsPartition(r.value, role, sorted)
    ensures r.Ok? ==> forall g :: 0 <= g < |r.value| ==> r.value[g].rowOffsets == [] || !AllZero(r.value[g].rowOffsets)
  {
    var full :- CutRows(sorted, role);
    assert sorted[..|sorted|] == sorted;
    var groups := ClearZeroOffsets(full, role);
    forall g, h | 0 <= g < h < |groups|
      ensures groups[g].LayoutKey() != groups[h].LayoutKey()
    {
      KeyOrder(full[g].LayoutKey(), full[h].LayoutKey(), []);
    }
    return Ok(groups);
  }

  method CutRows(sorted: seq<Row>, role: ColumnRole) returns (r: Result<seq<GroupPlan>>)
    requires LayoutOrder(sorted)
    ensures r.Ok? <==> AllHaveIds(sorted)
    ensures r.Ok? ==> CutSoFar(r.value, role, sorted, |sorted|)
  {
    var groups: seq<GroupPlan> := [];
    var i := 0;
    while i < |sorted|
      invariant CutSoFar(groups, role, sorted, i)
      invariant forall g :: 0 <= g < |groups| ==> FullOffsets(groups[g], role)
    {
      if sorted[i].meta.id.None? {
        return Err(IntegrityError);
      }
      groups := CutRow(groups, role, sorted, i);
      i := i + 1;
    }
    assert sorted[..i] == sorted;
    return Ok(groups);
  }

  /** Row `i` joins the last group, or opens one when its layout differs. */
  method CutRow(before: seq<GroupPlan>, role: ColumnRole, sorted: seq<Row>, i: nat) returns (groups: seq<GroupPlan>)
    requires LayoutOrder(sorted) && i < |sorted| && sorted[i].meta.id.Some?
    requires CutSoFar(before, role, sorted, i) && forall g :: 0 <= g < |before| ==> FullOffsets(before[g], role)
    ensures CutSoFar(groups, role, sorted, i + 1) && forall g :: 0 <= g < |groups| ==> FullOffsets(groups[g], role)
  {
    groups := before;
    var row := sorted[i];
    if groups == [] || groups[|groups| - 1].elementType != row.meta.elementType
       || groups[|groups| - 1].elementShape != row.meta.elementShape {
      groups := groups + [EmptyGroup(row)];
    }
    if before != [] {
      SameLayout(before[|before| - 1], row);
    }
    CutStep(before, role, sorted, i, groups);
    var last := |groups| - 1;
    groups := groups[last := PushColumn(groups[last], role, row)];
  }

  method ClearZeroOffsets(full: seq<GroupPlan>, role: ColumnRole) returns (groups: seq<GroupPlan>)
    requires AllParallel(full, role)
    ensures AllParallel(groups, role) && AllColumns(groups, role) == AllColumns(full, role) && |groups| == |full|
    ensures forall g :: 0 <= g < |groups| ==>
              groups[g] == if AllZero(full[g].rowOffsets) then full[g].(rowOffsets := []) else full[g]
  {
    groups := full;
    var g := 0;
    while g < |groups|
      invariant 0 <= g <= |groups| == |full|
      invariant forall h :: 0 <= h < g ==>
                  groups[h] == if AllZero(full[h].rowOffsets) then full[h].(rowOffsets := []) else full[h]
      invariant forall h :: g <= h < |groups| ==> groups[h] == full[h]
    {
      if AllZero(groups[g].rowOffsets) {
        groups := groups[g := groups[g].(rowOffsets := [])];
      }
      g := g + 1;
    }
    ClearingZerosKeepsColumns(full, groups, role);
  }
}
