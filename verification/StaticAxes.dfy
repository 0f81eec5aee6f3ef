/** The readers over explicit time axes: rows and axes come from the catalog, and each row's own axis
    is the one its hash names (store.rs, build_static_reader_over). */
module StaticAxes {
  import opened Wrappers
  import opened Arrays
  import opened Storage
  import opened Ordering
  import opened Metadata
  import opened Cohorts
  import opened Timestamps
  import opened TimestampCache
  import opened StaticPlanning
  import opened StaticReading
  import opened StaticBuilding
  import Catalog
  import CatalogStore
  import Listing

  /** What the catalog filed under `id`, as a reader row: its axis stays behind its hash. */
  predicate ReadsBack(s: Catalog.State, byHash: map<Digest, Features>, id: int, row: Row) {
    && id in s.rows
    && row.meta == Listing.Rehydrated(id, s.rows[id], Listing.FeaturesFor(byHash, s.rows[id].featuresHash), None)
  }

  predicate AllReadBack(s: Catalog.State, byHash: map<Digest, Features>, ids: seq<int>, rows: seq<Row>) {
    |rows| == |ids| && forall k :: 0 <= k < |ids| ==> ReadsBack(s, byHash, ids[k], rows[k])
  }

  /** Every stored vector is strictly increasing, as the write path makes it. */
  ghost predicate AscendingVectors(vectors: Vectors) {
    forall h :: h in vectors ==> Increasing(vectors[h])
  }

  predicate NamesAxis(s: Catalog.State, vectors: Vectors, id: int) {
    id in s.rows && s.rows[id].timestampsHash.Some? && s.rows[id].timestampsHash.value in vectors
  }

  /** The vector the row's own hash names. */
  function NamedVector(s: Catalog.State, vectors: Vectors, id: int): seq<Instant>
    requires NamesAxis(s, vectors, id)
  {
    vectors[s.rows[id].timestampsHash.value]
  }

  /** The series' own axis: explicit instants, or breakpoints it holds its value from. */
  function NamedAxis(s: Catalog.State, vectors: Vectors, id: int): SeriesAxis
    requires NamesAxis(s, vectors, id)
  {
    if s.rows[id].columns.tsType.PersistentTimeSeries? then Steps(NamedVector(s, vectors, id))
    else Explicit(NamedVector(s, vectors, id))
  }

  // ---- one shared vector ---------------------------------------------------------------------------

  function Unvectored(listed: seq<Listing.Listed>): (r: seq<Row>)
    ensures |r| == |listed| && forall k :: 0 <= k < |r| ==> r[k] == Row(listed[k].meta, 0)
  {
    seq(|listed|, k requires 0 <= k < |listed| => Row(listed[k].meta, 0))
  }

  /** No row names any axis but `hash`. */
  predicate OneCohort(s: Catalog.State, ids: seq<int>, hash: Digest) {
    && (forall k :: 0 <= k < |ids| ==> ids[k] in s.rows && (s.rows[ids[k]].timestampsHash.Some? ==> s.rows[ids[k]].timestampsHash.value == hash))
    && (exists k :: 0 <= k < |ids| && ids[k] in s.rows && s.rows[ids[k]].timestampsHash == Some(hash))
  }

  /** A reader over series that share one explicit axis: the matched rows must name one vector between
      them, and that vector is the timeline. */
  method PlanIrregular(sha: Catalog.Sha, s: Catalog.State, filter: Listing.Filter, scan: seq<int>, setScan: seq<Catalog.SetKey>,
                       get: VectorReader, memo: Memo, ghost vectors: Vectors)
    returns (r: Result<StaticPlan>, ghost listed: bool, ghost ids: seq<int>, ghost byHash: map<Digest, Features>, ghost rows: seq<Row>, ghost hash: Digest)
    requires CatalogStore.Lists(scan, s.rows.Keys) && (forall k :: k in setScan <==> k in s.sets)
    requires memo.Valid(vectors) && HonestVectors(get, vectors)
    modifies memo
    ensures memo.Valid(vectors)
    ensures !listed ==> r.Err? && !Listing.NoNulls(s)
    ensures listed ==> AllReadBack(s, byHash, ids, rows) && Matched(sha, s, filter, ids, byHash)
    ensures r.Ok? ==> listed && OneCohort(s, ids, hash) && hash in vectors && r.value.timeline == Irregular(vectors[hash])
    ensures r.Ok? ==> GroupsPartition(r.value.groups, Shared, InColumnOrder(rows))
    ensures r.Ok? ==> forall k :: 0 <= k < |rows| ==> Admits(r.value.timeline, Shared, rows[k])
    ensures listed && (exists h :: OneCohort(s, ids, h)) ==> OneCohort(s, ids, hash)
    ensures listed && OneCohort(s, ids, hash) && get(hash).Ok?
            ==> (r.Ok? <==> GroupsBuildable(Irregular(vectors[hash]), rows, Shared))
  {
    listed, ids, byHash, rows, hash := false, [], map[], [], [];
    var page;
    ghost var selected, times;
    page, selected, byHash, times := Listing.ListInner(sha, s, filter, scan, setScan, None, memo, vectors);
    if page.Err? {
      if Listing.NoNulls(s) {
        Listing.ReadableWithoutNulls(sha, s, selected);
      }
      return Err(page.error), listed, ids, byHash, rows, hash;
    }
    var listing := page.value;
    listed, ids := true, Listing.Surviving(s, filter, byHash, selected);
    var unvectored := Unvectored(listing.rows);
    rows := unvectored;
    ListedReadsBack(s, byHash, times, ids, listing.rows);
    CohortsOf(s, byHash, times, ids, listing.rows);
    assert Matches(sha, s, filter, ids, byHash, selected);
    if |listing.cohorts| != 1 {
      return Err(InvalidParameter), listed, ids, byHash, rows, hash;
    }
    hash := listing.cohorts[0];
    var ts := memo.TimestampsForHash(listing.cohorts[0], get, vectors);
    if ts.Err? {
      return Err(ts.error), listed, ids, byHash, rows, hash;
    }
    r := BuildGroups(Irregular(ts.value), unvectored, Shared);
  }

  /** The rows a filter selects and its in-memory feature test keeps, each once. */
  ghost predicate Matched(sha: Catalog.Sha, s: Catalog.State, filter: Listing.Filter, ids: seq<int>, byHash: map<Digest, Features>) {
    exists selected: seq<int> :: Matches(sha, s, filter, ids, byHash, selected)
  }

  ghost predicate Matches(sha: Catalog.Sha, s: Catalog.State, filter: Listing.Filter, ids: seq<int>, byHash: map<Digest, Features>, selected: seq<int>) {
    && CatalogStore.Lists(selected, set i | i in s.rows && Listing.Selected(filter, i, s.rows[i]))
    && Listing.Hydrated(sha, s, selected, byHash)
    && ids == Listing.Surviving(s, filter, byHash, selected)
  }

  lemma ListedReadsBack(s: Catalog.State, byHash: map<Digest, Features>, times: map<Digest, seq<Instant>>, ids: seq<int>, listed: seq<Listing.Listed>)
    requires Listing.ListsRows(s, byHash, times, ids, listed) && times == map[]
    ensures AllReadBack(s, byHash, ids, Unvectored(listed))
  {
    forall k | 0 <= k < |ids|
      ensures ReadsBack(s, byHash, ids[k], Unvectored(listed)[k])
    {
      assert listed[k] == Listing.ListedRow(s, byHash, times, ids[k]);
    }
  }

  /** The listing's distinct axes are one exactly when the rows are one cohort. */
  lemma CohortsOf(s: Catalog.State, byHash: map<Digest, Features>, times: map<Digest, seq<Instant>>, ids: seq<int>, listed: seq<Listing.Listed>)
    requires Listing.ListsRows(s, byHash, times, ids, listed)
    ensures var cohorts := Listing.FirstSeen(Listing.Axes(listed));
      && (|cohorts| == 1 ==> OneCohort(s, ids, cohorts[0]))
      && (forall h :: OneCohort(s, ids, h) ==> cohorts == [h])
  {
    var axes := Listing.Axes(listed);
    var cohorts := Listing.FirstSeen(axes);
    forall k | 0 <= k < |ids|
      ensures axes[k] == s.rows[ids[k]].timestampsHash
    {
      assert listed[k] == Listing.ListedRow(s, byHash, times, ids[k]);
    }
    if |cohorts| == 1 {
      OnlyCohort(s, ids, axes, cohorts);
    }
    forall h | OneCohort(s, ids, h)
      ensures cohorts == [h]
    {
      CohortIsOnly(s, ids, axes, cohorts, h);
    }
  }

  lemma OnlyCohort(s: Catalog.State, ids: seq<int>, axes: seq<Option<Digest>>, cohorts: seq<Digest>)
    requires |axes| == |ids| && forall k :: 0 <= k < |ids| ==> ids[k] in s.rows && axes[k] == s.rows[ids[k]].timestampsHash
    requires |cohorts| == 1 && forall h :: h in cohorts <==> Some(h) in axes
    ensures OneCohort(s, ids, cohorts[0])
  {
    forall k | 0 <= k < |ids| && axes[k].Some?
      ensures axes[k].value == cohorts[0]
    {
      assert Some(axes[k].value) in axes;
      assert axes[k].value in cohorts;
    }
    assert cohorts[0] in cohorts;
    var k :| 0 <= k < |axes| && axes[k] == Some(cohorts[0]);
    assert s.rows[ids[k]].timestampsHash == Some(cohorts[0]);
  }

  lemma CohortIsOnly(s: Catalog.State, ids: seq<int>, axes: seq<Option<Digest>>, cohorts: seq<Digest>, hash: Digest)
    requires |axes| == |ids| && forall k :: 0 <= k < |ids| ==> ids[k] in s.rows && axes[k] == s.rows[ids[k]].timestampsHash
    requires Unique(cohorts) && (forall h :: h in cohorts <==> Some(h) in axes) && OneCohort(s, ids, hash)
    ensures cohorts == [hash]
  {
    var k :| 0 <= k < |ids| && s.rows[ids[k]].timestampsHash == Some(hash);
    assert axes[k] in axes;
    forall j | 0 <= j < |cohorts|
      ensures cohorts[j] == hash
    {
      assert cohorts[j] in cohorts;
      var i :| 0 <= i < |axes| && axes[i] == Some(cohorts[j]);
    }
    assert hash in cohorts;
    assert cohorts[0] == cohorts[|cohorts| - 1];
  }

  /** Every row that names an axis sits on it: the timeline is that very vector. */
  lemma IrregularRowsSitOnTheirOwn(s: Catalog.State, byHash: map<Digest, Features>, ids: seq<int>, rows: seq<Row>, vectors: Vectors, hash: Digest, k: nat)
    requires AllReadBack(s, byHash, ids, rows) && OneCohort(s, ids, hash) && hash in vectors && AscendingVectors(vectors)
    requires k < |rows| && Admits(Irregular(vectors[hash]), Shared, rows[k])
    ensures s.rows[ids[k]].timestampsHash.Some? <==> NamesAxis(s, vectors, ids[k])
    ensures NamesAxis(s, vectors, ids[k]) ==> SitsOn(Irregular(vectors[hash]), Shared, rows[k], NamedAxis(s, vectors, ids[k]))
  {
    assert ReadsBack(s, byHash, ids[k], rows[k]);
    assert ids[k] in s.rows;
  }

  /** What the cohort check lets through: a row of the right length that names no axis joins any cohort
      that builds, and the cohort still builds. */
  lemma UnnamedRowJoins(s: Catalog.State, byHash: map<Digest, Features>, ids: seq<int>, rows: seq<Row>, hash: Digest, ts: seq<Instant>, id: int, row: Row)
    requires AllReadBack(s, byHash, ids, rows) && OneCohort(s, ids, hash) && GroupsBuildable(Irregular(ts), rows, Shared)
    requires ReadsBack(s, byHash, id, row) && s.rows[id].timestampsHash.None?
    requires Admits(Irregular(ts), Shared, row) && row.meta.timeReference in References(MetasOf(rows))
    ensures forall vectors: Vectors :: !NamesAxis(s, vectors, id)
    ensures AllReadBack(s, byHash, ids + [id], rows + [row]) && OneCohort(s, ids + [id], hash)
    ensures GroupsBuildable(Irregular(ts), rows + [row], Shared)
  {
    JoinsReadBack(s, byHash, ids, rows, id, row);
    JoinsCohort(s, ids, hash, id);
    KeepsReferences(MetasOf(rows), row.meta);
    assert MetasOf(rows + [row]) == MetasOf(rows) + [row.meta];
  }

  lemma JoinsReadBack(s: Catalog.State, byHash: map<Digest, Features>, ids: seq<int>, rows: seq<Row>, id: int, row: Row)
    requires AllReadBack(s, byHash, ids, rows) && ReadsBack(s, byHash, id, row)
    ensures AllReadBack(s, byHash, ids + [id], rows + [row])
  {
    forall k | 0 <= k < |ids| + 1
      ensures ReadsBack(s, byHash, (ids + [id])[k], (rows + [row])[k])
    {
      if k < |ids| {
        assert ReadsBack(s, byHash, ids[k], rows[k]);
      }
    }
  }

  lemma JoinsCohort(s: Catalog.State, ids: seq<int>, hash: Digest, id: int)
    requires OneCohort(s, ids, hash) && id in s.rows && s.rows[id].timestampsHash.None?
    ensures OneCohort(s, ids + [id], hash)
  {
    var k :| 0 <= k < |ids| && ids[k] in s.rows && s.rows[ids[k]].timestampsHash == Some(hash);
    assert (ids + [id])[k] == ids[k];
  }

  lemma KeepsReferences(metas: seq<TimeSeriesMetadata>, m: TimeSeriesMetadata)
    requires m.timeReference in References(metas)
    ensures References(metas + [m]) == References(metas)
  {
    assert forall i :: 0 <= i < |metas| ==> (metas + [m])[i] == metas[i];
  }

  predicate SomeRowUnnamed(s: Catalog.State) { exists i :: i in s.rows && s.rows[i].timestampsHash.None? }

  // ---- many vectors -----------------------------------------------------------------------------------

  function Vectored(tagged: seq<Listing.TimelineRow>): (r: seq<Row>)
    ensures |r| == |tagged| && forall k :: 0 <= k < |r| ==> r[k] == Row(tagged[k].meta, tagged[k].axis)
  {
    seq(|tagged|, k requires 0 <= k < |tagged| => Row(tagged[k].meta, tagged[k].axis))
  }

  /** Row `k` resolves on the vector its own hash names. */
  predicate OnNamedVector(s: Catalog.State, vectors: Vectors, id: int, axes: seq<seq<Instant>>, row: Row) {
    NamesAxis(s, vectors, id) && row.companion < |axes| && axes[row.companion] == NamedVector(s, vectors, id)
  }

  predicate AllOnNamedVectors(s: Catalog.State, vectors: Vectors, ids: seq<int>, axes: seq<seq<Instant>>, rows: seq<Row>) {
    |rows| == |ids| && forall k :: 0 <= k < |ids| ==> OnNamedVector(s, vectors, ids[k], axes, rows[k])
  }

  /** A reader over step functions on any number of axes: every row is interned against the vector it
      names, and the public axis is the union. */
  method PlanPersistent(sha: Catalog.Sha, s: Catalog.State, filter: Listing.Filter, scan: seq<int>, setScan: seq<Catalog.SetKey>,
                        get: VectorReader, memo: Memo, ghost vectors: Vectors)
    returns (r: Result<StaticPlan>, ghost listed: bool, ghost ids: seq<int>, ghost byHash: map<Digest, Features>, ghost rows: seq<Row>, ghost axes: seq<seq<Instant>>)
    requires CatalogStore.Lists(scan, s.rows.Keys) && (forall k :: k in setScan <==> k in s.sets)
    requires memo.Valid(vectors) && HonestVectors(get, vectors)
    modifies memo
    ensures memo.Valid(vectors)
    ensures !listed ==> r.Err? && (!Listing.NoNulls(s) || SomeRowUnnamed(s) || exists h :: get(h) == Err(r.error))
    ensures listed ==> AllReadBack(s, byHash, ids, rows) && Matched(sha, s, filter, ids, byHash)
    ensures listed ==> AllOnNamedVectors(s, vectors, ids, axes, rows)
    ensures r.Ok? ==> listed && r.value.timeline == Persistent(axes, MergeBreakpoints(axes))
    ensures r.Ok? ==> GroupsPartition(r.value.groups, Vector, InColumnOrder(rows))
    ensures r.Ok? ==> forall k :: 0 <= k < |rows| ==> Admits(r.value.timeline, Vector, rows[k])
    ensures listed ==> (r.Ok? <==> GroupsBuildable(Persistent(axes, MergeBreakpoints(axes)), rows, Vector))
  {
    listed, rows, axes := false, [], [];
    var tagged;
    ghost var selected, cohorts;
    tagged, selected, byHash, cohorts := Listing.ListTimelineRows(sha, s, filter, scan, setScan, get, memo, vectors);
    ids := [];
    if tagged.Err? {
      if Listing.NoNulls(s) {
        Listing.ReadableWithoutNulls(sha, s, selected);
      }
      ghost var kept := Listing.Surviving(s, filter, byHash, selected);
      if k :| 0 <= k < |kept| && kept[k] in s.rows && s.rows[kept[k]].timestampsHash.None? {
        ghost var id := kept[k];
        assert id in s.rows && s.rows[id].timestampsHash.None?;
      }
      return Err(tagged.error), listed, ids, byHash, rows, axes;
    }
    var timelines := tagged.value;
    var vectored := Vectored(timelines.rows);
    listed, ids, rows, axes := true, Listing.Surviving(s, filter, byHash, selected), vectored, timelines.axes;
    assert Matches(sha, s, filter, ids, byHash, selected);
    TaggedRowsAreOnTheirOwn(s, byHash, ids, vectors, cohorts, timelines);
    if vectored == [] {
      return Err(InvalidParameter), listed, ids, byHash, rows, axes;
    }
    r := BuildGroups(Persistent(timelines.axes, MergeBreakpoints(timelines.axes)), vectored, Vector);
  }

  lemma TaggedRowsAreOnTheirOwn(s: Catalog.State, byHash: map<Digest, Features>, ids: seq<int>, vectors: Vectors, cohorts: seq<Digest>, timelines: Listing.Timelines)
    requires Listing.Decodes(cohorts, vectors, timelines.axes) && Listing.Interned(s, byHash, ids, cohorts, timelines.rows)
    ensures AllReadBack(s, byHash, ids, Vectored(timelines.rows))
    ensures AllOnNamedVectors(s, vectors, ids, timelines.axes, Vectored(timelines.rows))
  {
    forall k | 0 <= k < |ids|
      ensures ReadsBack(s, byHash, ids[k], Vectored(timelines.rows)[k])
      ensures OnNamedVector(s, vectors, ids[k], timelines.axes, Vectored(timelines.rows)[k])
    {
      assert Listing.OnAxis(s, byHash, ids[k], cohorts, timelines.rows[k]);
    }
  }

  lemma PersistentRowsSitOnTheirOwn(s: Catalog.State, byHash: map<Digest, Features>, ids: seq<int>, rows: seq<Row>, vectors: Vectors, axes: seq<seq<Instant>>, k: nat)
    requires AllReadBack(s, byHash, ids, rows) && AllOnNamedVectors(s, vectors, ids, axes, rows) && AscendingVectors(vectors)
    requires k < |rows| && Admits(Persistent(axes, MergeBreakpoints(axes)), Vector, rows[k])
    ensures NamesAxis(s, vectors, ids[k])
    ensures SitsOn(Persistent(axes, MergeBreakpoints(axes)), Vector, rows[k], NamedAxis(s, vectors, ids[k]))
  {
    assert ReadsBack(s, byHash, ids[k], rows[k]) && OnNamedVector(s, vectors, ids[k], axes, rows[k]);
  }

  // ---- what a read of either returns -------------------------------------------------------------------

  /** `axes` are the rows' axes as the reader takes them: its own, where the catalog row names one. */
  predicate AxesOfRows(s: Catalog.State, vectors: Vectors, ids: seq<int>, axes: seq<SeriesAxis>) {
    |axes| == |ids| && forall k :: 0 <= k < |ids| && NamesAxis(s, vectors, ids[k]) ==> axes[k] == NamedAxis(s, vectors, ids[k])
  }

  /** Column `j` of group `g` is one of the matched series, and its bytes are, if its catalog row names an
      axis, that series' value at `at` on that axis. */
  ghost predicate ShowsItsOwn(s: Catalog.State, vectors: Vectors, ids: seq<int>, rows: seq<Row>, g: GroupPlan, at: Instant, values: seq<Byte>, j: nat, contents: Contents)
    requires SoundContents(contents) && |ids| == |rows|
  {
    exists i: nat, row: nat :: IsValueOf(s, vectors, ids, rows, g, at, values, j, contents, i, row)
  }

  ghost predicate IsValueOf(s: Catalog.State, vectors: Vectors, ids: seq<int>, rows: seq<Row>, g: GroupPlan, at: Instant, values: seq<Byte>, j: nat, contents: Contents, i: nat, row: nat)
    requires SoundContents(contents) && |ids| == |rows|
  {
    && i < |rows| && j < |g.ids| && rows[i].meta.id == Some(g.ids[j]) && rows[i].meta.id == Some(ids[i])
    && (NamesAxis(s, vectors, ids[i]) ==> ValueAt(NamedAxis(s, vectors, ids[i]), row, at))
    && HasRows(contents, rows[i].meta.dataHash, OneRow(row))
    && 0 <= j * ColumnSize(g) <= j * ColumnSize(g) + ColumnSize(g) <= |values|
    && values[j * ColumnSize(g)..j * ColumnSize(g) + ColumnSize(g)] == RowBytes(contents, rows[i].meta.dataHash, OneRow(row))
  }

  /** After a successful read of a planned explicit-axis reader, every column whose row names an axis shows
      its series' value on it. */
  lemma ReadIsOnTheNamedAxis(plan: StaticPlan, role: ColumnRole, s: Catalog.State, byHash: map<Digest, Features>, vectors: Vectors, ids: seq<int>, rows: seq<Row>,
                             axes: seq<SeriesAxis>, at: Instant, g: nat, values: seq<Byte>, j: nat, contents: Contents)
    requires RoleFits(plan.timeline, role) && !role.Offset? && Stored(rows, contents) && AllReadBack(s, byHash, ids, rows)
    requires AxesOfRows(s, vectors, ids, axes)
    requires forall k :: 0 <= k < |rows| ==> Admits(plan.timeline, role, rows[k]) && SitsOn(plan.timeline, role, rows[k], axes[k])
    requires GroupsPartition(plan.groups, role, InColumnOrder(rows))
    requires g < |plan.groups| && j < |plan.groups[g].ids|
    requires Shows(plan.timeline, role, plan.groups[g], at, values, contents)
    ensures ShowsItsOwn(s, vectors, ids, rows, plan.groups[g], at, values, j, contents)
  {
    var i, row := ReadIsEachSeriesAtItsOwnInstant(plan, role, rows, axes, at, g, values, j, contents);
    assert ReadsBack(s, byHash, ids[i], rows[i]);
    assert IsValueOf(s, vectors, ids, rows, plan.groups[g], at, values, j, contents, i, row);
  }

  /** The shared-axis reader, end to end from the catalog, column by column: a row that names no axis does
      not spoil the ones that do. */
  lemma IrregularReadIsOwn(plan: StaticPlan, s: Catalog.State, byHash: map<Digest, Features>, vectors: Vectors, ids: seq<int>, rows: seq<Row>, hash: Digest,
                           at: Instant, g: nat, values: seq<Byte>, j: nat, contents: Contents)
    requires AllReadBack(s, byHash, ids, rows) && OneCohort(s, ids, hash) && hash in vectors && AscendingVectors(vectors)
    requires plan.timeline == Irregular(vectors[hash]) && Stored(rows, contents)
    requires forall k :: 0 <= k < |rows| ==> Admits(plan.timeline, Shared, rows[k])
    requires GroupsPartition(plan.groups, Shared, InColumnOrder(rows)) && g < |plan.groups| && j < |plan.groups[g].ids|
    requires Shows(plan.timeline, Shared, plan.groups[g], at, values, contents)
    ensures ShowsItsOwn(s, vectors, ids, rows, plan.groups[g], at, values, j, contents)
  {
    var axes := seq(|ids|, _ => Explicit(vectors[hash]));
    forall k | 0 <= k < |rows|
      ensures NamesAxis(s, vectors, ids[k]) ==> axes[k] == NamedAxis(s, vectors, ids[k])
    {
      IrregularRowsSitOnTheirOwn(s, byHash, ids, rows, vectors, hash, k);
    }
    ReadIsOnTheNamedAxis(plan, Shared, s, byHash, vectors, ids, rows, axes, at, g, values, j, contents);
  }

  function NamedAxes(s: Catalog.State, vectors: Vectors, ids: seq<int>): (r: seq<SeriesAxis>)
    requires forall k :: 0 <= k < |ids| ==> NamesAxis(s, vectors, ids[k])
    ensures |r| == |ids| && forall k :: 0 <= k < |ids| ==> r[k] == NamedAxis(s, vectors, ids[k])
  {
    seq(|ids|, k requires 0 <= k < |ids| => NamedAxis(s, vectors, ids[k]))
  }

  /** The per-vector reader, end to end from the catalog: every row names an axis, so every column shows its
      series' value on its own. */
  lemma PersistentReadIsOwn(plan: StaticPlan, s: Catalog.State, byHash: map<Digest, Features>, vectors: Vectors, ids: seq<int>, rows: seq<Row>, axes: seq<seq<Instant>>,
                            at: Instant, g: nat, values: seq<Byte>, j: nat, contents: Contents)
    requires AllReadBack(s, byHash, ids, rows) && AllOnNamedVectors(s, vectors, ids, axes, rows) && AscendingVectors(vectors)
    requires plan.timeline == Persistent(axes, MergeBreakpoints(axes)) && Stored(rows, contents)
    requires forall k :: 0 <= k < |rows| ==> Admits(plan.timeline, Vector, rows[k])
    requires GroupsPartition(plan.groups, Vector, InColumnOrder(rows)) && g < |plan.groups| && j < |plan.groups[g].ids|
    requires Shows(plan.timeline, Vector, plan.groups[g], at, values, contents)
    ensures forall k :: 0 <= k < |ids| ==> NamesAxis(s, vectors, ids[k])
    ensures ShowsItsOwn(s, vectors, ids, rows, plan.groups[g], at, values, j, contents)
  {
    forall k | 0 <= k < |rows|
      ensures NamesAxis(s, vectors, ids[k]) && SitsOn(plan.timeline, Vector, rows[k], NamedAxis(s, vectors, ids[k]))
    {
      PersistentRowsSitOnTheirOwn(s, byHash, ids, rows, vectors, axes, k);
    }
    var named := NamedAxes(s, vectors, ids);
    ReadIsOnTheNamedAxis(plan, Vector, s, byHash, vectors, ids, rows, named, at, g, values, j, contents);
  }
}
