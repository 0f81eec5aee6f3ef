/** Driving a static reader: one timestamp, every series at its own instant
    (reader.rs, StaticGroup and StaticReader; store.rs, static_read). */
module StaticReading {
  import opened Wrappers
  import opened Arrays
  import opened Storage
  import opened Metadata
  import opened Grids
  import opened Timestamps
  import opened StaticPlanning

  /** The two backend seams: one row index for a whole batch, or one per column. */
  type UniformRead = (seq<Digest>, Dtype, nat) -> Reply
  type ScatteredRead = (seq<Digest>, Dtype, seq<nat>) -> Reply

  ghost predicate HonestUniform(read: UniformRead, contents: Contents)
    requires SoundContents(contents)
  {
    forall hs: seq<Digest>, d: Dtype, i: nat :: read(hs, d, i).result.Ok? ==>
      Holds(contents, hs, Same(|hs|, i), read(hs, d, i).out)
  }

  ghost predicate HonestScattered(read: ScatteredRead, contents: Contents)
    requires SoundContents(contents)
  {
    forall hs: seq<Digest>, d: Dtype, rows: seq<nat> :: read(hs, d, rows).result.Ok? && |rows| == |hs| ==>
      Holds(contents, hs, rows, read(hs, d, rows).out)
  }

  /** Every array named holds `dtype`. */
  predicate OfDtype(contents: Contents, hashes: seq<Digest>, dtype: Dtype) {
    forall j :: 0 <= j < |hashes| ==> hashes[j] in contents && contents[hashes[j]].dtype == dtype
  }

  /** Nothing fails: rows that are there, asked for at their own dtype, are read. */
  ghost predicate Reliable(uniform: UniformRead, scattered: ScatteredRead, contents: Contents) {
    && (forall hs: seq<Digest>, d: Dtype, i: nat :: RowsPresent(contents, hs, Same(|hs|, i)) && OfDtype(contents, hs, d)
                                                    ==> uniform(hs, d, i).result.Ok?)
    && (forall hs: seq<Digest>, d: Dtype, rows: seq<nat> :: RowsPresent(contents, hs, rows) && OfDtype(contents, hs, d)
                                                            ==> scattered(hs, d, rows).result.Ok?)
  }

  /** `bytes` is row `rows[j]` of array `hashes[j]`, column after column. */
  ghost predicate Holds(contents: Contents, hashes: seq<Digest>, rows: seq<nat>, bytes: seq<Byte>)
    requires SoundContents(contents)
  {
    RowsPresent(contents, hashes, rows) && bytes == GatheredRows(contents, hashes, rows)
  }

  class StaticGroup {
    const plan: GroupPlan
    var rows: seq<nat>
    var buf: seq<Byte>
    var filled: bool

    constructor (plan: GroupPlan)
      ensures this.plan == plan && !filled
    {
      this.plan := plan;
      rows, buf, filled := [], [], false;
    }

    function Values(): seq<Byte>
      reads this
    {
      if filled then buf else []
    }

    /** Cleared before the read, so a failure leaves the group empty. */
    method Fill(index: nat, read: UniformRead, ghost contents: Contents) returns (r: Result<()>)
      requires SoundContents(contents) && HonestUniform(read, contents)
      modifies this`buf, this`filled
      ensures r.Ok? ==> filled && Holds(contents, plan.hashes, Same(|plan.hashes|, index), Values())
      ensures r.Err? ==> Values() == []
      ensures r.Ok? <==> read(plan.hashes, plan.elementType.PhysicalDtype(), index).result.Ok?
    {
      filled := false;
      var reply := read(plan.hashes, plan.elementType.PhysicalDtype(), index);
      buf := reply.out;
      if reply.result.Err? {
        return Err(reply.result.error);
      }
      filled := true;
      return Ok(());
    }

    /** One row per column, through the reader's per-vector rows. A failure leaves `filled` as
        it was: only the reader's own invalidation makes the group read as empty. */
    method FillPerVector(perVector: seq<nat>, read: ScatteredRead, ghost contents: Contents) returns (r: Result<()>)
      requires SoundContents(contents) && HonestScattered(read, contents) && |plan.vectorIds| == |plan.hashes|
      modifies this`rows, this`buf, this`filled
      ensures r.Ok? ==> filled && forall j :: 0 <= j < |plan.vectorIds| ==> plan.vectorIds[j] < |perVector|
      ensures r.Ok? ==> Holds(contents, plan.hashes, Mapped(plan.vectorIds, perVector), Values())
      ensures r.Err? ==> filled == old(filled)
      ensures r.Ok? <==> (forall j :: 0 <= j < |plan.vectorIds| ==> plan.vectorIds[j] < |perVector|)
                         && read(plan.hashes, plan.elementType.PhysicalDtype(), Mapped(plan.vectorIds, perVector)).result.Ok?
    {
      rows := [];
      var j := 0;
      while j < |plan.vectorIds|
        invariant 0 <= j <= |plan.vectorIds| && filled == old(filled)
        invariant forall k :: 0 <= k < j ==> plan.vectorIds[k] < |perVector|
        invariant rows == Mapped(plan.vectorIds[..j], perVector)
      {
        if plan.vectorIds[j] >= |perVector| {
          return Err(IntegrityError);
        }
        rows := rows + [perVector[plan.vectorIds[j]]];
        j := j + 1;
      }
      assert plan.vectorIds[..j] == plan.vectorIds;
      var reply := read(plan.hashes, plan.elementType.PhysicalDtype(), rows);
      buf := reply.out;
      if reply.result.Err? {
        return Err(reply.result.error);
      }
      filled := true;
      return Ok(());
    }

    /** One index for the reader, shifted by each column's own offset. */
    method FillAtOffsets(index: nat, read: ScatteredRead, ghost contents: Contents) returns (r: Result<()>)
      requires SoundContents(contents) && HonestScattered(read, contents) && |plan.rowOffsets| == |plan.hashes|
      modifies this`rows, this`buf, this`filled
      ensures r.Ok? ==> filled && Holds(contents, plan.hashes, Shifted(plan.rowOffsets, index), Values())
      ensures r.Err? ==> filled == old(filled)
      ensures r.Ok? <==> read(plan.hashes, plan.elementType.PhysicalDtype(), Shifted(plan.rowOffsets, index)).result.Ok?
    {
      rows := Shifted(plan.rowOffsets, index);
      var reply := read(plan.hashes, plan.elementType.PhysicalDtype(), rows);
      buf := reply.out;
      if reply.result.Err? {
        return Err(reply.result.error);
      }
      filled := true;
      return Ok(());
    }
  }

  function Mapped(ids: seq<nat>, perVector: seq<nat>): (r: seq<nat>)
    requires forall j :: 0 <= j < |ids| ==> ids[j] < |perVector|
    ensures |r| == |ids|
  {
    seq(|ids|, j requires 0 <= j < |ids| => perVector[ids[j]])
  }

  function Shifted(offsets: seq<nat>, index: nat): seq<nat> {
    seq(|offsets|, j requires 0 <= j < |offsets| => index + offsets[j])
  }

  // ---- which row a column reads -------------------------------------------------------

  /** Position of `at` on the reader's public axis. */
  function ReaderIndex(timeline: Timeline, at: Instant): Result<nat> {
    match timeline
    case Regular(initial, resolution, length) => IndexOnGrid(initial, resolution, length, at)
    case Irregular(ts) => OnAxis(FindExact(ts, at))
    case Persistent(_, union) => OnAxis(IndexAt(union, at))
  }

  function OnAxis(i: Option<nat>): Result<nat> {
    if i.None? then Err(InvalidParameter) else Ok(i.value)
  }

  function TimestampAt(timeline: Timeline, index: nat): Result<Instant> {
    match timeline
    case Regular(initial, resolution, length) => TimestampOnGrid(initial, resolution, length, index)
    case Irregular(ts) => if index < |ts| then Ok(ts[index]) else Err(InvalidParameter)
    case Persistent(_, union) => if index < |union| then Ok(union[index]) else Err(InvalidParameter)
  }

  /** An axis whose points are distinct and ascending. */
  predicate AxisLegal(timeline: Timeline) {
    match timeline
    case Regular(_, resolution, length) => Steppable(resolution, length)
    case Irregular(ts) => Increasing(ts)
    case Persistent(_, union) => Increasing(union)
  }

  /** Indices and instants of the public axis undo each other on all three timelines; a per-vector reader
      also takes the instants in between, which it carries to the breakpoint in force. */
  lemma AxisInverse(timeline: Timeline, i: nat, at: Instant)
    requires AxisLegal(timeline)
    ensures TimestampAt(timeline, i) == Ok(at) ==> ReaderIndex(timeline, at) == Ok(i)
    ensures ReaderIndex(timeline, at) == Ok(i) ==>
      if timeline.Persistent? then InForce(timeline.union, i, at) && TimestampAt(timeline, i) == Ok(timeline.union[i])
      else TimestampAt(timeline, i) == Ok(at)
  {
    match timeline
    case Regular(initial, resolution, length) => GridInverse(initial, resolution, length, i, at);
    case Irregular(ts) =>
      if i < |ts| && ts[i] == at {
        BreakpointIsItsOwn(ts, i);
      }
    case Persistent(_, union) =>
      if i < |union| && union[i] == at {
        BreakpointIsItsOwn(union, i);
      }
  }

  /** The storage row a column reads at `at`. */
  function RowFor(timeline: Timeline, companion: nat, at: Instant): Result<nat> {
    match timeline
    case Persistent(vectors, _) =>
      if companion < |vectors| then OnAxis(IndexAt(vectors[companion], at)) else Err(IntegrityError)
    case _ =>
      var index :- ReaderIndex(timeline, at);
      Ok(index + companion)
  }

  ghost predicate AllResolve(timeline: Timeline, role: ColumnRole, g: GroupPlan, at: Instant)
    requires g.Parallel(role)
  {
    forall j :: 0 <= j < |g.ids| ==> RowFor(timeline, g.CompanionAt(role, j), at).Ok?
  }

  ghost function TargetRows(timeline: Timeline, role: ColumnRole, g: GroupPlan, at: Instant): seq<nat>
    requires g.Parallel(role) && AllResolve(timeline, role, g, at)
  {
    seq(|g.ids|, j requires 0 <= j < |g.ids| => RowFor(timeline, g.CompanionAt(role, j), at).value)
  }

  /** Group `g` shows every column at its own row for `at`. */
  ghost predicate Shows(timeline: Timeline, role: ColumnRole, g: GroupPlan, at: Instant, values: seq<Byte>, contents: Contents)
    requires SoundContents(contents) && g.Parallel(role)
  {
    AllResolve(timeline, role, g, at) && Holds(contents, g.hashes, TargetRows(timeline, role, g, at), values)
  }

  ghost predicate GroupReadable(timeline: Timeline, role: ColumnRole, g: GroupPlan, at: Instant, contents: Contents)
    requires SoundContents(contents) && g.Parallel(role)
  {
    && AllResolve(timeline, role, g, at)
    && RowsPresent(contents, g.hashes, TargetRows(timeline, role, g, at))
    && OfDtype(contents, g.hashes, g.elementType.PhysicalDtype())
  }

  class StaticReader {
    const timeline: Timeline
    ghost const role: ColumnRole
    const groups: seq<StaticGroup>
    var perVector: seq<nat>

    constructor (timeline: Timeline, ghost role: ColumnRole, groups: seq<StaticGroup>)
      ensures this.timeline == timeline && this.role == role && this.groups == groups
    {
      this.timeline, this.role, this.groups := timeline, role, groups;
      perVector := [];
    }

    ghost predicate Valid() {
      && RoleFits(timeline, role)
      && (forall i, j :: 0 <= i < j < |groups| ==> groups[i] != groups[j])
      && (forall g :: 0 <= g < |groups| ==> groups[g].plan.Parallel(role))
    }

    method Invalidate()
      requires Valid()
      modifies groups
      ensures forall g :: 0 <= g < |groups| ==> groups[g].Values() == []
    {
      var g := 0;
      while g < |groups|
        invariant 0 <= g <= |groups|
        invariant forall h :: 0 <= h < g ==> groups[h].Values() == []
      {
        groups[g].filled := false;
        g := g + 1;
      }
    }

    /** Every axis has a row in force at `at`, and every column's row is there to be read. */
    ghost predicate Readable(at: Instant, contents: Contents)
      requires Valid() && SoundContents(contents)
    {
      && (if timeline.Persistent? then forall v :: 0 <= v < |timeline.vectors| ==> IndexAt(timeline.vectors[v], at).Some?
          else ReaderIndex(timeline, at).Ok?)
      && (forall g :: 0 <= g < |groups| ==> GroupReadable(timeline, role, groups[g].plan, at, contents))
    }

    /** Fill every group with the value of each column at `at`. */
    method ReadAt(at: Instant, uniform: UniformRead, scattered: ScatteredRead, ghost contents: Contents)
      returns (r: Result<()>)
      requires Valid() && SoundContents(contents)
      requires HonestUniform(uniform, contents) && HonestScattered(scattered, contents)
      modifies this`perVector, groups
      ensures r.Ok? ==> forall g :: 0 <= g < |groups| ==>
                Shows(timeline, role, groups[g].plan, at, groups[g].Values(), contents)
      ensures Readable(at, contents) && Reliable(uniform, scattered, contents) ==> r.Ok?
    {
      if timeline.Persistent? {
        r := ReadPersistent(at, uniform, scattered, contents);
        return;
      }
      var index :- ReaderIndex(timeline, at);
      var g := 0;
      while g < |groups|
        invariant 0 <= g <= |groups|
        invariant forall h :: 0 <= h < g ==> Shows(timeline, role, groups[h].plan, at, groups[h].Values(), contents)
      {
        var f := FillShared(g, index, at, uniform, scattered, contents);
        if f.Err? {
          return f;
        }
        g := g + 1;
      }
      return Ok(());
    }

    /** Fill group `g` off the one shared index. */
    method FillShared(g: nat, index: nat, at: Instant, uniform: UniformRead, scattered: ScatteredRead, ghost contents: Contents)
      returns (r: Result<()>)
      requires Valid() && SoundContents(contents) && g < |groups|
      requires !timeline.Persistent? && ReaderIndex(timeline, at) == Ok(index)
      requires HonestUniform(uniform, contents) && HonestScattered(scattered, contents)
      modifies groups[g]
      ensures r.Ok? ==> Shows(timeline, role, groups[g].plan, at, groups[g].Values(), contents)
      ensures GroupReadable(timeline, role, groups[g].plan, at, contents) && Reliable(uniform, scattered, contents) ==> r.Ok?
    {
      var plan := groups[g].plan;
      if plan.rowOffsets == [] {
        r := groups[g].Fill(index, uniform, contents);
        if r.Ok? {
          UniformShows(plan, index, at, groups[g].Values(), contents);
        } else {
          UniformTargets(plan, index, at);
        }
      } else {
        r := groups[g].FillAtOffsets(index, scattered, contents);
        if r.Ok? {
          OffsetsShow(plan, index, at, groups[g].Values(), contents);
        } else {
          OffsetTargets(plan, index, at);
        }
      }
    }

    lemma UniformTargets(plan: GroupPlan, index: nat, at: Instant)
      requires RoleFits(timeline, role) && !timeline.Persistent?
      requires plan.Parallel(role) && plan.rowOffsets == [] && ReaderIndex(timeline, at) == Ok(index)
      ensures AllResolve(timeline, role, plan, at) && TargetRows(timeline, role, plan, at) == Same(|plan.hashes|, index)
    {}

    lemma OffsetTargets(plan: GroupPlan, index: nat, at: Instant)
      requires RoleFits(timeline, role) && !timeline.Persistent?
      requires plan.Parallel(role) && plan.rowOffsets != [] && ReaderIndex(timeline, at) == Ok(index)
      ensures AllResolve(timeline, role, plan, at) && TargetRows(timeline, role, plan, at) == Shifted(plan.rowOffsets, index)
    {}

    lemma UniformShows(plan: GroupPlan, index: nat, at: Instant, values: seq<Byte>, contents: Contents)
      requires RoleFits(timeline, role) && !timeline.Persistent? && SoundContents(contents)
      requires plan.Parallel(role) && plan.rowOffsets == [] && ReaderIndex(timeline, at) == Ok(index)
      requires Holds(contents, plan.hashes, Same(|plan.hashes|, index), values)
      ensures Shows(timeline, role, plan, at, values, contents)
    {
      UniformTargets(plan, index, at);
    }

    lemma OffsetsShow(plan: GroupPlan, index: nat, at: Instant, values: seq<Byte>, contents: Contents)
      requires RoleFits(timeline, role) && !timeline.Persistent? && SoundContents(contents)
      requires plan.Parallel(role) && plan.rowOffsets != [] && ReaderIndex(timeline, at) == Ok(index)
      requires Holds(contents, plan.hashes, Shifted(plan.rowOffsets, index), values)
      ensures Shows(timeline, role, plan, at, values, contents)
    {
      OffsetTargets(plan, index, at);
    }

    /** Resolve a row per interned vector once, then scatter. */
    method ReadPersistent(at: Instant, ghost uniform: UniformRead, scattered: ScatteredRead, ghost contents: Contents) returns (r: Result<()>)
      requires Valid() && SoundContents(contents) && timeline.Persistent?
      requires HonestScattered(scattered, contents)
      modifies this`perVector, groups
      ensures r.Ok? ==> forall g :: 0 <= g < |groups| ==>
                Shows(timeline, role, groups[g].plan, at, groups[g].Values(), contents)
      ensures Readable(at, contents) && Reliable(uniform, scattered, contents) ==> r.Ok?
    {
      r := ResolveVectors(at);
      if r.Err? {
        return;
      }
      var resolved := perVector;
      var g := 0;
      while g < |groups|
        invariant 0 <= g <= |groups|
        invariant forall h :: 0 <= h < g ==> Shows(timeline, role, groups[h].plan, at, groups[h].Values(), contents)
      {
        var f := FillResolved(g, resolved, at, uniform, scattered, contents);
        if f.Err? {
          return f;
        }
        g := g + 1;
      }
      return Ok(());
    }

    method ResolveVectors(at: Instant) returns (r: Result<()>)
      requires timeline.Persistent?
      modifies this`perVector
      ensures r.Ok? <==> forall v :: 0 <= v < |timeline.vectors| ==> IndexAt(timeline.vectors[v], at).Some?
      ensures r.Ok? ==> |perVector| == |timeline.vectors|
      ensures r.Ok? ==> forall k :: 0 <= k < |perVector| ==> IndexAt(timeline.vectors[k], at) == Some(perVector[k])
    {
      perVector := [];
      var v := 0;
      while v < |timeline.vectors|
        invariant 0 <= v <= |timeline.vectors| && |perVector| == v
        invariant forall k :: 0 <= k < v ==> IndexAt(timeline.vectors[k], at) == Some(perVector[k])
      {
        var row := IndexAt(timeline.vectors[v], at);
        if row.None? {
          return Err(InvalidParameter);
        }
        perVector := perVector + [row.value];
        v := v + 1;
      }
      return Ok(());
    }

    /** Fill group `g` off the row of each interned vector. */
    method FillResolved(g: nat, resolved: seq<nat>, at: Instant, ghost uniform: UniformRead, scattered: ScatteredRead, ghost contents: Contents)
      returns (r: Result<()>)
      requires Valid() && SoundContents(contents) && timeline.Persistent? && g < |groups|
      requires HonestScattered(scattered, contents) && |resolved| == |timeline.vectors|
      requires forall k :: 0 <= k < |resolved| ==> IndexAt(timeline.vectors[k], at) == Some(resolved[k])
      modifies groups[g]
      ensures r.Ok? ==> Shows(timeline, role, groups[g].plan, at, groups[g].Values(), contents)
      ensures GroupReadable(timeline, role, groups[g].plan, at, contents) && Reliable(uniform, scattered, contents) ==> r.Ok?
    {
      if AllResolve(timeline, role, groups[g].plan, at) {
        VectorTargets(groups[g].plan, resolved, at);
      }
      r := groups[g].FillPerVector(resolved, scattered, contents);
      if r.Ok? {
        VectorsShow(groups[g].plan, resolved, at, groups[g].Values(), contents);
      }
    }

    /** When every column resolves, the per-vector rows are the target rows. */
    lemma VectorTargets(plan: GroupPlan, resolved: seq<nat>, at: Instant)
      requires RoleFits(timeline, role) && timeline.Persistent? && plan.Parallel(role) && AllResolve(timeline, role, plan, at)
      requires |resolved| == |timeline.vectors|
      requires forall k :: 0 <= k < |resolved| ==> IndexAt(timeline.vectors[k], at) == Some(resolved[k])
      ensures forall j :: 0 <= j < |plan.vectorIds| ==> plan.vectorIds[j] < |resolved|
      ensures Mapped(plan.vectorIds, resolved) == TargetRows(timeline, role, plan, at)
    {
      forall j | 0 <= j < |plan.vectorIds|
        ensures plan.vectorIds[j] < |resolved|
      {
        assert RowFor(timeline, plan.CompanionAt(role, j), at).Ok?;
      }
    }

    lemma VectorsShow(plan: GroupPlan, resolved: seq<nat>, at: Instant, values: seq<Byte>, contents: Contents)
      requires RoleFits(timeline, role) && timeline.Persistent? && SoundContents(contents) && plan.Parallel(role)
      requires |resolved| == |timeline.vectors|
      requires forall k :: 0 <= k < |resolved| ==> IndexAt(timeline.vectors[k], at) == Some(resolved[k])
      requires forall j :: 0 <= j < |plan.vectorIds| ==> plan.vectorIds[j] < |resolved|
      requires Holds(contents, plan.hashes, Mapped(plan.vectorIds, resolved), values)
      ensures Shows(timeline, role, plan, at, values, contents)
    {
      assert TargetRows(timeline, role, plan, at) == Mapped(plan.vectorIds, resolved);
    }

    /** All or nothing: every group holds `at`, or every group is empty. */
    method StaticRead(at: Instant, uniform: UniformRead, scattered: ScatteredRead, ghost contents: Contents)
      returns (r: Result<()>)
      requires Valid() && SoundContents(contents)
      requires HonestUniform(uniform, contents) && HonestScattered(scattered, contents)
      modifies this`perVector, groups
      ensures r.Ok? ==> forall g :: 0 <= g < |groups| ==>
                Shows(timeline, role, groups[g].plan, at, groups[g].Values(), contents)
      ensures Readable(at, contents) && Reliable(uniform, scattered, contents) ==> r.Ok?
      ensures r.Err? ==> forall g :: 0 <= g < |groups| ==> groups[g].Values() == []
    {
      r := ReadAt(at, uniform, scattered, contents);
      if r.Err? {
        Invalidate();
      }
    }
  }

  /** A per-vector read at any instant shows the bytes it shows at the union point in force: stepping
      through the union axis misses nothing a column ever shows. */
  lemma ReadAtUnionPoint(vectors: seq<seq<Instant>>, g: GroupPlan, at: Instant, values: seq<Byte>, contents: Contents)
    requires SoundContents(contents) && g.Parallel(Vector)
    requires (forall v :: 0 <= v < |vectors| ==> Increasing(vectors[v])) && IndexAt(MergeBreakpoints(vectors), at).Some?
    ensures var union := MergeBreakpoints(vectors); var timeline := Persistent(vectors, union);
      Shows(timeline, Vector, g, at, values, contents)
      <==> Shows(timeline, Vector, g, union[IndexAt(union, at).value], values, contents)
  {
    var union := MergeBreakpoints(vectors);
    var timeline, point := Persistent(vectors, union), union[IndexAt(union, at).value];
    forall j | 0 <= j < |g.ids|
      ensures RowFor(timeline, g.CompanionAt(Vector, j), at) == RowFor(timeline, g.CompanionAt(Vector, j), point)
    {
      if g.CompanionAt(Vector, j) < |vectors| {
        UnionLosesNothing(vectors, g.CompanionAt(Vector, j), at);
      }
    }
    if AllResolve(timeline, Vector, g, at) || AllResolve(timeline, Vector, g, point) {
      assert AllResolve(timeline, Vector, g, at) && AllResolve(timeline, Vector, g, point);
      assert TargetRows(timeline, Vector, g, at) == TargetRows(timeline, Vector, g, point);
    }
  }

  // ---- what that row means on the series' own axis ---------------------------------------

  /** A series' own time axis. */
  datatype SeriesAxis =
    | Grid(initial: Instant, step: Period, length: nat)
    | Explicit(timestamps: seq<Instant>)
    | Steps(breakpoints: seq<Instant>)

  /** Row `i` of the series is its value at `at`. */
  predicate ValueAt(axis: SeriesAxis, i: nat, at: Instant) {
    match axis
    case Grid(initial, step, length) => i < length && initial + i * step.ms == at
    case Explicit(ts) => i < |ts| && ts[i] == at
    case Steps(bp) => InForce(bp, i, at)
  }

  /** How a row's own axis relates to the reader's timeline. A windowed row sits on the pinned
      resolution with the anchor `companion` of its own steps in. */
  predicate SitsOn(timeline: Timeline, role: ColumnRole, row: Row, axis: SeriesAxis) {
    match timeline
    case Regular(anchor, resolution, length) =>
      && axis.Grid? && axis.step == resolution && resolution.ms > 0
      && row.meta.initial == Some(axis.initial) && row.meta.length == Some(axis.length)
      && (if role.Offset? then resolution.StepsBetween(axis.initial, anchor) == Ok(row.companion)
          else axis.initial == anchor)
    case Irregular(ts) => axis == Explicit(ts) && Increasing(ts)
    case Persistent(vectors, _) => row.companion < |vectors| && axis == Steps(vectors[row.companion]) && Increasing(vectors[row.companion])
  }

  /** The companion the reader uses for a row. */
  function Used(role: ColumnRole, row: Row): nat {
    if role.Shared? then 0 else row.companion
  }

  /** The row an admitted column reads is the one that holds its value at `at`, and it is
      inside the array. */
  lemma RowIsTheSeriesOwn(timeline: Timeline, role: ColumnRole, row: Row, axis: SeriesAxis, at: Instant)
    requires RoleFits(timeline, role) && Admits(timeline, role, row) && SitsOn(timeline, role, row, axis)
    requires role.Offset? ==> timeline.Regular?
    requires RowFor(timeline, Used(role, row), at).Ok?
    ensures ValueAt(axis, RowFor(timeline, Used(role, row), at).value, at)
    ensures RowFor(timeline, Used(role, row), at).value < LengthOf(row.meta)
  {
    if timeline.Regular? {
      GridRowIsTheSeriesOwn(timeline, role, row, axis, at);
    }
  }

  /** On a grid: index `k` of the reader is `companion` steps further on in the row. */
  lemma GridRowIsTheSeriesOwn(timeline: Timeline, role: ColumnRole, row: Row, axis: SeriesAxis, at: Instant)
    requires timeline.Regular? && !role.Vector? && Admits(timeline, role, row) && SitsOn(timeline, role, row, axis)
    requires RowFor(timeline, Used(role, row), at).Ok?
    ensures ValueAt(axis, RowFor(timeline, Used(role, row), at).value, at)
    ensures RowFor(timeline, Used(role, row), at).value < LengthOf(row.meta)
  {
    var index := ReaderIndex(timeline, at).value;
    IndexInRange(timeline.initial, timeline.resolution, timeline.length, at);
    assert at - timeline.initial == index * timeline.resolution.ms;
    if role.Offset? {
      assert timeline.initial - axis.initial == row.companion * timeline.resolution.ms;
      Distribute(index, row.companion, timeline.resolution.ms);
    }
  }

  /** A read fails on the axis exactly when some column has no value at `at`. */
  lemma ColumnHasValueIffReadable(timeline: Timeline, role: ColumnRole, row: Row, axis: SeriesAxis, at: Instant)
    requires RoleFits(timeline, role) && Admits(timeline, role, row) && SitsOn(timeline, role, row, axis)
    requires !role.Offset?
    ensures RowFor(timeline, Used(role, row), at).Ok? <==> exists i: nat :: ValueAt(axis, i, at)
  {
    if RowFor(timeline, Used(role, row), at).Ok? {
      RowIsTheSeriesOwn(timeline, role, row, axis, at);
    } else {
      forall i: nat
        ensures !ValueAt(axis, i, at)
      {
        if timeline.Regular? {
          ExactSteps(timeline.initial, timeline.resolution, i);
        }
      }
    }
  }
}
