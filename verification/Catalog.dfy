/** The catalog's two time-series tables as a state machine: what each statement leaves
    behind, and what every statement keeps (metadata.rs, and the guards in store.rs that
    stand in front of it). */
module Catalog {
  import opened Wrappers
  import opened Arrays
  import opened Storage
  import opened Metadata
  import opened Preimages

  type Sha = seq<Byte> -> Digest

  const MAX_ID: int := TWO_63 - 1
  const NEGATIVE_ZERO: FloatBits := TWO_63

  function FeaturesDigest(sha: Sha, f: seq<Feature>): Digest { sha(FeaturesPreimage(f)) }

  // ---- the tables ---------------------------------------------------------------------

  /** An association row: the metadata columns, and the hashes that stand in for the feature
      set and the timestamp vector. */
  datatype Row = Row(columns: TimeSeriesMetadata, featuresHash: Digest, timestampsHash: Option<Digest>)

  datatype SetKey = SetKey(hash: Digest, key: Text)

  /** A feature value as SQLite keeps it. */
  datatype Cell = Null | Held(value: FeatureValue)

  /** SQLite has no NaN, and keeps an integral float as an integer, so negative zero loses its sign. */
  function AsStored(v: FeatureValue): Cell {
    match v
    case Float(b) => if IsNan(b) then Null else if b == NEGATIVE_ZERO then Held(Float(0)) else Held(v)
    case _ => Held(v)
  }

  /** `highWater` is the table's `sqlite_sequence` mark. */
  datatype State = State(rows: map<int, Row>, sets: map<SetKey, Cell>, highWater: int)

  const EMPTY: State := State(map[], map[], 0)

  /** Lengths and instants fit their machine words, as any value in memory does. */
  predicate WithinWords(m: TimeSeriesMetadata) {
    Addressable(m.features) && (m.timestamps.Some? ==> InRange(m.timestamps.value))
  }

  function RowOf(sha: Sha, m: TimeSeriesMetadata): Row
    requires WithinWords(m)
  {
    Row(m.(id := None, features := [], timestamps := None),
        FeaturesDigest(sha, m.features),
        match m.timestamps case None => None case Some(ts) => Some(sha(TimestampsPreimage(ts))))
  }

  /** What the unique index keys on. A NULL period is a value of its own, as the coalesced index makes it. */
  datatype Identity = Identity(ownerId: int, category: OwnerCategory, tsType: TimeSeriesType, name: Text,
                               resolution: Option<Period>, interval: Option<Period>, featuresHash: Digest)

  /** The identity without the type and the interval. */
  datatype Family = Family(ownerId: int, category: OwnerCategory, name: Text, resolution: Option<Period>, featuresHash: Digest)

  function IdentityOf(r: Row): Identity {
    var c := r.columns;
    Identity(c.ownerId, c.ownerCategory, c.tsType, c.name, c.resolution, c.interval, r.featuresHash)
  }

  function FamilyOf(r: Row): Family {
    var c := r.columns;
    Family(c.ownerId, c.ownerCategory, c.name, c.resolution, r.featuresHash)
  }

  predicate Taken(rows: map<int, Row>, identity: Identity) {
    exists i :: i in rows && IdentityOf(rows[i]) == identity
  }

  predicate Files(r: Row, family: Family, tsType: TimeSeriesType) {
    FamilyOf(r) == family && r.columns.tsType == tsType
  }

  /** The family probe: some row of `tsType` is filed under `family`. */
  predicate Holds(rows: map<int, Row>, family: Family, tsType: TimeSeriesType) {
    exists i :: i in rows && Files(rows[i], family, tsType)
  }

  // ---- the statements -----------------------------------------------------------------

  datatype Outcome = Outcome(state: State, result: Result<int>)

  /** Feature rows under `hash`, each `INSERT OR IGNORE`: a key already there keeps its value. */
  function WithEntries(sets: map<SetKey, Cell>, hash: Digest, entries: seq<Feature>): map<SetKey, Cell> {
    if entries == [] then sets else
      var before := WithEntries(sets, hash, entries[..|entries| - 1]);
      var e := entries[|entries| - 1];
      if SetKey(hash, e.key) in before then before else before[SetKey(hash, e.key) := AsStored(e.value)]
  }

  /** The association insert: the primary key is checked before the unique index, and an assigned
      id is the next above every id ever filed. */
  function InsertRow(s: State, id: Option<int>, row: Row): Outcome {
    match id
    case Some(i) =>
      if i in s.rows then Outcome(s, Err(DuplicateAssociationId(i)))
      else if Taken(s.rows, IdentityOf(row)) then Outcome(s, Err(DuplicateTimeSeries))
      else Outcome(s.(rows := s.rows[i := row], highWater := if i > s.highWater then i else s.highWater), Ok(i))
    case None =>
      if s.highWater >= MAX_ID then Outcome(s, Err(Sqlite))
      else if Taken(s.rows, IdentityOf(row)) then Outcome(s, Err(DuplicateTimeSeries))
      else Outcome(s.(rows := s.rows[s.highWater + 1 := row], highWater := s.highWater + 1), Ok(s.highWater + 1))
  }

  /** `insert_batched` when its statement number `fault` fails; the feature set goes in first, unless
      the cache says it is there. */
  function Inserted(sha: Sha, s: State, cached: bool, m: TimeSeriesMetadata, fault: nat): Outcome
    requires WithinWords(m)
  {
    var hash := FeaturesDigest(sha, m.features);
    var writes: seq<Feature> := if cached then [] else m.features;
    if fault < |writes| then Outcome(s.(sets := WithEntries(s.sets, hash, writes[..fault])), Err(Sqlite))
    else
      var t := s.(sets := WithEntries(s.sets, hash, writes));
      if fault == |writes| then Outcome(t, Err(Sqlite)) else InsertRow(t, m.id, RowOf(sha, m))
  }

  function ExclusiveCounterpart(t: TimeSeriesType): Option<TimeSeriesType> {
    match t
    case Deterministic => Some(DeterministicSingleTimeSeries)
    case DeterministicSingleTimeSeries => Some(Deterministic)
    case _ => None
  }

  /** A row of `r`'s family and of the type `r` excludes is already filed. */
  predicate FamilyConflict(rows: map<int, Row>, r: Row) {
    ExclusiveCounterpart(r.columns.tsType).Some? && Holds(rows, FamilyOf(r), ExclusiveCounterpart(r.columns.tsType).value)
  }

  /** Which checks stand in front of an insert: an add probes the family; an import also wants a
      view's source; a transform has checked every family before its first write. */
  datatype Mode = Adding | Importing | Deriving

  function Refusal(rows: map<int, Row>, r: Row, mode: Mode): Option<Error> {
    if mode.Importing? && r.columns.tsType.DeterministicSingleTimeSeries? && !Holds(rows, FamilyOf(r), SingleTimeSeries)
    then Some(InvalidParameter)
    else if !mode.Deriving? && FamilyConflict(rows, r) then Some(InvalidParameter)
    else None
  }

  datatype Batch = Batch(state: State, cache: set<Digest>, ids: seq<int>, error: Option<Error>)

  /** One more row of a batch that carries a shared-set cache. A failing row leaves its set marked
      in the cache whether or not it was written. */
  function AddOne(sha: Sha, b: Batch, m: TimeSeriesMetadata, fault: nat, mode: Mode, shared: bool): Batch
    requires WithinWords(m)
  {
    if b.error.Some? then b else
      match Refusal(b.state.rows, RowOf(sha, m), mode)
      case Some(e) => b.(error := Some(e))
      case None =>
        var hash := FeaturesDigest(sha, m.features);
        var o := Inserted(sha, b.state, shared && hash in b.cache, m, fault);
        match o.result
        case Ok(id) => Batch(o.state, b.cache + {hash}, b.ids + [id], None)
        case Err(e) => Batch(o.state, b.cache + {hash}, b.ids, Some(e))
  }

  predicate AllWithinWords(ms: seq<TimeSeriesMetadata>) {
    forall k :: 0 <= k < |ms| ==> WithinWords(ms[k])
  }

  /** Rows in order, stopping at the first that fails. With `shared` off, every row gets a fresh cache. */
  function AddAll(sha: Sha, b: Batch, ms: seq<TimeSeriesMetadata>, faults: seq<nat>, mode: Mode, shared: bool): Batch
    requires |faults| == |ms| && AllWithinWords(ms)
    decreases |ms|
  {
    if ms == [] then b else
      var n := |ms| - 1;
      AddOne(sha, AddAll(sha, b, ms[..n], faults[..n], mode, shared), ms[n], faults[n], mode, shared)
  }

  function FirstAtMost(ids: seq<int>, bound: int): (r: Option<int>)
    ensures r.None? <==> forall k :: 0 <= k < |ids| ==> ids[k] > bound
  {
    if ids == [] then None
    else if ids[0] <= bound then Some(ids[0])
    else
      assert forall k :: 1 <= k < |ids| ==> ids[k] == ids[1..][k - 1];
      FirstAtMost(ids[1..], bound)
  }

  /** Explicit ids must be positive and above every id the table ever filed. */
  function CheckExplicitIds(highWater: int, ids: seq<int>): Option<Error> {
    if FirstAtMost(ids, 0).Some? then Some(InvalidParameter)
    else
      match FirstAtMost(ids, highWater)
      case None => None
      case Some(id) => Some(DuplicateAssociationId(id))
  }

  // ---- removal --------------------------------------------------------------------------

  type Owner = (int, OwnerCategory)

  predicate OwnedBy(r: Row, owner: Owner) {
    r.columns.ownerId == owner.0 && r.columns.ownerCategory == owner.1
  }

  predicate FilesArray(x: Row, r: Row, tsType: TimeSeriesType) {
    Files(x, FamilyOf(r), tsType) && x.columns.dataHash == r.columns.dataHash
  }

  predicate HoldsOnArray(rows: map<int, Row>, r: Row, tsType: TimeSeriesType) {
    exists i :: i in rows && FilesArray(rows[i], r, tsType)
  }

  /** With `rows` left, the removed `r` was the last source of a view that stays. */
  predicate Orphans(rows: map<int, Row>, r: Row) {
    r.columns.tsType.SingleTimeSeries?
    && HoldsOnArray(rows, r, DeterministicSingleTimeSeries)
    && !HoldsOnArray(rows, r, SingleTimeSeries)
  }

  function IdSet(ids: seq<int>): set<int> { set k | 0 <= k < |ids| :: ids[k] }

  function Without(rows: map<int, Row>, ids: set<int>): map<int, Row> { rows - ids }

  /** A removal goes through whole or not at all. */
  predicate Removable(rows: map<int, Row>, ids: seq<int>, owner: Option<Owner>) {
    && (forall k :: 0 <= k < |ids| ==> ids[k] in rows && (owner.Some? ==> OwnedBy(rows[ids[k]], owner.value)))
    && (forall k :: 0 <= k < |ids| ==> !Orphans(Without(rows, IdSet(ids)), rows[ids[k]]))
  }

  function WithoutOwner(rows: map<int, Row>, owner: Owner): map<int, Row> {
    map i | i in rows && !OwnedBy(rows[i], owner) :: rows[i]
  }

  predicate Referenced(rows: map<int, Row>, hash: Digest) {
    exists i :: i in rows && rows[i].featuresHash == hash
  }

  /** The sweep keeps exactly the feature rows some association references. */
  function WithoutOrphanSets(s: State): map<SetKey, Cell> {
    map k | k in s.sets && Referenced(s.rows, k.hash) :: s.sets[k]
  }

  // ---- owner moves ------------------------------------------------------------------------

  function Moved(rows: map<int, Row>, giver: int, taker: int, category: OwnerCategory): map<int, Row> {
    map i | i in rows ::
      if OwnedBy(rows[i], (giver, category)) then rows[i].(columns := rows[i].columns.(ownerId := taker)) else rows[i]
  }

  /** The self-join: `moving` would land in the family of `existing`, and their types exclude each other. */
  predicate Clashes(moving: Row, existing: Row, giver: int, taker: int, category: OwnerCategory) {
    && OwnedBy(moving, (giver, category))
    && FamilyOf(existing) == FamilyOf(moving).(ownerId := taker)
    && ExclusiveCounterpart(moving.columns.tsType) == Some(existing.columns.tsType)
  }

  predicate MoveConflict(rows: map<int, Row>, giver: int, taker: int, category: OwnerCategory) {
    exists i, j :: i in rows && j in rows && Clashes(rows[i], rows[j], giver, taker, category)
  }

  predicate IdentitiesUnique(rows: map<int, Row>) {
    forall i, j :: i in rows && j in rows && IdentityOf(rows[i]) == IdentityOf(rows[j]) ==> i == j
  }

  /** No family holds both a dense forecast and a derived view. */
  predicate FamiliesExclusive(rows: map<int, Row>) {
    forall i, j :: i in rows && j in rows && rows[i].columns.tsType.Deterministic?
                   && rows[j].columns.tsType.DeterministicSingleTimeSeries?
                   ==> FamilyOf(rows[i]) != FamilyOf(rows[j])
  }

  /** `replace_owner`: probe, then one `UPDATE` the unique index may refuse. */
  function OwnerReplaced(s: State, giver: int, taker: int, category: OwnerCategory): Outcome {
    if MoveConflict(s.rows, giver, taker, category) then Outcome(s, Err(InvalidParameter))
    else
      var rows := Moved(s.rows, giver, taker, category);
      if !IdentitiesUnique(rows) then Outcome(s, Err(DuplicateTimeSeries))
      else Outcome(s.(rows := rows), Ok(|set i | i in s.rows && OwnedBy(s.rows[i], (giver, category))|))
  }

  /** The probe is exact: it reports a conflict precisely when the whole-set move would put an
      excluded pair in one family. */
  lemma MoveProbeIsExact(rows: map<int, Row>, giver: int, taker: int, category: OwnerCategory)
    requires FamiliesExclusive(rows)
    ensures MoveConflict(rows, giver, taker, category) <==> !FamiliesExclusive(Moved(rows, giver, taker, category))
  {
    var after := Moved(rows, giver, taker, category);
    if MoveConflict(rows, giver, taker, category) {
      var i, j :| i in rows && j in rows && Clashes(rows[i], rows[j], giver, taker, category);
      MovedFamily(rows, giver, taker, category, i);
      MovedFamily(rows, giver, taker, category, j);
      ClashingMeet(rows[i], rows[j], giver, taker, category);
      assert FamilyOf(after[i]) == FamilyOf(after[j]);
    }
    if !FamiliesExclusive(after) {
      var i, j :| i in after && j in after && after[i].columns.tsType.Deterministic?
                  && after[j].columns.tsType.DeterministicSingleTimeSeries? && FamilyOf(after[i]) == FamilyOf(after[j]);
      MovedFamily(rows, giver, taker, category, i);
      MovedFamily(rows, giver, taker, category, j);
      MeetingClashes(rows[i], rows[j], giver, taker, category);
    }
  }

  /** A move changes the owner in a row's family, if it changes the row, and never its type. */
  lemma MovedFamily(rows: map<int, Row>, giver: int, taker: int, category: OwnerCategory, i: int)
    requires i in rows
    ensures var after := Moved(rows, giver, taker, category)[i];
      after.columns.tsType == rows[i].columns.tsType && FamilyOf(after) == FamilyMoved(rows[i], giver, taker, category)
  {}

  function FamilyMoved(row: Row, giver: int, taker: int, category: OwnerCategory): Family {
    if OwnedBy(row, (giver, category)) then FamilyOf(row).(ownerId := taker) else FamilyOf(row)
  }

  lemma ClashingMeet(moving: Row, existing: Row, giver: int, taker: int, category: OwnerCategory)
    requires Clashes(moving, existing, giver, taker, category)
    ensures FamilyMoved(moving, giver, taker, category) == FamilyMoved(existing, giver, taker, category)
  {}

  /** An excluded pair of different families that a move brings together clashes. */
  lemma MeetingClashes(dense: Row, view: Row, giver: int, taker: int, category: OwnerCategory)
    requires dense.columns.tsType.Deterministic? && view.columns.tsType.DeterministicSingleTimeSeries?
    requires FamilyOf(dense) != FamilyOf(view)
    requires FamilyMoved(dense, giver, taker, category) == FamilyMoved(view, giver, taker, category)
    ensures Clashes(dense, view, giver, taker, category) || Clashes(view, dense, giver, taker, category)
  {}

  /** The move caught part-way, with only `done` rewritten. */
  function MovedSome(rows: map<int, Row>, done: set<int>, giver: int, taker: int, category: OwnerCategory): map<int, Row> {
    map i | i in rows :: if i in done then Moved(rows, giver, taker, category)[i] else rows[i]
  }

  /** The unique index is checked as each row is rewritten, in whatever order: part-way it refuses only
      moves it would refuse at the end. */
  lemma MoveOrderDoesNotMatter(rows: map<int, Row>, done: set<int>, giver: int, taker: int, category: OwnerCategory)
    requires IdentitiesUnique(rows)
    ensures IdentitiesUnique(Moved(rows, giver, taker, category)) ==> IdentitiesUnique(MovedSome(rows, done, giver, taker, category))
  {
    var final, part := Moved(rows, giver, taker, category), MovedSome(rows, done, giver, taker, category);
    if IdentitiesUnique(final) {
      forall i, j | i in part && j in part && IdentityOf(part[i]) == IdentityOf(part[j])
        ensures i == j
      {
        if part[i] == rows[i] && part[j] == rows[j] {
          assert IdentityOf(rows[i]) == IdentityOf(rows[j]);
        } else if giver != taker {
          assert IdentityOf(final[i]) == IdentityOf(final[j]);
        }
      }
    }
  }

  /** A view is backed while its family still holds the series its array came from. */
  predicate LosesItsSource(before: map<int, Row>, after: map<int, Row>, v: Row) {
    && v.columns.tsType.DeterministicSingleTimeSeries?
    && HoldsOnArray(before, v, SingleTimeSeries)
    && !HoldsOnArray(after, v, SingleTimeSeries)
  }

  /** The removal guard is exact: it refuses precisely the removals that would take the last source
      from a view that stays. */
  lemma RemovalGuardIsExact(rows: map<int, Row>, ids: seq<int>)
    requires forall k :: 0 <= k < |ids| ==> ids[k] in rows
    ensures var after := Without(rows, IdSet(ids));
      (exists k :: 0 <= k < |ids| && Orphans(after, rows[ids[k]]))
      <==> (exists i :: i in after && LosesItsSource(rows, after, after[i]))
  {
    var after := Without(rows, IdSet(ids));
    if i :| i in after && LosesItsSource(rows, after, after[i]) {
      var j :| j in rows && FilesArray(rows[j], after[i], SingleTimeSeries);
      assert forall x :: x in after ==> after[x] == rows[x] && !FilesArray(after[x], after[i], SingleTimeSeries);
      assert j !in after;
      assert j in IdSet(ids);
      var k :| 0 <= k < |ids| && ids[k] == j;
      assert FilesArray(after[i], rows[j], DeterministicSingleTimeSeries);
      SameProbe(after, after[i], rows[ids[k]], SingleTimeSeries);
      assert Orphans(after, rows[ids[k]]);
    }
    if k :| 0 <= k < |ids| && Orphans(after, rows[ids[k]]) {
      var r := rows[ids[k]];
      var i :| i in after && FilesArray(after[i], r, DeterministicSingleTimeSeries);
      var v, j := after[i], ids[k];
      assert rows[j].columns.tsType == SingleTimeSeries && FamilyOf(rows[j]) == FamilyOf(v);
      assert FilesArray(rows[j], v, SingleTimeSeries);
      assert HoldsOnArray(rows, v, SingleTimeSeries);
      SameProbe(after, v, r, SingleTimeSeries);
      assert LosesItsSource(rows, after, after[i]);
    }
  }

  lemma SameProbe(rows: map<int, Row>, v: Row, r: Row, tsType: TimeSeriesType)
    requires FamilyOf(v) == FamilyOf(r) && v.columns.dataHash == r.columns.dataHash
    ensures HoldsOnArray(rows, v, tsType) == HoldsOnArray(rows, r, tsType)
  {
    assert forall x :: FilesArray(x, v, tsType) == FilesArray(x, r, tsType);
  }
}
