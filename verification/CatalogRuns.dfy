/** Whole runs of the catalog: batches through one shared-set cache, savepoints, nested
    transactions, removals, clears, moves and sweeps in any order. */
module CatalogRuns {
  import opened Wrappers
  import opened Arrays
  import opened Storage
  import opened Metadata
  import opened Preimages
  import opened Catalog
  import opened CatalogInvariants

  // ---- batches -------------------------------------------------------------------------------

  /** Part-way through a batch whose explicit ids were all checked against `mark`. */
  ghost predicate GoodBatch(sha: Sha, known: set<Features>, b: Batch, issued: seq<int>, mark: int) {
    && Good(sha, known, b.state, issued + b.ids)
    && (b.error.None? ==> CacheSound(sha, known, b.state, b.cache))
    && (forall i :: i in issued + b.ids ==> i <= mark || i in b.state.rows)
  }

  predicate Admissible(known: set<Features>, m: TimeSeriesMetadata, mark: int) {
    WithinWords(m) && m.features in known && (m.id.Some? ==> m.id.value > 0 && m.id.value > mark)
  }

  /** What a transform has checked up front: only views, over families with no dense forecast. */
  predicate Derivable(sha: Sha, rows: map<int, Row>, m: TimeSeriesMetadata)
    requires WithinWords(m)
  {
    m.tsType.DeterministicSingleTimeSeries? && !Holds(rows, FamilyOf(RowOf(sha, m)), Deterministic)
  }

  lemma AddOneKeeps(sha: Sha, known: set<Features>, b: Batch, issued: seq<int>, mark: int, m: TimeSeriesMetadata, fault: nat, mode: Mode, shared: bool)
    requires GoodBatch(sha, known, b, issued, mark) && Admissible(known, m, mark)
    requires mode.Deriving? ==> Derivable(sha, b.state.rows, m)
    ensures GoodBatch(sha, known, AddOne(sha, b, m, fault, mode, shared), issued, mark)
  {
    if b.error.None? && Refusal(b.state.rows, RowOf(sha, m), mode).None? {
      var cached := shared && FeaturesDigest(sha, m.features) in b.cache;
      var o := Inserted(sha, b.state, cached, m, fault);
      InsertKeepsGood(sha, known, b.state, issued + b.ids, cached, m, fault);
      RowsOnlyGrow(sha, b.state, cached, m, fault);
      OutcomeKeeps(sha, known, b, issued, mark, FeaturesDigest(sha, m.features), o);
    }
  }

  /** The batch after an insert that kept the catalog sound. */
  lemma OutcomeKeeps(sha: Sha, known: set<Features>, b: Batch, issued: seq<int>, mark: int, hash: Digest, o: Outcome)
    requires GoodBatch(sha, known, b, issued, mark) && b.error.None?
    requires Good(sha, known, o.state, Issued(issued + b.ids, o.result)) && forall k :: k in b.state.sets ==> k in o.state.sets
    requires o.result.Ok? ==> Present(sha, known, o.state.sets, hash) && o.result.value in o.state.rows
    requires forall i :: i in b.state.rows ==> i in o.state.rows
    ensures match o.result
      case Ok(id) => GoodBatch(sha, known, Batch(o.state, b.cache + {hash}, b.ids + [id], None), issued, mark)
      case Err(e) => GoodBatch(sha, known, Batch(o.state, b.cache + {hash}, b.ids, Some(e)), issued, mark)
  {
    if o.result.Ok? {
      Assoc(issued, b.ids, [o.result.value]);
      CacheStays(sha, known, b.state, o.state, b.cache);
    }
  }

  lemma CacheStays(sha: Sha, known: set<Features>, s: State, t: State, cache: set<Digest>)
    requires CacheSound(sha, known, s, cache) && forall k :: k in s.sets ==> k in t.sets
    ensures CacheSound(sha, known, t, cache)
  {
    forall h | h in cache
      ensures Present(sha, known, t.sets, h)
    {
      PresentGrows(sha, known, s.sets, t.sets, h);
    }
  }

  lemma RowsOnlyGrow(sha: Sha, s: State, cached: bool, m: TimeSeriesMetadata, fault: nat)
    requires WithinWords(m)
    ensures var o := Inserted(sha, s, cached, m, fault);
      (o.result.Ok? ==> o.state.rows == s.rows[o.result.value := RowOf(sha, m)])
      && (o.result.Err? ==> o.state.rows == s.rows && o.state.highWater == s.highWater)
  {}

  predicate AllDerivable(sha: Sha, rows: map<int, Row>, ms: seq<TimeSeriesMetadata>)
    requires AllWithinWords(ms)
  {
    forall k :: 0 <= k < |ms| ==> Derivable(sha, rows, ms[k])
  }

  /** Filing views never makes a dense forecast. */
  lemma {:induction false} DerivingAddsNoDense(sha: Sha, b: Batch, ms: seq<TimeSeriesMetadata>, faults: seq<nat>, shared: bool, family: Family)
    requires |faults| == |ms| && AllWithinWords(ms) && !Holds(b.state.rows, family, Deterministic)
    requires forall k :: 0 <= k < |ms| ==> ms[k].tsType.DeterministicSingleTimeSeries?
    ensures !Holds(AddAll(sha, b, ms, faults, Deriving, shared).state.rows, family, Deterministic)
    decreases |ms|
  {
    if ms != [] {
      var n := |ms| - 1;
      DerivingAddsNoDense(sha, b, ms[..n], faults[..n], shared, family);
      var before := AddAll(sha, b, ms[..n], faults[..n], Deriving, shared);
      if before.error.None? {
        RowsOnlyGrow(sha, before.state, shared && FeaturesDigest(sha, ms[n].features) in before.cache, ms[n], faults[n]);
      }
    }
  }

  lemma {:induction false} AddAllKeeps(sha: Sha, known: set<Features>, b: Batch, issued: seq<int>, mark: int,
                    ms: seq<TimeSeriesMetadata>, faults: seq<nat>, mode: Mode, shared: bool)
    requires GoodBatch(sha, known, b, issued, mark) && |faults| == |ms| && AllWithinWords(ms)
    requires forall k :: 0 <= k < |ms| ==> Admissible(known, ms[k], mark)
    requires mode.Deriving? ==> AllDerivable(sha, b.state.rows, ms)
    ensures GoodBatch(sha, known, AddAll(sha, b, ms, faults, mode, shared), issued, mark)
    decreases |ms|
  {
    if ms != [] {
      var n := |ms| - 1;
      AddAllKeeps(sha, known, b, issued, mark, ms[..n], faults[..n], mode, shared);
      var before := AddAll(sha, b, ms[..n], faults[..n], mode, shared);
      if mode.Deriving? {
        assert Derivable(sha, b.state.rows, ms[n]);
        DerivingAddsNoDense(sha, b, ms[..n], faults[..n], shared, FamilyOf(RowOf(sha, ms[n])));
      }
      AddOneKeeps(sha, known, before, issued, mark, ms[n], faults[n], mode, shared);
    }
  }

  // ---- the shared cache is transparent ---------------------------------------------------------

  lemma {:induction false} RewritingAddsNothing(sets: map<SetKey, Cell>, hash: Digest, entries: seq<Feature>)
    requires Covered(sets, hash, entries)
    ensures WithEntries(sets, hash, entries) == sets
  {
    if entries != [] {
      var init := entries[..|entries| - 1];
      assert forall k :: 0 <= k < |init| ==> init[k] == entries[k];
      RewritingAddsNothing(sets, hash, init);
    }
  }

  predicate Faultless(ms: seq<TimeSeriesMetadata>, faults: seq<nat>) {
    |faults| == |ms| && forall k :: 0 <= k < |ms| ==> faults[k] > |ms[k].features|
  }

  lemma AddOneSharing(sha: Sha, known: set<Features>, b: Batch, issued: seq<int>, mark: int, m: TimeSeriesMetadata, fault: nat, mode: Mode)
    requires Distinguishes(sha, known) && GoodBatch(sha, known, b, issued, mark) && Admissible(known, m, mark)
    requires fault > |m.features|
    ensures AddOne(sha, b, m, fault, mode, true) == AddOne(sha, b, m, fault, mode, false)
  {
    if b.error.None? && FeaturesDigest(sha, m.features) in b.cache {
      PresentIsExact(sha, known, b.state.sets, m.features);
      CacheHitChangesNothing(sha, b.state, m, fault);
    }
  }

  /** A batch through one cache files what it would file with a fresh cache per row: same rows, same
      feature sets, same ids, same error at the same row. */
  lemma {:induction false} SharedCacheIsTransparent(sha: Sha, known: set<Features>, b: Batch, issued: seq<int>, mark: int,
                                 ms: seq<TimeSeriesMetadata>, faults: seq<nat>, mode: Mode)
    requires Distinguishes(sha, known) && GoodBatch(sha, known, b, issued, mark) && Faultless(ms, faults) && AllWithinWords(ms)
    requires forall k :: 0 <= k < |ms| ==> Admissible(known, ms[k], mark)
    requires mode.Deriving? ==> AllDerivable(sha, b.state.rows, ms)
    ensures AddAll(sha, b, ms, faults, mode, true) == AddAll(sha, b, ms, faults, mode, false)
    decreases |ms|
  {
    if ms != [] {
      var n := |ms| - 1;
      SharedCacheIsTransparent(sha, known, b, issued, mark, ms[..n], faults[..n], mode);
      AddAllKeeps(sha, known, b, issued, mark, ms[..n], faults[..n], mode, true);
      AddOneSharing(sha, known, AddAll(sha, b, ms[..n], faults[..n], mode, true), issued, mark, ms[n], faults[n], mode);
    }
  }

  lemma CacheHitChangesNothing(sha: Sha, s: State, m: TimeSeriesMetadata, fault: nat)
    requires WithinWords(m) && fault > |m.features| && Covered(s.sets, FeaturesDigest(sha, m.features), m.features)
    ensures Inserted(sha, s, true, m, fault) == Inserted(sha, s, false, m, fault)
  {
    RewritingAddsNothing(s.sets, FeaturesDigest(sha, m.features), m.features);
    RewritingAddsNothing(s.sets, FeaturesDigest(sha, m.features), []);
  }

  // ---- the machine ---------------------------------------------------------------------------

  /** What a savepoint or an open transaction level remembers. */
  datatype Mark = Mark(state: State, issued: seq<int>)

  /** The live catalog, the open transaction's shared-set cache, its nesting levels, and the ids the
      surviving history handed out. */
  datatype Machine = Machine(state: State, cache: set<Digest>, marks: seq<Mark>, issued: seq<int>)

  const FRESH: Machine := Machine(EMPTY, {}, [], [])

  datatype Step =
    | Begin
    | Commit
    | Rollback
    | Add(rows: seq<TimeSeriesMetadata>, faults: seq<nat>)
    | Import(rows: seq<TimeSeriesMetadata>, faults: seq<nat>)
    | Derive(views: seq<TimeSeriesMetadata>, faults: seq<nat>)
    | Remove(ids: seq<int>, expected: Option<Owner>)
    | ClearOwner(owner: Owner)
    | ClearAll
    | MoveOwner(giver: int, taker: int, category: OwnerCategory)
    | Sweep

  function WithoutIds(ms: seq<TimeSeriesMetadata>): (r: seq<TimeSeriesMetadata>)
    ensures |r| == |ms|
    ensures AllWithinWords(ms) ==> AllWithinWords(r)
  {
    seq(|ms|, k requires 0 <= k < |ms| => ms[k].(id := None))
  }

  function Start(s: State, cache: set<Digest>): Batch { Batch(s, cache, [], None) }

  /** A batch in a savepoint: what it reached, or what it started from. */
  function Kept(m: Machine, b: Batch): Machine {
    if b.error.Some? then m else m.(state := b.state, issued := m.issued + b.ids)
  }

  /** An add takes the open transaction's cache, and hands it back only on success. Only a one-row
      add inside a transaction runs without a savepoint of its own. */
  function AfterAdd(sha: Sha, m: Machine, rows: seq<TimeSeriesMetadata>, faults: seq<nat>): Machine
    requires |faults| == |rows| && AllWithinWords(rows)
  {
    var cache := if m.marks == [] then {} else m.cache;
    var b := AddAll(sha, Start(m.state, cache), WithoutIds(rows), faults, Adding, true);
    if b.error.Some? then
      m.(state := if m.marks == [] || |rows| > 1 then m.state else b.state, cache := {})
    else Kept(m, b).(cache := if m.marks == [] then {} else b.cache)
  }

  function Only(ms: seq<TimeSeriesMetadata>, views: bool): (r: seq<TimeSeriesMetadata>)
    ensures AllWithinWords(ms) ==> AllWithinWords(r)
    ensures forall k :: 0 <= k < |r| ==> r[k] in ms
  {
    if ms == [] then [] else
      var rest := Only(ms[1..], views);
      if ms[0].tsType.DeterministicSingleTimeSeries? == views then [ms[0]] + rest else rest
  }

  lemma {:induction false} OnlySplits(ms: seq<TimeSeriesMetadata>)
    ensures |Only(ms, false)| + |Only(ms, true)| == |ms|
  {
    if ms != [] {
      OnlySplits(ms[1..]);
    }
  }

  function ExplicitIds(ms: seq<TimeSeriesMetadata>): seq<int> {
    if ms == [] then [] else (if ms[0].id.Some? then [ms[0].id.value] else []) + ExplicitIds(ms[1..])
  }

  /** An import: all rows carry an id or none does, ids are checked once, views go in last. */
  function AfterImport(sha: Sha, m: Machine, rows: seq<TimeSeriesMetadata>, faults: seq<nat>): Machine
    requires |faults| == |rows| && AllWithinWords(rows)
  {
    OnlySplits(rows);
    var ordered := Only(rows, false) + Only(rows, true);
    var ids := ExplicitIds(ordered);
    if 0 < |ids| < |rows| || CheckExplicitIds(m.state.highWater, ids).Some? then m
    else Kept(m, AddAll(sha, Start(m.state, {}), ordered, faults, Importing, true))
  }

  /** A transform: no family in scope may hold a dense forecast; one cache for the batch. */
  function AfterDerive(sha: Sha, m: Machine, views: seq<TimeSeriesMetadata>, faults: seq<nat>): Machine
    requires |faults| == |views| && AllWithinWords(views)
  {
    var rows := WithoutIds(views);
    if !AllDerivable(sha, m.state.rows, rows) then m
    else Kept(m, AddAll(sha, Start(m.state, {}), rows, faults, Deriving, true))
  }

  function After(sha: Sha, m: Machine, step: Step): Machine
    requires Runnable(step)
  {
    var s := m.state;
    match step
    case Begin => m.(marks := m.marks + [Mark(s, m.issued)])
    case Commit =>
      if m.marks == [] then m
      else m.(marks := m.marks[..|m.marks| - 1], cache := if |m.marks| == 1 then {} else m.cache)
    case Rollback =>
      if m.marks == [] then m
      else
        var mark := m.marks[|m.marks| - 1];
        Machine(mark.state, {}, m.marks[..|m.marks| - 1], mark.issued)
    case Add(rows, faults) => AfterAdd(sha, m, rows, faults)
    case Import(rows, faults) => AfterImport(sha, m, rows, faults)
    case Derive(views, faults) => AfterDerive(sha, m, views, faults)
    case Remove(ids, expected) =>
      if Removable(s.rows, ids, expected) then m.(state := s.(rows := Without(s.rows, IdSet(ids)))) else m
    case ClearOwner(owner) => m.(state := s.(rows := WithoutOwner(s.rows, owner)), cache := {})
    case ClearAll => m.(state := s.(rows := map[], sets := map[]), cache := {})
    case MoveOwner(giver, taker, category) => m.(state := OwnerReplaced(s, giver, taker, category).state)
    case Sweep => if m.marks != [] then m else m.(state := s.(sets := WithoutOrphanSets(s)), cache := {})
  }

  predicate Runnable(step: Step) {
    match step
    case Add(rows, faults) => |faults| == |rows| && AllWithinWords(rows)
    case Import(rows, faults) => |faults| == |rows| && AllWithinWords(rows)
    case Derive(views, faults) => |faults| == |views| && AllWithinWords(views)
    case _ => true
  }

  /** The feature maps a step writes are among `known`. */
  predicate Uses(known: set<Features>, step: Step) {
    match step
    case Add(rows, _) => forall k :: 0 <= k < |rows| ==> rows[k].features in known
    case Import(rows, _) => forall k :: 0 <= k < |rows| ==> rows[k].features in known
    case Derive(views, _) => forall k :: 0 <= k < |views| ==> views[k].features in known
    case _ => true
  }

  // ---- every run -------------------------------------------------------------------------------

  ghost predicate Inv(sha: Sha, known: set<Features>, m: Machine) {
    && Good(sha, known, m.state, m.issued)
    && CacheSound(sha, known, m.state, m.cache)
    && (forall k :: 0 <= k < |m.marks| ==> Good(sha, known, m.marks[k].state, m.marks[k].issued))
  }

  lemma FreshHolds(sha: Sha, known: set<Features>)
    ensures Inv(sha, known, FRESH)
  {}

  lemma BatchStarts(sha: Sha, known: set<Features>, s: State, cache: set<Digest>, issued: seq<int>)
    requires Good(sha, known, s, issued) && CacheSound(sha, known, s, cache)
    ensures GoodBatch(sha, known, Start(s, cache), issued, s.highWater)
  {
    assert issued + [] == issued;
  }

  lemma AddKeeps(sha: Sha, known: set<Features>, m: Machine, rows: seq<TimeSeriesMetadata>, faults: seq<nat>)
    requires Inv(sha, known, m) && |faults| == |rows| && AllWithinWords(rows)
    requires forall k :: 0 <= k < |rows| ==> rows[k].features in known
    ensures Inv(sha, known, AfterAdd(sha, m, rows, faults))
  {
    var cache := if m.marks == [] then {} else m.cache;
    var b := AddAll(sha, Start(m.state, cache), WithoutIds(rows), faults, Adding, true);
    BatchStarts(sha, known, m.state, cache, m.issued);
    AddAllKeeps(sha, known, Start(m.state, cache), m.issued, m.state.highWater, WithoutIds(rows), faults, Adding, true);
    if b.error.Some? && |rows| <= 1 {
      OneRowFailsAlone(sha, m.state, cache, WithoutIds(rows), faults);
      assert m.issued + b.ids == m.issued;
    }
  }

  lemma OneRowFailsAlone(sha: Sha, s: State, cache: set<Digest>, rows: seq<TimeSeriesMetadata>, faults: seq<nat>)
    requires |faults| == |rows| <= 1 && AllWithinWords(rows)
    requires AddAll(sha, Start(s, cache), rows, faults, Adding, true).error.Some?
    ensures AddAll(sha, Start(s, cache), rows, faults, Adding, true).ids == []
  {
    assert rows[..0] == [] && faults[..0] == [];
    assert AddAll(sha, Start(s, cache), rows[..0], faults[..0], Adding, true) == Start(s, cache);
  }

  lemma {:induction false} ExplicitIdIsListed(ms: seq<TimeSeriesMetadata>, k: nat)
    requires k < |ms| && ms[k].id.Some?
    ensures ms[k].id.value in ExplicitIds(ms)
  {
    if k > 0 {
      ExplicitIdIsListed(ms[1..], k - 1);
    }
  }

  lemma ImportKeeps(sha: Sha, known: set<Features>, m: Machine, rows: seq<TimeSeriesMetadata>, faults: seq<nat>)
    requires Inv(sha, known, m) && |faults| == |rows| && AllWithinWords(rows)
    requires forall k :: 0 <= k < |rows| ==> rows[k].features in known
    ensures Inv(sha, known, AfterImport(sha, m, rows, faults))
  {
    OnlySplits(rows);
    var ordered := Only(rows, false) + Only(rows, true);
    var ids := ExplicitIds(ordered);
    if CheckExplicitIds(m.state.highWater, ids).None? {
      forall k | 0 <= k < |ordered|
        ensures Admissible(known, ordered[k], m.state.highWater)
      {
        assert ordered[k] in rows;
        if ordered[k].id.Some? {
          ExplicitIdIsListed(ordered, k);
        }
      }
      BatchStarts(sha, known, m.state, {}, m.issued);
      AddAllKeeps(sha, known, Start(m.state, {}), m.issued, m.state.highWater, ordered, faults, Importing, true);
      BatchAdds(sha, Start(m.state, {}), ordered, faults, Importing, true);
      KeepingKeeps(sha, known, m, AddAll(sha, Start(m.state, {}), ordered, faults, Importing, true), m.state.highWater);
    }
  }

  /** A batch only adds feature rows, so the open transaction's cache stays true. */
  lemma KeepingKeeps(sha: Sha, known: set<Features>, m: Machine, b: Batch, mark: int)
    requires Inv(sha, known, m) && GoodBatch(sha, known, b, m.issued, mark)
    requires forall k :: k in m.state.sets ==> k in b.state.sets
    ensures Inv(sha, known, Kept(m, b))
  {
    CacheStays(sha, known, m.state, b.state, m.cache);
  }

  /** `after` only adds to `b`: feature rows stay, ids are appended, and the new rows are filed under the new ids. */
  ghost predicate Extends(b: Batch, after: Batch) {
    && (forall k :: k in b.state.sets ==> k in after.state.sets)
    && |b.ids| <= |after.ids| && after.ids[..|b.ids|] == b.ids
    && (forall i :: i in b.state.rows ==> i in after.state.rows && after.state.rows[i] == b.state.rows[i])
    && (forall i :: i in after.state.rows ==> i in b.state.rows || i in after.ids[|b.ids|..])
  }

  lemma ExtendsTransitive(a: Batch, b: Batch, c: Batch)
    requires Extends(a, b) && Extends(b, c)
    ensures Extends(a, c)
  {
    assert c.ids[..|a.ids|] == c.ids[..|b.ids|][..|a.ids|];
    forall i | i in c.state.rows
      ensures i in a.state.rows || i in c.ids[|a.ids|..]
    {
      if i in b.state.rows && i !in a.state.rows {
        var k :| |a.ids| <= k < |b.ids| && b.ids[k] == i;
        assert c.ids[..|b.ids|][k] == i;
        assert c.ids[|a.ids|..][k - |a.ids|] == i;
      } else if i !in b.state.rows {
        var k :| |b.ids| <= k < |c.ids| && c.ids[k] == i;
        assert c.ids[|a.ids|..][k - |a.ids|] == i;
      }
    }
  }

  predicate BelowMark(s: State) { forall i :: i in s.rows ==> i <= s.highWater }

  lemma AddOneExtends(sha: Sha, b: Batch, m: TimeSeriesMetadata, fault: nat, mode: Mode, shared: bool)
    requires WithinWords(m) && BelowMark(b.state)
    ensures Extends(b, AddOne(sha, b, m, fault, mode, shared)) && BelowMark(AddOne(sha, b, m, fault, mode, shared).state)
  {
    if b.error.None? && Refusal(b.state.rows, RowOf(sha, m), mode).None? {
      var cached := shared && FeaturesDigest(sha, m.features) in b.cache;
      SetsOnlyGrow(sha, b.state, cached, m, fault);
      FiledRow(sha, b.state, cached, m, fault);
      var o := Inserted(sha, b.state, cached, m, fault);
      if o.result.Ok? {
        var ids := b.ids + [o.result.value];
        assert ids[|b.ids|..] == [o.result.value];
      }
    }
  }

  /** A filed row is new, and stays below the mark with the others. */
  lemma FiledRow(sha: Sha, s: State, cached: bool, m: TimeSeriesMetadata, fault: nat)
    requires WithinWords(m) && BelowMark(s)
    ensures var o := Inserted(sha, s, cached, m, fault);
      && (o.result.Ok? ==> o.result.value !in s.rows && o.state.rows == s.rows[o.result.value := RowOf(sha, m)])
      && (o.result.Err? ==> o.state.rows == s.rows && o.state.highWater == s.highWater)
      && BelowMark(o.state)
  {
    var hash := FeaturesDigest(sha, m.features);
    var writes: seq<Feature> := if cached then [] else m.features;
    if fault > |writes| {
      InsertedRow(s.(sets := WithEntries(s.sets, hash, writes)), m.id, RowOf(sha, m));
    }
  }

  lemma InsertedRow(s: State, id: Option<int>, row: Row)
    requires BelowMark(s)
    ensures var o := InsertRow(s, id, row);
      && (o.result.Ok? ==> o.result.value !in s.rows && o.state.rows == s.rows[o.result.value := row])
      && (o.result.Err? ==> o.state.rows == s.rows && o.state.highWater == s.highWater)
      && BelowMark(o.state)
  {}

  lemma {:induction false} BatchAdds(sha: Sha, b: Batch, ms: seq<TimeSeriesMetadata>, faults: seq<nat>, mode: Mode, shared: bool)
    requires |faults| == |ms| && AllWithinWords(ms) && BelowMark(b.state)
    ensures Extends(b, AddAll(sha, b, ms, faults, mode, shared)) && BelowMark(AddAll(sha, b, ms, faults, mode, shared).state)
    decreases |ms|
  {
    if ms != [] {
      var n := |ms| - 1;
      BatchAdds(sha, b, ms[..n], faults[..n], mode, shared);
      var before := AddAll(sha, b, ms[..n], faults[..n], mode, shared);
      AddOneExtends(sha, before, ms[n], faults[n], mode, shared);
      ExtendsTransitive(b, before, AddOne(sha, before, ms[n], faults[n], mode, shared));
    }
  }

  lemma {:induction false} EntriesOnlyGrow(sets: map<SetKey, Cell>, hash: Digest, entries: seq<Feature>)
    ensures forall k :: k in sets ==> k in WithEntries(sets, hash, entries)
  {
    if entries != [] {
      EntriesOnlyGrow(sets, hash, entries[..|entries| - 1]);
    }
  }

  lemma SetsOnlyGrow(sha: Sha, s: State, cached: bool, m: TimeSeriesMetadata, fault: nat)
    requires WithinWords(m)
    ensures forall k :: k in s.sets ==> k in Inserted(sha, s, cached, m, fault).state.sets
  {
    var hash := FeaturesDigest(sha, m.features);
    var writes: seq<Feature> := if cached then [] else m.features;
    EntriesOnlyGrow(s.sets, hash, writes);
    if fault < |writes| {
      EntriesOnlyGrow(s.sets, hash, writes[..fault]);
    }
  }

  lemma DeriveKeeps(sha: Sha, known: set<Features>, m: Machine, views: seq<TimeSeriesMetadata>, faults: seq<nat>)
    requires Inv(sha, known, m) && |faults| == |views| && AllWithinWords(views)
    requires forall k :: 0 <= k < |views| ==> views[k].features in known
    ensures Inv(sha, known, AfterDerive(sha, m, views, faults))
  {
    var rows := WithoutIds(views);
    if AllDerivable(sha, m.state.rows, rows) {
      BatchStarts(sha, known, m.state, {}, m.issued);
      AddAllKeeps(sha, known, Start(m.state, {}), m.issued, m.state.highWater, rows, faults, Deriving, true);
      BatchAdds(sha, Start(m.state, {}), rows, faults, Deriving, true);
      KeepingKeeps(sha, known, m, AddAll(sha, Start(m.state, {}), rows, faults, Deriving, true), m.state.highWater);
    }
  }

  /** Taking rows away, with the feature table untouched or swept of what the rest does not reference. */
  lemma FewerRowsKeepGood(sha: Sha, known: set<Features>, s: State, issued: seq<int>, rows: map<int, Row>)
    requires Good(sha, known, s, issued)
    requires forall i :: i in rows ==> i in s.rows && rows[i] == s.rows[i]
    ensures Good(sha, known, s.(rows := rows), issued)
  {}

  lemma SweepKeepsGood(sha: Sha, known: set<Features>, s: State, issued: seq<int>)
    requires Good(sha, known, s, issued)
    ensures Good(sha, known, s.(sets := WithoutOrphanSets(s)), issued)
  {
    var t := s.(sets := WithoutOrphanSets(s));
    forall i | i in t.rows
      ensures Present(sha, known, t.sets, t.rows[i].featuresHash)
    {
      var hash := s.rows[i].featuresHash;
      assert Referenced(s.rows, hash);
      var f: Features :| f in known && FeaturesDigest(sha, f) == hash && Covered(s.sets, hash, f);
      assert Covered(t.sets, hash, f);
    }
  }

  lemma MoveKeepsGood(sha: Sha, known: set<Features>, s: State, issued: seq<int>, giver: int, taker: int, category: OwnerCategory)
    requires Good(sha, known, s, issued)
    ensures Good(sha, known, OwnerReplaced(s, giver, taker, category).state, issued)
    ensures OwnerReplaced(s, giver, taker, category).state.sets == s.sets
  {
    MoveProbeIsExact(s.rows, giver, taker, category);
    MovedKeepsRows(sha, known, s, issued, giver, taker, category);
  }

  lemma MovedKeepsRows(sha: Sha, known: set<Features>, s: State, issued: seq<int>, giver: int, taker: int, category: OwnerCategory)
    requires IdsSound(s, issued) && SetsPresent(sha, known, s)
    ensures var t := s.(rows := Moved(s.rows, giver, taker, category)); IdsSound(t, issued) && SetsPresent(sha, known, t)
  {
    var rows := Moved(s.rows, giver, taker, category);
    assert forall i :: i in rows ==> i in s.rows && rows[i].featuresHash == s.rows[i].featuresHash;
  }

  /** Every step of the store keeps the catalog sound. */
  lemma StepKeeps(sha: Sha, known: set<Features>, m: Machine, step: Step)
    requires Inv(sha, known, m) && Runnable(step) && Uses(known, step)
    ensures Inv(sha, known, After(sha, m, step))
  {
    var s := m.state;
    match step
    case Add(rows, faults) => AddKeeps(sha, known, m, rows, faults);
    case Import(rows, faults) => ImportKeeps(sha, known, m, rows, faults);
    case Derive(views, faults) => DeriveKeeps(sha, known, m, views, faults);
    case Remove(ids, _) => FewerRowsKeepGood(sha, known, s, m.issued, Without(s.rows, IdSet(ids)));
    case ClearOwner(owner) => FewerRowsKeepGood(sha, known, s, m.issued, WithoutOwner(s.rows, owner));
    case MoveOwner(giver, taker, category) => MoveKeepsGood(sha, known, s, m.issued, giver, taker, category);
    case Sweep => SweepKeepsGood(sha, known, s, m.issued);
    case _ =>
  }

  function Run(sha: Sha, m: Machine, steps: seq<Step>): Machine
    requires forall k :: 0 <= k < |steps| ==> Runnable(steps[k])
    decreases |steps|
  {
    if steps == [] then m else After(sha, Run(sha, m, steps[..|steps| - 1]), steps[|steps| - 1])
  }

  /** Safety of every run, from an empty store on: no id is issued twice, identities are unique,
      no family mixes the excluded pair, and every row's feature set is there. */
  lemma {:induction false} EveryRunIsSound(sha: Sha, known: set<Features>, steps: seq<Step>)
    requires forall k :: 0 <= k < |steps| ==> Runnable(steps[k]) && Uses(known, steps[k])
    ensures Inv(sha, known, Run(sha, FRESH, steps))
    decreases |steps|
  {
    if steps == [] {
      FreshHolds(sha, known);
    } else {
      EveryRunIsSound(sha, known, steps[..|steps| - 1]);
      StepKeeps(sha, known, Run(sha, FRESH, steps[..|steps| - 1]), steps[|steps| - 1]);
    }
  }

  /** ... and what is there is exactly the map the row was filed with, whatever faults the run met. */
  lemma EveryRunKeepsFeatures(sha: Sha, known: set<Features>, steps: seq<Step>, i: int, f: Features)
    requires forall k :: 0 <= k < |steps| ==> Runnable(steps[k]) && Uses(known, steps[k])
    requires Distinguishes(sha, known) && f in known
    requires i in Run(sha, FRESH, steps).state.rows
    requires Run(sha, FRESH, steps).state.rows[i].featuresHash == FeaturesDigest(sha, f)
    ensures Exactly(Run(sha, FRESH, steps).state.sets, FeaturesDigest(sha, f), f)
  {
    EveryRunIsSound(sha, known, steps);
    PresentIsExact(sha, known, Run(sha, FRESH, steps).state.sets, f);
  }

  /** A step outside a rollback only appends to what was issued. */
  lemma IssuedGrows(sha: Sha, m: Machine, step: Step)
    requires Runnable(step) && !step.Rollback?
    ensures m.issued <= After(sha, m, step).issued
  {}

  /** Who is in the table after such a step: rows that were there, at most under another owner, and
      the rows filed under the ids the step handed out. */
  lemma RowsAfter(sha: Sha, known: set<Features>, m: Machine, step: Step, i: int)
    requires Inv(sha, known, m) && Runnable(step) && Uses(known, step) && !step.Rollback?
    requires i in After(sha, m, step).state.rows
    ensures (i in m.state.rows && SameSeries(m.state.rows[i], After(sha, m, step).state.rows[i]))
            || i in After(sha, m, step).issued[|m.issued|..]
  {
    match step
    case Add(rows, faults) => RowsAfterAdd(sha, known, m, rows, faults, i);
    case Import(rows, faults) => RowsAfterImport(sha, known, m, rows, faults, i);
    case Derive(views, faults) => RowsAfterDerive(sha, known, m, views, faults, i);
    case MoveOwner(giver, taker, category) => RowsAfterMove(m, giver, taker, category, i);
    case _ =>
  }

  predicate OldOrHandedOut(m: Machine, next: Machine, i: int)
    requires i in next.state.rows && |m.issued| <= |next.issued|
  {
    (i in m.state.rows && SameSeries(m.state.rows[i], next.state.rows[i])) || i in next.issued[|m.issued|..]
  }

  lemma RowsAfterAdd(sha: Sha, known: set<Features>, m: Machine, rows: seq<TimeSeriesMetadata>, faults: seq<nat>, i: int)
    requires Inv(sha, known, m) && Runnable(Add(rows, faults)) && i in AfterAdd(sha, m, rows, faults).state.rows
    ensures OldOrHandedOut(m, AfterAdd(sha, m, rows, faults), i)
  {
    var cache := if m.marks == [] then {} else m.cache;
    BatchAdds(sha, Start(m.state, cache), WithoutIds(rows), faults, Adding, true);
    if |rows| <= 1 && AddAll(sha, Start(m.state, cache), WithoutIds(rows), faults, Adding, true).error.Some? {
      OneRowFailsAlone(sha, m.state, cache, WithoutIds(rows), faults);
    }
  }

  lemma RowsAfterImport(sha: Sha, known: set<Features>, m: Machine, rows: seq<TimeSeriesMetadata>, faults: seq<nat>, i: int)
    requires Inv(sha, known, m) && Runnable(Import(rows, faults)) && i in AfterImport(sha, m, rows, faults).state.rows
    ensures OldOrHandedOut(m, AfterImport(sha, m, rows, faults), i)
  {
    OnlySplits(rows);
    BatchAdds(sha, Start(m.state, {}), Only(rows, false) + Only(rows, true), faults, Importing, true);
  }

  lemma RowsAfterDerive(sha: Sha, known: set<Features>, m: Machine, views: seq<TimeSeriesMetadata>, faults: seq<nat>, i: int)
    requires Inv(sha, known, m) && Runnable(Derive(views, faults)) && i in AfterDerive(sha, m, views, faults).state.rows
    ensures OldOrHandedOut(m, AfterDerive(sha, m, views, faults), i)
  {
    BatchAdds(sha, Start(m.state, {}), WithoutIds(views), faults, Deriving, true);
  }

  lemma RowsAfterMove(m: Machine, giver: int, taker: int, category: OwnerCategory, i: int)
    requires i in OwnerReplaced(m.state, giver, taker, category).state.rows
    ensures i in m.state.rows && SameSeries(m.state.rows[i], OwnerReplaced(m.state, giver, taker, category).state.rows[i])
  {}

  /** The same row, whoever owns it. */
  predicate SameSeries(a: Row, b: Row) {
    b == a.(columns := a.columns.(ownerId := b.columns.ownerId))
  }

  /** A deleted id is not back after a step, whatever the step files. */
  lemma DeletedStaysDeleted(sha: Sha, known: set<Features>, m: Machine, step: Step, i: int)
    requires Inv(sha, known, m) && Runnable(step) && Uses(known, step) && !step.Rollback?
    requires i in m.issued && i !in m.state.rows
    ensures i !in After(sha, m, step).state.rows
  {
    StepKeeps(sha, known, m, step);
    IssuedGrows(sha, m, step);
    var next := After(sha, m, step);
    assert next.issued == m.issued + next.issued[|m.issued|..];
    NotAmongNew(next.issued, m.issued, next.issued[|m.issued|..], i);
    if i in next.state.rows {
      RowsAfter(sha, known, m, step, i);
    }
  }

  lemma NotAmongNew(all: seq<int>, before: seq<int>, added: seq<int>, i: int)
    requires Distinct(all) && all == before + added && i in before
    ensures i !in added
  {
    var j :| 0 <= j < |before| && before[j] == i;
    forall k | 0 <= k < |added|
      ensures added[k] != i
    {
      assert all[j] == i && all[|before| + k] == added[k];
    }
  }

  /** Nesting levels a run of steps opens and closes. */
  function Depth(steps: seq<Step>): int {
    if steps == [] then 0 else
      Depth(steps[..|steps| - 1]) + match steps[|steps| - 1] case Begin => 1 case Commit => -1 case Rollback => -1 case _ => 0
  }

  /** Steps that close only levels they opened. */
  predicate Nested(steps: seq<Step>) { forall k :: 0 <= k <= |steps| ==> Depth(steps[..k]) >= 0 }

  predicate Balanced(steps: seq<Step>) { Nested(steps) && Depth(steps) == 0 }

  /** Such steps never reach the levels beneath them. */
  lemma {:induction false} NestedKeepMarks(sha: Sha, m: Machine, steps: seq<Step>)
    requires (forall k :: 0 <= k < |steps| ==> Runnable(steps[k])) && Nested(steps)
    ensures |Run(sha, m, steps).marks| == |m.marks| + Depth(steps) && m.marks <= Run(sha, m, steps).marks
    decreases |steps|
  {
    assert steps[..|steps|] == steps;
    if steps != [] {
      var init := steps[..|steps| - 1];
      forall k | 0 <= k <= |init|
        ensures Depth(init[..k]) >= 0
      {
        assert init[..k] == steps[..k];
      }
      NestedKeepMarks(sha, m, init);
    }
  }

  /** A transaction rolled back leaves the catalog as it found it, its id sequence included, whatever it
      did and however many levels it opened and closed inside. */
  lemma RollbackUndoes(sha: Sha, m: Machine, steps: seq<Step>)
    requires (forall k :: 0 <= k < |steps| ==> Runnable(steps[k])) && Balanced(steps)
    ensures After(sha, Run(sha, After(sha, m, Begin), steps), Rollback) == m.(cache := {})
  {
    var begun := After(sha, m, Begin);
    NestedKeepMarks(sha, begun, steps);
    assert Run(sha, begun, steps).marks == begun.marks;
  }

  /** The same add before and after a rollback is given the same id. */
  lemma RollbackReissues(sha: Sha, m: TimeSeriesMetadata)
    requires WithinWords(m) && m.features == []
    ensures var inside := Run(sha, FRESH, [Begin, Add([m], [1])]);
      var again := Run(sha, FRESH, [Begin, Add([m], [1]), Rollback, Add([m], [1])]);
      inside.issued == again.issued == [1]
  {
    var add := Add([m], [1]);
    var steps := [Begin, add, Rollback, add];
    var begun := After(sha, FRESH, Begin);
    OneStep(sha, FRESH, Begin);
    assert [Begin, add][..1] == [Begin] && steps[..3][..2] == [Begin, add] && steps[..3] == [Begin, add, Rollback];
    FirstAddGetsOne(sha, begun, m);
    FirstAddGetsOne(sha, FRESH, m);
    assert After(sha, After(sha, begun, add), Rollback) == FRESH;
  }

  lemma OneStep(sha: Sha, m: Machine, step: Step)
    requires Runnable(step)
    ensures Run(sha, m, [step]) == After(sha, m, step)
  {
    assert [step][..0] == [];
  }

  lemma FirstAddGetsOne(sha: Sha, m: Machine, row: TimeSeriesMetadata)
    requires WithinWords(row) && row.features == [] && m.state == EMPTY && m.issued == [] && m.cache == {}
    ensures AfterAdd(sha, m, [row], [1]).issued == [1] && AfterAdd(sha, m, [row], [1]).marks == m.marks
  {
    var rows := WithoutIds([row]);
    assert rows[..0] == [] && [1][..0] == [];
    assert AddAll(sha, Start(EMPTY, {}), rows[..0], [1][..0], Adding, true) == Start(EMPTY, {});
    assert rows[0].features == [];
  }
}
