/** The catalog as the program drives it: statements over mutable tables, a shared-set cache
    that outlives one row, and savepoints that put the tables back. */
module CatalogStore {
  import opened Wrappers
  import opened Arrays
  import opened Storage
  import opened Metadata
  import opened Preimages
  import opened Catalog

  class SharedSetCache {
    var features: set<Digest>

    constructor ()
      ensures features == {}
    {
      features := {};
    }
  }

  /** `listing` names each of `ids` once: what a query returns, in whatever order. */
  ghost predicate Lists(listing: seq<int>, ids: set<int>) {
    && (forall i, j :: 0 <= i < j < |listing| ==> listing[i] != listing[j])
    && (forall i :: 0 <= i < |listing| ==> listing[i] in ids)
    && (forall id :: id in ids ==> id in listing)
  }

  /** Of the rows a scan meets, the wanted ones, in scan order. */
  method Select(scan: seq<int>, wanted: set<int>) returns (listing: seq<int>)
    requires forall i, j :: 0 <= i < j < |scan| ==> scan[i] != scan[j]
    requires forall id :: id in wanted ==> id in scan
    ensures Lists(listing, wanted)
  {
    listing := [];
    for i := 0 to |scan|
      invariant forall j, k :: 0 <= j < k < |listing| ==> listing[j] != listing[k]
      invariant forall j :: 0 <= j < |listing| ==> listing[j] in wanted && listing[j] in scan[..i]
      invariant forall id :: id in wanted && id in scan[..i] ==> id in listing
    {
      assert scan[..i + 1] == scan[..i] + [scan[i]];
      if scan[i] in wanted {
        listing := listing + [scan[i]];
      }
    }
    assert scan[..|scan|] == scan;
  }

  function HashesOf(rows: map<int, Row>, ids: seq<int>): seq<Digest>
    requires forall k :: 0 <= k < |ids| ==> ids[k] in rows
  {
    seq(|ids|, k requires 0 <= k < |ids| => rows[ids[k]].columns.dataHash)
  }

  class MetadataStore {
    var rows: map<int, Row>
    var sets: map<SetKey, Cell>
    var highWater: int

    function Tables(): State
      reads this
    {
      State(rows, sets, highWater)
    }

    constructor ()
      ensures Tables() == EMPTY
    {
      rows, sets, highWater := map[], map[], 0;
    }

    /** Roll back to a savepoint. */
    method RollBack(savepoint: State)
      modifies this
      ensures Tables() == savepoint
    {
      rows, sets, highWater := savepoint.rows, savepoint.sets, savepoint.highWater;
    }

    method InsertFeatureSet(hash: Digest, features: Features, fault: nat) returns (r: Result<()>)
      modifies this
      ensures r.Ok? <==> |features| <= fault
      ensures Tables() == old(Tables()).(sets := WithEntries(old(sets), hash, if |features| <= fault then features else features[..fault]))
    {
      var i := 0;
      while i < |features|
        invariant 0 <= i <= |features| && i <= fault
        invariant Tables() == old(Tables()).(sets := WithEntries(old(sets), hash, features[..i]))
      {
        if i == fault {
          return Err(Sqlite);
        }
        assert features[..i + 1][..i] == features[..i];
        var key := SetKey(hash, features[i].key);
        if key !in sets {
          sets := sets[key := AsStored(features[i].value)];
        }
        i := i + 1;
      }
      assert features[..i] == features;
      return Ok(());
    }

    /** File one row, its feature set first. The cache is told before the set is written. */
    method InsertBatched(sha: Sha, m: TimeSeriesMetadata, cache: SharedSetCache, fault: nat) returns (r: Result<int>)
      requires WithinWords(m)
      modifies this, cache
      ensures Outcome(Tables(), r) == Inserted(sha, old(Tables()), FeaturesDigest(sha, m.features) in old(cache.features), m, fault)
      ensures cache.features == old(cache.features) + {FeaturesDigest(sha, m.features)}
    {
      var hash := FeaturesHash(m.features, sha);
      var writes := 0;
      ghost var cached := hash in cache.features;
      if hash !in cache.features {
        cache.features := cache.features + {hash};
        writes := |m.features|;
        var written := InsertFeatureSet(hash, m.features, fault);
        if written.Err? {
          return Err(Sqlite);
        }
      }
      if fault == writes {
        return Err(Sqlite);
      }
      assert Tables() == old(Tables()).(sets := WithEntries(old(sets), hash, if cached then [] else m.features));
      r := InsertAssociationRow(m.id, RowOf(sha, m));
    }

    /** The association `INSERT`, with the mark the sequence table keeps. */
    method InsertAssociationRow(id: Option<int>, row: Row) returns (r: Result<int>)
      modifies this
      ensures Outcome(Tables(), r) == InsertRow(old(Tables()), id, row)
    {
      if id.None? && highWater >= MAX_ID {
        return Err(Sqlite);
      }
      var filed := if id.Some? then id.value else highWater + 1;
      if id.Some? && filed in rows {
        return Err(DuplicateAssociationId(filed));
      }
      if Taken(rows, IdentityOf(row)) {
        return Err(DuplicateTimeSeries);
      }
      rows := rows[filed := row];
      highWater := if filed > highWater then filed else highWater;
      return Ok(filed);
    }

    method ReadExplicitIds(ids: seq<int>) returns (e: Option<Error>)
      ensures e == CheckExplicitIds(highWater, ids)
      ensures e == None <==> forall k :: 0 <= k < |ids| ==> ids[k] > 0 && ids[k] > highWater
    {
      var bad := Find(ids, 0);
      if bad.Some? {
        return Some(InvalidParameter);
      }
      var taken := Find(ids, highWater);
      return if taken.Some? then Some(DuplicateAssociationId(taken.value)) else None;
    }

    /** The first id at or below `bound`. */
    method Find(ids: seq<int>, bound: int) returns (r: Option<int>)
      ensures r == FirstAtMost(ids, bound)
    {
      var i := 0;
      assert ids[0..] == ids;
      while i < |ids|
        invariant 0 <= i <= |ids| && FirstAtMost(ids, bound) == FirstAtMost(ids[i..], bound)
      {
        if ids[i] <= bound {
          return Some(ids[i]);
        }
        assert ids[i..][1..] == ids[i + 1..];
        i := i + 1;
      }
      return None;
    }

    /** A batch of adds, imports or views through one cache, in a savepoint when asked for one. */
    method AddRows(sha: Sha, ms: seq<TimeSeriesMetadata>, faults: seq<nat>, cache: SharedSetCache, mode: Mode, savepoint: bool)
      returns (r: Result<seq<int>>)
      requires |faults| == |ms| && AllWithinWords(ms)
      modifies this, cache
      ensures var b := AddAll(sha, Batch(old(Tables()), old(cache.features), [], None), ms, faults, mode, true);
        && r == (if b.error.Some? then Err(b.error.value) else Ok(b.ids))
        && Tables() == (if b.error.Some? && savepoint then old(Tables()) else b.state)
        && (r.Ok? ==> cache.features == b.cache)
    {
      var before := Tables();
      var ids := [];
      ghost var start := Batch(Tables(), cache.features, [], None);
      var i := 0;
      while i < |ms|
        invariant 0 <= i <= |ms|
        invariant Batch(Tables(), cache.features, ids, None) == AddAll(sha, start, ms[..i], faults[..i], mode, true)
      {
        ghost var b := Batch(Tables(), cache.features, ids, None);
        ghost var next := AddOne(sha, b, ms[i], faults[i], mode, true);
        NextRow(sha, start, ms, faults, mode, i);
        var id := AddRow(sha, ms[i], faults[i], cache, mode, ids);
        if id.Err? {
          AddStops(sha, start, ms, faults, mode, i + 1);
          if savepoint {
            RollBack(before);
          }
          return Err(id.error);
        }
        ids := ids + [id.value];
        i := i + 1;
      }
      assert ms[..i] == ms && faults[..i] == faults;
      return Ok(ids);
    }

    /** The guards, then the insert. */
    method AddRow(sha: Sha, m: TimeSeriesMetadata, fault: nat, cache: SharedSetCache, mode: Mode, ghost ids: seq<int>) returns (r: Result<int>)
      requires WithinWords(m)
      modifies this, cache
      ensures var b := AddOne(sha, Batch(old(Tables()), old(cache.features), ids, None), m, fault, mode, true);
        Batch(Tables(), cache.features, if r.Ok? then ids + [r.value] else ids, if r.Err? then Some(r.error) else None) == b
    {
      var refused := Refusal(rows, RowOf(sha, m), mode);
      if refused.Some? {
        return Err(refused.value);
      }
      r := InsertBatched(sha, m, cache, fault);
    }

    /** Delete the row filed under `id`, if it belongs to the expected owner. */
    method DeleteById(id: int, expected: Option<Owner>) returns (r: Result<Option<Row>>)
      modifies this
      ensures r == if id !in old(rows) then Ok(None)
                   else if expected.Some? && !OwnedBy(old(rows)[id], expected.value)
                     then Err(OwnerMismatch(id, old(rows)[id].columns.ownerId))
                   else Ok(Some(old(rows)[id]))
      ensures Tables() == old(Tables()).(rows := if r.Ok? then old(rows) - {id} else old(rows))
    {
      if id !in rows {
        return Ok(None);
      }
      var row := rows[id];
      if expected.Some? && !OwnedBy(row, expected.value) {
        return Err(OwnerMismatch(id, row.columns.ownerId));
      }
      rows := rows - {id};
      return Ok(Some(row));
    }

    /** Every row of one owner goes; their array hashes come back, one per row, in scan order. */
    method DeleteByOwner(owner: Owner, scan: seq<int>) returns (hashes: seq<Digest>, ghost ids: seq<int>)
      requires Lists(scan, rows.Keys)
      modifies this
      ensures Lists(ids, set i | i in old(rows) && OwnedBy(old(rows)[i], owner))
      ensures hashes == HashesOf(old(rows), ids)
      ensures Tables() == old(Tables()).(rows := WithoutOwner(old(rows), owner))
    {
      var owned := set i | i in rows && OwnedBy(rows[i], owner);
      var listing := Select(scan, owned);
      ids := listing;
      hashes := HashesOf(rows, listing);
      rows := rows - owned;
      assert rows == WithoutOwner(old(rows), owner);
    }

    /** Clearing the store drops the feature sets with the rows; the id mark stays. */
    method DeleteAll(scan: seq<int>) returns (hashes: seq<Digest>)
      requires Lists(scan, rows.Keys)
      modifies this
      ensures hashes == HashesOf(old(rows), scan)
      ensures Tables() == State(map[], map[], old(highWater))
    {
      hashes := HashesOf(rows, scan);
      rows := map[];
      sets := map[];
    }

    method SweepOrphanFeatureSets() returns (n: nat)
      modifies this
      ensures Tables() == old(Tables()).(sets := WithoutOrphanSets(old(Tables())))
      ensures n == |set k | k in old(sets) && !Referenced(old(rows), k.hash)|
    {
      var orphans := set k | k in sets && !Referenced(rows, k.hash);
      n := |orphans|;
      sets := sets - orphans;
      assert sets == WithoutOrphanSets(old(Tables()));
    }

    /** Probe for a family clash over the whole moved set, then one `UPDATE`. */
    method ReplaceOwner(giver: int, taker: int, category: OwnerCategory) returns (r: Result<int>)
      modifies this
      ensures Outcome(Tables(), r) == OwnerReplaced(old(Tables()), giver, taker, category)
      ensures r.Err? ==> Tables() == old(Tables())
      ensures r.Ok? ==> IdentitiesUnique(rows)
    {
      if MoveConflict(rows, giver, taker, category) {
        return Err(InvalidParameter);
      }
      var moving := set i | i in rows && OwnedBy(rows[i], (giver, category));
      var moved := Moved(rows, giver, taker, category);
      if !IdentitiesUnique(moved) {
        return Err(DuplicateTimeSeries);
      }
      rows := moved;
      return Ok(|moving|);
    }

    /** Remove the named rows, all or none; a repeated id is removed and counted once. */
    method RemoveByIds(ids: seq<int>, expected: Option<Owner>) returns (r: Result<nat>)
      modifies this
      ensures r.Ok? <==> Removable(old(rows), ids, expected)
      ensures r.Ok? ==> r.value == |IdSet(ids)| && Tables() == old(Tables()).(rows := Without(old(rows), IdSet(ids)))
      ensures r.Err? ==> Tables() == old(Tables())
    {
      var before := Tables();
      var removed := DeleteEach(ids, expected);
      if removed.Err? {
        RollBack(before);
        return Err(removed.error);
      }
      var sources := removed.value;
      for k := 0 to |sources|
        invariant forall j :: 0 <= j < k ==> !Orphans(rows, sources[j])
        invariant Tables() == before.(rows := before.rows - IdSet(ids))
      {
        if Orphans(rows, sources[k]) {
          SomeOrphan(before.rows, ids, rows, sources, k);
          RollBack(before);
          return Err(InvalidParameter);
        }
      }
      NoneOrphaned(before.rows, ids, rows, sources);
      return Ok(|IdSet(ids)|);
    }

    /** Delete the rows in turn, stopping at the first that is absent or another owner's; hand back the
        sources among them. */
    method DeleteEach(ids: seq<int>, expected: Option<Owner>) returns (r: Result<seq<Row>>)
      modifies this
      ensures r.Ok? <==> AllOwned(old(rows), ids, expected)
      ensures r.Ok? ==> Tables() == old(Tables()).(rows := old(rows) - IdSet(ids)) && SourcesOf(old(rows), IdSet(ids), r.value)
    {
      ghost var before := Tables();
      var seen: set<int> := {};
      var sources: seq<Row> := [];
      var i := 0;
      while i < |ids|
        invariant 0 <= i <= |ids| && seen == IdSet(ids[..i])
        invariant Tables() == before.(rows := before.rows - seen)
        invariant AllOwned(before.rows, ids[..i], expected) && SourcesOf(before.rows, seen, sources)
      {
        assert ids[..i + 1] == ids[..i] + [ids[i]];
        SnocIds(ids[..i], ids[i]);
        if ids[i] !in seen {
          var deleted := DeleteById(ids[i], expected);
          if deleted.Err? || deleted.value.None? {
            return Err(if deleted.Err? then deleted.error else NotFound);
          }
          seen := seen + {ids[i]};
          if deleted.value.value.columns.tsType.SingleTimeSeries? {
            sources := sources + [deleted.value.value];
          }
        }
        i := i + 1;
      }
      assert ids[..i] == ids;
      return Ok(sources);
    }
  }

  predicate AllOwned(rows: map<int, Row>, ids: seq<int>, expected: Option<Owner>) {
    forall k :: 0 <= k < |ids| ==> ids[k] in rows && (expected.Some? ==> OwnedBy(rows[ids[k]], expected.value))
  }

  lemma SomeOrphan(rows: map<int, Row>, ids: seq<int>, after: map<int, Row>, sources: seq<Row>, j: nat)
    requires SourcesOf(rows, IdSet(ids), sources) && j < |sources| && Orphans(after, sources[j])
    ensures exists k :: 0 <= k < |ids| && ids[k] in rows && Orphans(after, rows[ids[k]])
  {
    var id :| id in IdSet(ids) && id in rows && rows[id] == sources[j];
    var k :| 0 <= k < |ids| && ids[k] == id;
    assert Orphans(after, rows[ids[k]]);
  }

  lemma NoneOrphaned(rows: map<int, Row>, ids: seq<int>, after: map<int, Row>, removed: seq<Row>)
    requires SourcesOf(rows, IdSet(ids), removed) && forall j :: 0 <= j < |removed| ==> !Orphans(after, removed[j])
    requires forall k :: 0 <= k < |ids| ==> ids[k] in rows
    ensures forall k :: 0 <= k < |ids| ==> !Orphans(after, rows[ids[k]])
  {
    forall k | 0 <= k < |ids|
      ensures !Orphans(after, rows[ids[k]])
    {
      var id := ids[k];
      assert id in IdSet(ids) && id in rows;
      if rows[id].columns.tsType.SingleTimeSeries? {
        var j :| 0 <= j < |removed| && removed[j] == rows[id];
      }
    }
  }

  lemma SnocIds(ids: seq<int>, id: int)
    ensures IdSet(ids + [id]) == IdSet(ids) + {id}
  {
    forall x | x in IdSet(ids) + {id}
      ensures x in IdSet(ids + [id])
    {
      if x == id {
        assert (ids + [id])[|ids|] == id;
      } else {
        var k :| 0 <= k < |ids| && ids[k] == x;
        assert (ids + [id])[k] == x;
      }
    }
  }

  /** `removed` is every source among the rows taken away. */
  ghost predicate SourcesOf(rows: map<int, Row>, seen: set<int>, removed: seq<Row>) {
    && (forall id :: id in seen && id in rows && rows[id].columns.tsType.SingleTimeSeries? ==> rows[id] in removed)
    && (forall k :: 0 <= k < |removed| ==> exists id :: id in seen && id in rows && rows[id] == removed[k])
  }

  lemma NextRow(sha: Sha, start: Batch, ms: seq<TimeSeriesMetadata>, faults: seq<nat>, mode: Mode, i: nat)
    requires i < |ms| == |faults| && AllWithinWords(ms)
    ensures AddAll(sha, start, ms[..i + 1], faults[..i + 1], mode, true)
         == AddOne(sha, AddAll(sha, start, ms[..i], faults[..i], mode, true), ms[i], faults[i], mode, true)
  {
    assert ms[..i + 1][..i] == ms[..i] && faults[..i + 1][..i] == faults[..i];
  }

  /** Nothing runs after a row that failed. */
  lemma {:induction false} AddStops(sha: Sha, start: Batch, ms: seq<TimeSeriesMetadata>, faults: seq<nat>, mode: Mode, i: nat)
    requires i <= |ms| == |faults| && AllWithinWords(ms)
    requires AddAll(sha, start, ms[..i], faults[..i], mode, true).error.Some?
    ensures AddAll(sha, start, ms, faults, mode, true) == AddAll(sha, start, ms[..i], faults[..i], mode, true)
    decreases |ms|
  {
    var n := |ms| - 1;
    if i == |ms| {
      assert ms[..i] == ms && faults[..i] == faults;
    } else {
      assert ms[..n][..i] == ms[..i] && faults[..n][..i] == faults[..i];
      AddStops(sha, start, ms[..n], faults[..n], mode, i);
    }
  }
}
