/** What every catalog statement keeps: ids never filed twice, one row per identity, one kind
    of forecast per family, and no row naming a feature set that is not all there. */
module CatalogInvariants {
  import opened Wrappers
  import opened Arrays
  import opened Storage
  import opened Ordering
  import opened Metadata
  import opened Preimages
  import opened Catalog

  // ---- feature sets -----------------------------------------------------------------------

  /** The digest tells the feature maps in play apart, up to their serialised form. */
  ghost predicate Distinguishes(sha: Sha, known: set<Features>) {
    && (forall f :: f in known ==> Addressable(f))
    && (forall f, g :: f in known && g in known && FeaturesDigest(sha, f) == FeaturesDigest(sha, g)
                       ==> FeaturesPreimage(f) == FeaturesPreimage(g))
  }

  /** Equal digests, equal maps: same keys, and values the catalog stores alike. */
  lemma DigestIdentifies(sha: Sha, known: set<Features>, f: Features, g: Features)
    requires Distinguishes(sha, known) && f in known && g in known
    requires FeaturesDigest(sha, f) == FeaturesDigest(sha, g)
    ensures |f| == |g|
    ensures forall k :: 0 <= k < |f| ==> f[k].key == g[k].key && AsStored(f[k].value) == AsStored(g[k].value)
  {
    FeaturesStreamIdentifies(f, g);
    var c, d := Canonicalized(f), Canonicalized(g);
    forall k | 0 <= k < |f|
      ensures f[k].key == g[k].key && AsStored(f[k].value) == AsStored(g[k].value)
    {
      assert c[k] == d[k];
      CanonicalStoredAlike(f[k].value);
      CanonicalStoredAlike(g[k].value);
    }
  }

  lemma CanonicalStoredAlike(v: FeatureValue)
    ensures AsStored(v.Canonical()) == AsStored(v)
  {
    CanonicalIsNan();
  }

  predicate HasEntry(f: seq<Feature>, key: Text, cell: Cell) {
    exists k :: 0 <= k < |f| && f[k].key == key && AsStored(f[k].value) == cell
  }

  ghost predicate HasSource(sha: Sha, known: set<Features>, k: SetKey, cell: Cell) {
    exists f :: f in known && FeaturesDigest(sha, f) == k.hash && HasEntry(f, k.key, cell)
  }

  /** Every stored feature row is an entry of some map with that digest. */
  ghost predicate SetsSound(sha: Sha, known: set<Features>, sets: map<SetKey, Cell>) {
    forall k :: k in sets ==> HasSource(sha, known, k, sets[k])
  }

  predicate Covered(sets: map<SetKey, Cell>, hash: Digest, f: seq<Feature>) {
    forall k :: 0 <= k < |f| ==> SetKey(hash, f[k].key) in sets
  }

  ghost predicate Present(sha: Sha, known: set<Features>, sets: map<SetKey, Cell>, hash: Digest) {
    exists f :: f in known && FeaturesDigest(sha, f) == hash && Covered(sets, hash, f)
  }

  /** Referential integrity: every row's feature set is completely there. */
  ghost predicate SetsPresent(sha: Sha, known: set<Features>, s: State) {
    forall i :: i in s.rows ==> Present(sha, known, s.sets, s.rows[i].featuresHash)
  }

  /** A digest's rows are exactly the entries of `f`. */
  ghost predicate Exactly(sets: map<SetKey, Cell>, hash: Digest, f: seq<Feature>) {
    && (forall k :: 0 <= k < |f| ==> SetKey(hash, f[k].key) in sets && sets[SetKey(hash, f[k].key)] == AsStored(f[k].value))
    && (forall key: Text :: SetKey(hash, key) in sets ==> exists k :: 0 <= k < |f| && f[k].key == key)
  }

  /** A set that is present is exactly the map it was written from. */
  lemma PresentIsExact(sha: Sha, known: set<Features>, sets: map<SetKey, Cell>, f: Features)
    requires Distinguishes(sha, known) && SetsSound(sha, known, sets) && f in known
    requires Present(sha, known, sets, FeaturesDigest(sha, f))
    ensures Exactly(sets, FeaturesDigest(sha, f), f)
  {
    var hash := FeaturesDigest(sha, f);
    var g: Features :| g in known && FeaturesDigest(sha, g) == hash && Covered(sets, hash, g);
    DigestIdentifies(sha, known, f, g);
    forall key: Text | SetKey(hash, key) in sets
      ensures exists k :: 0 <= k < |f| && f[k].key == key
    {
      StoredIsOwnEntry(sha, known, sets, f, key);
    }
    forall k | 0 <= k < |f|
      ensures SetKey(hash, f[k].key) in sets && sets[SetKey(hash, f[k].key)] == AsStored(f[k].value)
    {
      assert SetKey(hash, g[k].key) in sets;
      StoredIsOwnEntry(sha, known, sets, f, f[k].key);
      OwnEntryIsThe(f, k, sets[SetKey(hash, f[k].key)]);
    }
  }

  /** A feature row under `f`'s digest is an entry of `f`. */
  lemma StoredIsOwnEntry(sha: Sha, known: set<Features>, sets: map<SetKey, Cell>, f: Features, key: Text)
    requires Distinguishes(sha, known) && SetsSound(sha, known, sets) && f in known
    requires SetKey(FeaturesDigest(sha, f), key) in sets
    ensures HasEntry(f, key, sets[SetKey(FeaturesDigest(sha, f), key)])
  {
    var k := SetKey(FeaturesDigest(sha, f), key);
    var h: Features :| h in known && FeaturesDigest(sha, h) == k.hash && HasEntry(h, key, sets[k]);
    DigestIdentifies(sha, known, f, h);
    var j :| 0 <= j < |h| && h[j].key == key && AsStored(h[j].value) == sets[k];
    assert f[j].key == key && AsStored(f[j].value) == sets[k];
  }

  /** Keys are distinct, so the entry under a key is the one at its place. */
  lemma OwnEntryIsThe(f: Features, k: nat, cell: Cell)
    requires k < |f| && HasEntry(f, f[k].key, cell)
    ensures cell == AsStored(f[k].value)
  {
    var j :| 0 <= j < |f| && f[j].key == f[k].key && AsStored(f[j].value) == cell;
    KeysDistinct(f, j, k);
  }

  lemma EntryStays(entries: seq<Feature>, n: nat, key: Text, cell: Cell)
    requires n <= |entries| && HasEntry(entries[..n], key, cell)
    ensures HasEntry(entries, key, cell)
  {
    var j :| 0 <= j < n && entries[..n][j].key == key && AsStored(entries[..n][j].value) == cell;
    assert entries[j] == entries[..n][j];
  }

  /** What the feature statements leave: nothing changes, and the entries' keys are added. */
  lemma {:induction false} WithEntriesAt(sets: map<SetKey, Cell>, hash: Digest, entries: seq<Feature>)
    ensures var after := WithEntries(sets, hash, entries);
      (forall k :: k in sets ==> k in after && after[k] == sets[k])
      && Covered(after, hash, entries)
      && forall k :: k in after && k !in sets ==> k.hash == hash && HasEntry(entries, k.key, after[k])
  {
    if entries != [] {
      var n := |entries| - 1;
      var init := entries[..n];
      WithEntriesAt(sets, hash, init);
      var before, after := WithEntries(sets, hash, init), WithEntries(sets, hash, entries);
      forall k | k in after && k !in sets
        ensures k.hash == hash && HasEntry(entries, k.key, after[k])
      {
        if k in before {
          assert after[k] == before[k];
          EntryStays(entries, n, k.key, after[k]);
        } else {
          assert k == SetKey(hash, entries[n].key) && after[k] == AsStored(entries[n].value);
        }
      }
      forall k | 0 <= k < |entries|
        ensures SetKey(hash, entries[k].key) in after
      {
        if k < |init| {
          assert init[k] == entries[k];
        }
      }
    }
  }

  lemma WithEntriesSound(sha: Sha, known: set<Features>, sets: map<SetKey, Cell>, f: Features, n: nat)
    requires SetsSound(sha, known, sets) && f in known && n <= |f|
    ensures SetsSound(sha, known, WithEntries(sets, FeaturesDigest(sha, f), f[..n]))
    ensures Covered(WithEntries(sets, FeaturesDigest(sha, f), f), FeaturesDigest(sha, f), f)
  {
    var hash := FeaturesDigest(sha, f);
    var after := WithEntries(sets, hash, f[..n]);
    WithEntriesAt(sets, hash, f[..n]);
    WithEntriesAt(sets, hash, f);
    forall k | k in after
      ensures HasSource(sha, known, k, after[k])
    {
      if k !in sets {
        var j :| 0 <= j < |f[..n]| && f[..n][j].key == k.key && AsStored(f[..n][j].value) == after[k];
        assert HasEntry(f, k.key, after[k]) by { assert f[j] == f[..n][j]; }
      }
    }
  }

  /** Growing the set table never takes a set away. */
  lemma PresentGrows(sha: Sha, known: set<Features>, sets: map<SetKey, Cell>, more: map<SetKey, Cell>, hash: Digest)
    requires Present(sha, known, sets, hash) && forall k :: k in sets ==> k in more
    ensures Present(sha, known, more, hash)
  {
    var f: Features :| f in known && FeaturesDigest(sha, f) == hash && Covered(sets, hash, f);
    assert Covered(more, hash, f);
  }

  // ---- the whole state ----------------------------------------------------------------------

  ghost predicate Distinct(s: seq<int>) {
    forall i, j :: 0 <= i < j < |s| ==> s[i] != s[j]
  }

  /** `issued` is every id ever handed out, in order. */
  ghost predicate IdsSound(s: State, issued: seq<int>) {
    && s.highWater >= 0
    && Distinct(issued)
    && (forall k :: 0 <= k < |issued| ==> 0 < issued[k] <= s.highWater)
    && (forall i :: i in s.rows ==> i in issued)
  }

  ghost predicate Good(sha: Sha, known: set<Features>, s: State, issued: seq<int>) {
    && IdsSound(s, issued)
    && IdentitiesUnique(s.rows)
    && FamiliesExclusive(s.rows)
    && SetsSound(sha, known, s.sets)
    && SetsPresent(sha, known, s)
  }

  ghost predicate CacheSound(sha: Sha, known: set<Features>, s: State, cache: set<Digest>) {
    forall h :: h in cache ==> Present(sha, known, s.sets, h)
  }

  function Issued(issued: seq<int>, r: Result<int>): seq<int> {
    match r case Ok(id) => issued + [id] case Err(_) => issued
  }

  /** The feature statements alone, however many of them ran. */
  lemma SetWritesKeepGood(sha: Sha, known: set<Features>, s: State, issued: seq<int>, f: Features, n: nat)
    requires Good(sha, known, s, issued) && f in known && n <= |f|
    ensures var t := s.(sets := WithEntries(s.sets, FeaturesDigest(sha, f), f[..n]));
      Good(sha, known, t, issued)
      && (n == |f| ==> Present(sha, known, t.sets, FeaturesDigest(sha, f)))
      && (forall k :: k in s.sets ==> k in t.sets)
  {
    WithEntriesSound(sha, known, s.sets, f, n);
    WithEntriesAt(s.sets, FeaturesDigest(sha, f), f[..n]);
    var t := s.(sets := WithEntries(s.sets, FeaturesDigest(sha, f), f[..n]));
    forall i | i in t.rows
      ensures Present(sha, known, t.sets, t.rows[i].featuresHash)
    {
      PresentGrows(sha, known, s.sets, t.sets, s.rows[i].featuresHash);
    }
    if n == |f| {
      assert f[..n] == f;
    }
  }

  /** An id that may be filed now: positive, and either never issued or refused by the primary key. */
  ghost predicate Fileable(s: State, issued: seq<int>, id: Option<int>) {
    id.Some? ==> id.value > 0 && (id.value !in issued || id.value in s.rows)
  }

  lemma InsertRowKeepsGood(sha: Sha, known: set<Features>, s: State, issued: seq<int>, id: Option<int>, row: Row)
    requires Good(sha, known, s, issued) && Fileable(s, issued, id)
    requires Present(sha, known, s.sets, row.featuresHash) && !FamilyConflict(s.rows, row)
    ensures var o := InsertRow(s, id, row); Good(sha, known, o.state, Issued(issued, o.result)) && o.state.sets == s.sets
  {
    var o := InsertRow(s, id, row);
    if o.result.Ok? {
      var i := o.result.value;
      assert i !in issued && i !in s.rows;
      FilingKeepsIds(s, issued, i, o.state);
      FilingKeepsSets(sha, known, s, i, row, o.state);
      FilingKeepsIdentities(s.rows, i, row);
      FilingKeepsFamilies(s.rows, i, row);
    }
  }

  lemma FilingKeepsIds(s: State, issued: seq<int>, i: int, t: State)
    requires IdsSound(s, issued) && i > 0 && i !in issued
    requires t.rows.Keys == s.rows.Keys + {i} && t.highWater == if i > s.highWater then i else s.highWater
    ensures IdsSound(t, issued + [i])
  {
    forall j | j in t.rows
      ensures j in issued + [i]
    {
      assert j in s.rows || j == i;
    }
  }

  lemma FilingKeepsSets(sha: Sha, known: set<Features>, s: State, i: int, row: Row, t: State)
    requires SetsPresent(sha, known, s) && Present(sha, known, s.sets, row.featuresHash)
    requires t.rows == s.rows[i := row] && t.sets == s.sets
    ensures SetsPresent(sha, known, t)
  {}

  lemma FilingKeepsIdentities(rows: map<int, Row>, i: int, row: Row)
    requires IdentitiesUnique(rows) && !Taken(rows, IdentityOf(row)) && i !in rows
    ensures IdentitiesUnique(rows[i := row])
  {}

  lemma FilingKeepsFamilies(rows: map<int, Row>, i: int, row: Row)
    requires FamiliesExclusive(rows) && !FamilyConflict(rows, row) && i !in rows
    ensures FamiliesExclusive(rows[i := row])
  {
    var after := rows[i := row];
    forall a, b | a in after && b in after && after[a].columns.tsType.Deterministic?
                  && after[b].columns.tsType.DeterministicSingleTimeSeries?
      ensures FamilyOf(after[a]) != FamilyOf(after[b])
    {
      if a == i {
        assert FamilyOf(rows[b]) == FamilyOf(row) ==> Files(rows[b], FamilyOf(row), DeterministicSingleTimeSeries);
      } else if b == i {
        assert FamilyOf(rows[a]) == FamilyOf(row) ==> Files(rows[a], FamilyOf(row), Deterministic);
      }
    }
  }

  /** One insert, whichever of its statements fails: the catalog stays sound. */
  lemma InsertKeepsGood(sha: Sha, known: set<Features>, s: State, issued: seq<int>, cached: bool, m: TimeSeriesMetadata, fault: nat)
    requires WithinWords(m) && m.features in known
    requires Good(sha, known, s, issued) && Fileable(s, issued, m.id) && !FamilyConflict(s.rows, RowOf(sha, m))
    requires cached ==> Present(sha, known, s.sets, FeaturesDigest(sha, m.features))
    ensures var o := Inserted(sha, s, cached, m, fault);
      Good(sha, known, o.state, Issued(issued, o.result))
      && (forall k :: k in s.sets ==> k in o.state.sets)
      && (o.result.Ok? ==> Present(sha, known, o.state.sets, FeaturesDigest(sha, m.features)))
  {
    var f := m.features;
    if cached {
      InsertRowKeepsGood(sha, known, s, issued, m.id, RowOf(sha, m));
    } else {
      assert f[..|f|] == f;
      SetWritesKeepGood(sha, known, s, issued, f, if fault < |f| then fault else |f|);
      if fault > |f| {
        var t := s.(sets := WithEntries(s.sets, FeaturesDigest(sha, f), f));
        InsertRowKeepsGood(sha, known, t, issued, m.id, RowOf(sha, m));
      }
    }
  }

  /** What an insert reports, and what it leaves: the primary key is blamed before the identity, a filed
      id is new to the whole history, and no other row is touched. */
  lemma InsertReportsTheCollision(sha: Sha, known: set<Features>, s: State, issued: seq<int>, cached: bool, m: TimeSeriesMetadata, fault: nat)
    requires WithinWords(m) && fault > |m.features| && Good(sha, known, s, issued) && Fileable(s, issued, m.id)
    ensures var o := Inserted(sha, s, cached, m, fault); var row := RowOf(sha, m);
      && (m.id.Some? && m.id.value in s.rows <==> o.result.Err? && o.result.error.DuplicateAssociationId?)
      && (o.result == Err(DuplicateTimeSeries)
          <==> (if m.id.Some? then m.id.value !in s.rows else s.highWater < MAX_ID)
               && exists i :: i in s.rows && IdentityOf(s.rows[i]) == IdentityOf(row))
      && (o.result.Ok? ==> o.result.value !in issued && o.state.rows == s.rows[o.result.value := row])
      && (o.result.Ok? ==> o.result.value == if m.id.Some? then m.id.value else s.highWater + 1)
      && (o.result.Ok? ==> o.state.highWater >= o.result.value && o.state.highWater >= s.highWater)
  {}

  /** The insert of a row whose set the cache vouches for goes through: its one statement runs, an id is to
      be had, and the identity is free. */
  predicate Insertable(s: State, m: TimeSeriesMetadata, row: Row, fault: nat) {
    && fault > 0
    && (if m.id.Some? then m.id.value !in s.rows else s.highWater < MAX_ID)
    && !Taken(s.rows, IdentityOf(row))
  }

  /** Trusting the cache keeps referential integrity exactly when the set really is there, or the insert is
      refused before it files the row: a cache that outlives a failed feature statement would not do. */
  lemma TrustedCacheNeedsTheSet(sha: Sha, known: set<Features>, s: State, issued: seq<int>, m: TimeSeriesMetadata, fault: nat)
    requires Distinguishes(sha, known) && WithinWords(m) && m.features in known
    requires Good(sha, known, s, issued)
    ensures SetsPresent(sha, known, Inserted(sha, s, true, m, fault).state)
            <==> (Insertable(s, m, RowOf(sha, m), fault) ==> Covered(s.sets, FeaturesDigest(sha, m.features), m.features))
  {
    CachedInsert(sha, s, m, fault);
    var o := Inserted(sha, s, true, m, fault);
    var hash := FeaturesDigest(sha, m.features);
    if o.result.Ok? {
      assert o.state.rows[o.result.value].featuresHash == hash;
      if Present(sha, known, s.sets, hash) {
        PresentIsExact(sha, known, s.sets, m.features);
      } else {
        assert !Covered(s.sets, hash, m.features);
      }
    }
  }

  /** A cache hit runs no feature statement. */
  lemma CachedInsert(sha: Sha, s: State, m: TimeSeriesMetadata, fault: nat)
    requires WithinWords(m)
    ensures var o := Inserted(sha, s, true, m, fault);
      && o.state.sets == s.sets
      && (o.result.Ok? <==> Insertable(s, m, RowOf(sha, m), fault))
      && (o.result.Err? ==> o.state.rows == s.rows)
      && (o.result.Ok? ==> o.state.rows == s.rows[o.result.value := RowOf(sha, m)])
  {
    assert WithEntries(s.sets, FeaturesDigest(sha, m.features), []) == s.sets;
  }
}
