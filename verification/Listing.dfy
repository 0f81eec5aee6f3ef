/** Reading the catalog back: listings that rehydrate the shared feature sets and time axes, and the
    existence probe that answers without rehydrating anything (metadata.rs). */
module Listing {
  import opened Wrappers
  import opened Arrays
  import opened Storage
  import opened Ordering
  import opened Metadata
  import opened Preimages
  import opened Catalog
  import opened CatalogInvariants
  import opened CatalogStore
  import opened TimestampCache

  // ---- a feature set, read back --------------------------------------------------------------

  /** An ordered map's insert: a key already there is replaced. */
  function Put(f: seq<Feature>, e: Feature): seq<Feature> {
    if f == [] then [e]
    else if ComponentLess(e.key, f[0].key) then [e] + f
    else if e.key == f[0].key then [e] + f[1..]
    else [f[0]] + Put(f[1..], e)
  }

  lemma {:induction false} PutEntries(f: seq<Feature>, e: Feature)
    requires KeysAscending(f)
    ensures KeysAscending(Put(f, e))
    ensures forall x :: x in Put(f, e) <==> x == e || (x in f && x.key != e.key)
  {
    if f != [] {
      assert f == [f[0]] + f[1..];
      forall i | 1 <= i < |f|
        ensures ComponentLess(f[0].key, f[i].key) && f[i].key != f[0].key
      {
        ComponentOrder(f[0].key, f[i].key, []);
      }
      ComponentOrder(e.key, f[0].key, []);
      ComponentOrder(f[0].key, e.key, []);
      if ComponentLess(e.key, f[0].key) {
        forall i | 0 <= i < |f|
          ensures ComponentLess(e.key, f[i].key) && f[i].key != e.key
        {
          ComponentOrder(e.key, f[0].key, f[i].key);
          ComponentOrder(e.key, f[i].key, []);
        }
      } else if e.key != f[0].key {
        PutEntries(f[1..], e);
        var rest := Put(f[1..], e);
        assert forall j :: 0 <= j < |rest| ==> rest[j] in rest && ComponentLess(f[0].key, rest[j].key);
      }
    }
  }

  /** The feature rows under `hash` are exactly the entries of `f`. */
  ghost predicate SetIs(sets: map<SetKey, Cell>, hash: Digest, f: seq<Feature>) {
    && (forall e :: e in f ==> SetKey(hash, e.key) in sets && sets[SetKey(hash, e.key)] == Held(e.value))
    && (forall key: Text :: SetKey(hash, key) in sets ==> exists e :: e in f && e.key == key)
  }

  /** Only one map has those entries. */
  lemma {:induction false} SetIsUnique(f: Features, g: Features)
    requires forall e :: e in f <==> e in g
    ensures f == g
  {
    if f != [] {
      assert f[0] in f;
    }
    if g != [] {
      assert g[0] in g;
    }
    if f != [] && g != [] {
      HeadIsLeast(f);
      HeadIsLeast(g);
      assert f[0] in g && g[0] in f;
      ComponentOrder(f[0].key, g[0].key, []);
      ComponentOrder(g[0].key, f[0].key, []);
      assert f[0] == g[0];
      forall e | e in f[1..] || e in g[1..]
        ensures e in f[1..] && e in g[1..]
      {
        assert e in f && e in g && e != f[0];
      }
      SetIsUnique(f[1..], g[1..]);
      assert f == [f[0]] + f[1..] && g == [g[0]] + g[1..];
    }
  }

  lemma HeadIsLeast(f: Features)
    requires f != []
    ensures forall e :: e in f ==> e == f[0] || ComponentLess(f[0].key, e.key)
    ensures forall e :: e in f[1..] ==> e in f && e != f[0]
    ensures forall e :: e in f && e != f[0] ==> e in f[1..]
    ensures KeysAscending(f[1..])
  {
    assert f == [f[0]] + f[1..];
    forall i | 1 <= i < |f|
      ensures f[i] != f[0]
    {
      ComponentOrder(f[0].key, f[i].key, []);
    }
  }

  /** Collect the rows one hash names, in whatever order the scan meets them. */
  method ReadFeatures(s: State, hash: Digest, scan: seq<SetKey>) returns (r: Result<Features>)
    requires forall k :: k in scan <==> k in s.sets
    ensures r.Ok? <==> forall k :: k in s.sets && k.hash == hash ==> s.sets[k].Held?
    ensures r.Ok? ==> SetIs(s.sets, hash, r.value)
  {
    var f: Features := [];
    for i := 0 to |scan|
      invariant forall e :: e in f ==> SetKey(hash, e.key) in s.sets && s.sets[SetKey(hash, e.key)] == Held(e.value)
      invariant forall k :: k in scan[..i] && k.hash == hash ==> s.sets[k].Held? && Feature(k.key, s.sets[k].value) in f
    {
      assert scan[..i + 1] == scan[..i] + [scan[i]];
      var k := scan[i];
      assert k in scan;
      if k.hash == hash {
        match s.sets[k]
        case Null => return Err(Sqlite);
        case Held(v) =>
          PutEntries(f, Feature(k.key, v));
          f := Put(f, Feature(k.key, v));
      }
    }
    assert scan[..|scan|] == scan;
    forall key: Text | SetKey(hash, key) in s.sets
      ensures exists e :: e in f && e.key == key
    {
      assert SetKey(hash, key) in scan;
      assert Feature(key, s.sets[SetKey(hash, key)].value) in f;
    }
    return Ok(f);
  }

  /** The values the write path refuses, and the subset probe never matches. */
  predicate Unstorable(v: FeatureValue) { v.Float? && (IsNan(v.bits) || v.bits == NEGATIVE_ZERO) }

  predicate AllStorable(f: seq<Feature>) { forall k :: 0 <= k < |f| ==> !Unstorable(f[k].value) }

  predicate HoldsNan(f: seq<Feature>) { exists k :: 0 <= k < |f| && f[k].value.Float? && IsNan(f[k].value.bits) }

  /** The rule is exact: what a row was filed with comes back as it was written precisely when the write
      path admits every value. A NaN makes the read itself fail; a negative zero comes back as another value. */
  lemma SetReadsBack(sets: map<SetKey, Cell>, hash: Digest, f: Features)
    requires Exactly(sets, hash, f)
    ensures SetIs(sets, hash, f) <==> AllStorable(f)
    ensures HoldsNan(f) <==> exists k :: k in sets && k.hash == hash && sets[k].Null?
  {
    if AllStorable(f) {
      forall e | e in f
        ensures SetKey(hash, e.key) in sets && sets[SetKey(hash, e.key)] == Held(e.value)
      {
        var k :| 0 <= k < |f| && f[k] == e;
      }
      forall key: Text | SetKey(hash, key) in sets
        ensures exists e :: e in f && e.key == key
      {
        var k :| 0 <= k < |f| && f[k].key == key;
        assert f[k] in f;
      }
    }
    if SetIs(sets, hash, f) {
      forall k | 0 <= k < |f|
        ensures !Unstorable(f[k].value)
      {
        assert f[k] in f;
      }
    }
    NanReadsNull(sets, hash, f);
  }

  lemma NanReadsNull(sets: map<SetKey, Cell>, hash: Digest, f: Features)
    requires Exactly(sets, hash, f)
    ensures HoldsNan(f) <==> exists k :: k in sets && k.hash == hash && sets[k].Null?
  {
    if k :| 0 <= k < |f| && f[k].value.Float? && IsNan(f[k].value.bits) {
      var key := SetKey(hash, f[k].key);
      assert key in sets && sets[key].Null?;
    }
    if key :| key in sets && key.hash == hash && sets[key].Null? {
      assert SetKey(hash, key.key) in sets;
      var k :| 0 <= k < |f| && f[k].key == key.key;
      assert AsStored(f[k].value) == Null;
    }
  }

  // ---- filters ---------------------------------------------------------------------------------

  /** A listing filter: any predicate over the row's columns, an exact feature-set digest, and a
      feature subset the SQL does not see. */
  datatype Filter = Filter(clauses: (int, Row) -> bool, featuresHash: Option<Digest>, features: Option<Features>)

  predicate Selected(filter: Filter, id: int, row: Row) {
    filter.clauses(id, row) && (filter.featuresHash.Some? ==> row.featuresHash == filter.featuresHash.value)
  }

  /** Feature equality: floats by canonical bits. */
  predicate SameFeature(a: Feature, b: Feature) { a.key == b.key && a.value.Canonical() == b.value.Canonical() }

  predicate HasFeature(actual: seq<Feature>, e: Feature) { exists j :: 0 <= j < |actual| && SameFeature(e, actual[j]) }

  predicate IsSubset(required: seq<Feature>, actual: seq<Feature>) {
    forall k :: 0 <= k < |required| ==> HasFeature(actual, required[k])
  }

  predicate Survives(filter: Filter, f: seq<Feature>) {
    filter.features.Some? ==> IsSubset(filter.features.value, f)
  }

  function FeaturesFor(byHash: map<Digest, Features>, hash: Digest): Features {
    if hash in byHash then byHash[hash] else []
  }

  /** Every selected row's set has been read; the empty set is not looked up. */
  ghost predicate Hydrated(sha: Sha, s: State, ids: seq<int>, byHash: map<Digest, Features>) {
    && (forall h :: h in byHash ==> SetIs(s.sets, h, byHash[h]) && h != FeaturesDigest(sha, []))
    && (forall k :: 0 <= k < |ids| ==> ids[k] in s.rows)
    && (forall k :: 0 <= k < |ids| ==> s.rows[ids[k]].featuresHash in byHash || s.rows[ids[k]].featuresHash == FeaturesDigest(sha, []))
  }

  // ---- the listing -------------------------------------------------------------------------------

  datatype Listed = Listed(meta: TimeSeriesMetadata, axis: Option<Digest>)

  function Rehydrated(id: int, row: Row, f: Features, ts: Option<seq<Instant>>): TimeSeriesMetadata {
    row.columns.(id := Some(id), features := f, timestamps := ts)
  }

  function AxisTimes(times: map<Digest, seq<Instant>>, axis: Option<Digest>): Option<seq<Instant>> {
    if axis.Some? && axis.value in times then Some(times[axis.value]) else None
  }

  /** The distinct hashes among `axes`, in the order first met. */
  function FirstSeen(axes: seq<Option<Digest>>): (r: seq<Digest>)
    ensures forall h :: h in r <==> Some(h) in axes
    ensures Unique(r)
  {
    if axes == [] then [] else
      var before := FirstSeen(axes[..|axes| - 1]);
      var last := axes[|axes| - 1];
      assert axes == axes[..|axes| - 1] + [last];
      if last.Some? && last.value !in before then before + [last.value] else before
  }

  function Axes(out: seq<Listed>): (r: seq<Option<Digest>>)
    ensures |r| == |out|
  {
    seq(|out|, k requires 0 <= k < |out| => out[k].axis)
  }

  /** The feature rows under `hash` hold no NULL; the empty set has none to read. */
  ghost predicate SetReadable(sha: Sha, s: State, hash: Digest) {
    hash != FeaturesDigest(sha, []) ==> forall k :: k in s.sets && k.hash == hash ==> s.sets[k].Held?
  }

  ghost predicate SetsReadable(sha: Sha, s: State, ids: seq<int>)
    requires forall k :: 0 <= k < |ids| ==> ids[k] in s.rows
  {
    forall k :: 0 <= k < |ids| ==> SetReadable(sha, s, s.rows[ids[k]].featuresHash)
  }

  lemma ReadMeansReadable(sha: Sha, s: State, hash: Digest, f: Features)
    requires SetIs(s.sets, hash, f)
    ensures SetReadable(sha, s, hash)
  {
    forall k | k in s.sets && k.hash == hash
      ensures s.sets[k].Held?
    {
      assert SetKey(hash, k.key) in s.sets;
      var e :| e in f && e.key == k.key;
    }
  }

  lemma ReadableWithoutNulls(sha: Sha, s: State, ids: seq<int>)
    requires NoNulls(s) && forall k :: 0 <= k < |ids| ==> ids[k] in s.rows
    ensures SetsReadable(sha, s, ids)
  {}

  ghost predicate NoNulls(s: State) { forall k :: k in s.sets ==> s.sets[k].Held? }

  /** The surviving rows among `ids`, in order. */
  function Surviving(s: State, filter: Filter, byHash: map<Digest, Features>, ids: seq<int>): (r: seq<int>)
    requires forall k :: 0 <= k < |ids| ==> ids[k] in s.rows
    ensures forall k :: 0 <= k < |r| ==> r[k] in ids && r[k] in s.rows
  {
    if ids == [] then [] else
      var last := ids[|ids| - 1];
      var before := Surviving(s, filter, byHash, ids[..|ids| - 1]);
      assert ids == ids[..|ids| - 1] + [last];
      if Survives(filter, FeaturesFor(byHash, s.rows[last].featuresHash)) then before + [last] else before
  }

  lemma {:induction false} SurvivingAre(s: State, filter: Filter, byHash: map<Digest, Features>, ids: seq<int>)
    requires forall k :: 0 <= k < |ids| ==> ids[k] in s.rows
    ensures forall i :: i in Surviving(s, filter, byHash, ids)
                        <==> i in ids && i in s.rows && Survives(filter, FeaturesFor(byHash, s.rows[i].featuresHash))
  {
    if ids != [] {
      SurvivingAre(s, filter, byHash, ids[..|ids| - 1]);
      assert ids == ids[..|ids| - 1] + [ids[|ids| - 1]];
    }
  }

  /** Each row as it was filed, its axis hydrated from `times` or left out. */
  function ListedRow(s: State, byHash: map<Digest, Features>, times: map<Digest, seq<Instant>>, id: int): Listed
    requires id in s.rows
  {
    var row := s.rows[id];
    Listed(Rehydrated(id, row, FeaturesFor(byHash, row.featuresHash), AxisTimes(times, row.timestampsHash)), row.timestampsHash)
  }

  predicate ListsRows(s: State, byHash: map<Digest, Features>, times: map<Digest, seq<Instant>>, ids: seq<int>, out: seq<Listed>) {
    && |out| == |ids|
    && (forall k :: 0 <= k < |ids| ==> ids[k] in s.rows)
    && (forall k :: 0 <= k < |ids| ==> out[k] == ListedRow(s, byHash, times, ids[k]))
  }

  datatype Page = Page(rows: seq<Listed>, cohorts: seq<Digest>)

  /** One read per distinct set among the selected rows. */
  method ReadFeatureSets(sha: Sha, s: State, ids: seq<int>, setScan: seq<SetKey>) returns (r: Result<map<Digest, Features>>)
    requires forall k :: 0 <= k < |ids| ==> ids[k] in s.rows
    requires forall k :: k in setScan <==> k in s.sets
    ensures r.Ok? ==> Hydrated(sha, s, ids, r.value)
    ensures r.Ok? <==> SetsReadable(sha, s, ids)
  {
    var byHash: map<Digest, Features> := map[];
    var empty := FeaturesHash([], sha);
    for i := 0 to |ids|
      invariant Hydrated(sha, s, ids[..i], byHash) && SetsReadable(sha, s, ids[..i])
    {
      assert ids[..i + 1] == ids[..i] + [ids[i]];
      var hash := s.rows[ids[i]].featuresHash;
      if hash != empty && hash !in byHash {
        var f := ReadFeatures(s, hash, setScan);
        if f.Err? {
          return Err(f.error);
        }
        byHash := byHash[hash := f.value];
      }
      if hash in byHash {
        ReadMeansReadable(sha, s, hash, byHash[hash]);
      }
    }
    assert ids[..|ids|] == ids;
    return Ok(byHash);
  }

  /** A row's axis, if it has one, was read, or the store does not hold it. */
  predicate AxisSettled(s: State, id: int, get: VectorReader, times: map<Digest, seq<Instant>>)
    requires id in s.rows
  {
    var axis := s.rows[id].timestampsHash;
    axis.Some? ==> axis.value in times || get(axis.value) == Err(NotFound)
  }

  /** Some row's axis lookup fails with `e`. */
  predicate SomeAxisFails(s: State, ids: seq<int>, get: VectorReader, e: Error)
    requires forall k :: 0 <= k < |ids| ==> ids[k] in s.rows
  {
    exists k :: 0 <= k < |ids| && s.rows[ids[k]].timestampsHash.Some? && get(s.rows[ids[k]].timestampsHash.value) == Err(e)
  }

  /** The axis each row names, row by row. */
  function NamedHashes(s: State, ids: seq<int>): seq<Digest>
    requires forall k :: 0 <= k < |ids| ==> ids[k] in s.rows
  {
    if ids == [] then [] else
      var last := s.rows[ids[|ids| - 1]].timestampsHash;
      NamedHashes(s, ids[..|ids| - 1]) + (if last.Some? then [last.value] else [])
  }

  /** A vector not found was asked for once by every row that names it. */
  ghost predicate MissesCounted(s: State, ids: seq<int>, times: map<Digest, seq<Instant>>, missed: seq<Digest>)
    requires forall k :: 0 <= k < |ids| ==> ids[k] in s.rows
  {
    forall h :: h !in times ==> multiset(missed)[h] == multiset(NamedHashes(s, ids))[h]
  }

  /** Part-way through the rows' axes. */
  ghost predicate AxesSoFar(s: State, ids: seq<int>, get: VectorReader, times: map<Digest, seq<Instant>>, fetched: seq<Digest>, missed: seq<Digest>, vectors: Vectors)
    requires forall k :: 0 <= k < |ids| ==> ids[k] in s.rows
  {
    && (forall h :: h in times ==> h in vectors && times[h] == vectors[h])
    && (forall k :: 0 <= k < |ids| ==> AxisSettled(s, ids[k], get, times))
    && Unique(fetched) && (forall h :: h in fetched <==> h in times)
    && MissesCounted(s, ids, times, missed)
  }

  lemma AxisSkipped(s: State, ids: seq<int>, i: nat, get: VectorReader, times: map<Digest, seq<Instant>>, fetched: seq<Digest>, missed: seq<Digest>, vectors: Vectors)
    requires i < |ids| && (forall k :: 0 <= k < |ids| ==> ids[k] in s.rows)
    requires AxesSoFar(s, ids[..i], get, times, fetched, missed, vectors)
    requires s.rows[ids[i]].timestampsHash.Some? ==> s.rows[ids[i]].timestampsHash.value in times
    ensures AxesSoFar(s, ids[..i + 1], get, times, fetched, missed, vectors)
  {
    MissesSkipped(s, ids, i, times, missed);
    var next := ids[..i + 1];
    forall k | 0 <= k < |next|
      ensures AxisSettled(s, next[k], get, times)
    {
      assert k < i ==> next[k] == ids[..i][k];
    }
  }

  lemma MissesSkipped(s: State, ids: seq<int>, i: nat, times: map<Digest, seq<Instant>>, missed: seq<Digest>)
    requires i < |ids| && (forall k :: 0 <= k < |ids| ==> ids[k] in s.rows) && MissesCounted(s, ids[..i], times, missed)
    requires s.rows[ids[i]].timestampsHash.Some? ==> s.rows[ids[i]].timestampsHash.value in times
    ensures MissesCounted(s, ids[..i + 1], times, missed)
  {
    assert ids[..i + 1][..i] == ids[..i];
  }

  lemma AxisFetched(s: State, ids: seq<int>, i: nat, get: VectorReader, times: map<Digest, seq<Instant>>, fetched: seq<Digest>, missed: seq<Digest>, vectors: Vectors, h: Digest)
    requires i < |ids| && (forall k :: 0 <= k < |ids| ==> ids[k] in s.rows)
    requires AxesSoFar(s, ids[..i], get, times, fetched, missed, vectors)
    requires s.rows[ids[i]].timestampsHash == Some(h) && h !in times && h in vectors
    ensures AxesSoFar(s, ids[..i + 1], get, times[h := vectors[h]], fetched + [h], missed, vectors)
  {
    MissesFetched(s, ids, i, times, missed, h, vectors[h]);
    PrefixPush(ids, i);
    SettledFetched(s, ids[..i], ids[i], get, times, h, vectors[h]);
    FetchedPush(fetched, times.Keys, h);
  }

  lemma FetchedPush(fetched: seq<Digest>, held: set<Digest>, h: Digest)
    requires Unique(fetched) && (forall x :: x in fetched <==> x in held) && h !in held
    ensures Unique(fetched + [h]) && forall x :: x in fetched + [h] <==> x in held + {h}
  {
    var more := fetched + [h];
    assert forall k :: 0 <= k < |fetched| ==> fetched[k] in fetched;
    forall x | x in held + {h}
      ensures x in more
    {
      assert more[|fetched|] == h;
    }
  }

  lemma SettledFetched(s: State, ids: seq<int>, id: int, get: VectorReader, times: map<Digest, seq<Instant>>, h: Digest, vector: seq<Instant>)
    requires (forall k :: 0 <= k < |ids| ==> ids[k] in s.rows && AxisSettled(s, ids[k], get, times))
    requires id in s.rows && s.rows[id].timestampsHash == Some(h)
    ensures forall k :: 0 <= k < |ids| + 1 ==> (ids + [id])[k] in s.rows && AxisSettled(s, (ids + [id])[k], get, times[h := vector])
  {}

  lemma MissesFetched(s: State, ids: seq<int>, i: nat, times: map<Digest, seq<Instant>>, missed: seq<Digest>, h: Digest, vector: seq<Instant>)
    requires i < |ids| && (forall k :: 0 <= k < |ids| ==> ids[k] in s.rows) && MissesCounted(s, ids[..i], times, missed)
    requires s.rows[ids[i]].timestampsHash == Some(h)
    ensures MissesCounted(s, ids[..i + 1], times[h := vector], missed)
  {
    assert ids[..i + 1][..i] == ids[..i];
  }

  lemma AxisMissed(s: State, ids: seq<int>, i: nat, get: VectorReader, times: map<Digest, seq<Instant>>, fetched: seq<Digest>, missed: seq<Digest>, vectors: Vectors, h: Digest)
    requires i < |ids| && (forall k :: 0 <= k < |ids| ==> ids[k] in s.rows)
    requires AxesSoFar(s, ids[..i], get, times, fetched, missed, vectors)
    requires s.rows[ids[i]].timestampsHash == Some(h) && h !in times && get(h) == Err(NotFound)
    ensures AxesSoFar(s, ids[..i + 1], get, times, fetched, missed + [h], vectors)
  {
    assert ids[..i + 1][..i] == ids[..i];
  }

  /** A vector the store holds is fetched once, however many rows name it; one it does not hold is asked for
      again by every row that names it, and left out; any other failure is passed on. `fetched` and `missed`
      are the lookups that found a vector and those that did not, in order. */
  method ReadAxes(s: State, ids: seq<int>, get: VectorReader, memo: Memo, ghost vectors: Vectors)
    returns (r: Result<map<Digest, seq<Instant>>>, ghost fetched: seq<Digest>, ghost missed: seq<Digest>)
    requires forall k :: 0 <= k < |ids| ==> ids[k] in s.rows
    requires memo.Valid(vectors) && HonestVectors(get, vectors)
    modifies memo
    ensures memo.Valid(vectors)
    ensures r.Ok? ==> AxesSoFar(s, ids, get, r.value, fetched, missed, vectors)
    ensures r.Err? ==> r.error != NotFound && SomeAxisFails(s, ids, get, r.error)
  {
    var times: map<Digest, seq<Instant>> := map[];
    fetched, missed := [], [];
    for i := 0 to |ids|
      invariant memo.Valid(vectors) && AxesSoFar(s, ids[..i], get, times, fetched, missed, vectors)
    {
      var axis := s.rows[ids[i]].timestampsHash;
      if axis.Some? && axis.value !in times {
        var ts := memo.TimestampsForHash(axis.value, get, vectors);
        match ts
        case Ok(vector) =>
          AxisFetched(s, ids, i, get, times, fetched, missed, vectors, axis.value);
          times := times[axis.value := vector];
          fetched := fetched + [axis.value];
        case Err(e) =>
          if e != NotFound {
            return Err(e), fetched, missed;
          }
          AxisMissed(s, ids, i, get, times, fetched, missed, vectors, axis.value);
          missed := missed + [axis.value];
      } else {
        AxisSkipped(s, ids, i, get, times, fetched, missed, vectors);
      }
    }
    assert ids[..|ids|] == ids;
    return Ok(times), fetched, missed;
  }

  method ListInner(sha: Sha, s: State, filter: Filter, scan: seq<int>, setScan: seq<SetKey>,
                   get: Option<VectorReader>, memo: Memo, ghost vectors: Vectors)
    returns (r: Result<Page>, ghost ids: seq<int>, ghost byHash: map<Digest, Features>, ghost times: map<Digest, seq<Instant>>)
    requires Lists(scan, s.rows.Keys) && (forall k :: k in setScan <==> k in s.sets)
    requires memo.Valid(vectors) && (get.Some? ==> HonestVectors(get.value, vectors))
    modifies memo
    ensures memo.Valid(vectors)
    ensures r.Ok? ==> Lists(ids, set i | i in s.rows && Selected(filter, i, s.rows[i])) && Hydrated(sha, s, ids, byHash)
    ensures r.Ok? ==> ListsRows(s, byHash, times, Surviving(s, filter, byHash, ids), r.value.rows)
    ensures r.Ok? ==> r.value.cohorts == FirstSeen(Axes(r.value.rows))
    ensures r.Ok? && get.None? ==> times == map[]
    ensures r.Ok? && get.Some? ==> forall h :: h in r.value.cohorts ==> h in times && h in vectors && times[h] == vectors[h]
    ensures forall k :: 0 <= k < |ids| ==> ids[k] in s.rows
    ensures r.Err? ==>
      || !SetsReadable(sha, s, ids)
      || (get.Some? && r.error != NotFound && SomeAxisFails(s, ids, get.value, r.error))
      || (get.Some? && r.error == IntegrityError && SomeAxisFails(s, Surviving(s, filter, byHash, ids), get.value, NotFound))
  {
    byHash, times := map[], map[];
    var rows := Select(scan, set i | i in s.rows && Selected(filter, i, s.rows[i]));
    ids := rows;
    var found: map<Digest, seq<Instant>> := map[];
    if get.Some? {
      var axes;
      ghost var fetched, missed;
      axes, fetched, missed := ReadAxes(s, rows, get.value, memo, vectors);
      if axes.Err? {
        return Err(axes.error), ids, byHash, times;
      }
      found := axes.value;
    }
    var features := ReadFeatureSets(sha, s, rows, setScan);
    if features.Err? {
      return Err(features.error), ids, byHash, times;
    }
    byHash, times := features.value, found;
    var page := Assemble(s, filter, rows, features.value, found, get.Some?);
    if page.Ok? && get.Some? {
      CohortsRead(s, byHash, times, Surviving(s, filter, byHash, ids), page.value.rows);
    }
    if page.Err? {
      MissingFails(s, filter, byHash, ids, times, get.value);
    }
    return page, ids, byHash, times;
  }

  /** With every listed row's axis read, so is every cohort. */
  lemma CohortsRead(s: State, byHash: map<Digest, Features>, times: map<Digest, seq<Instant>>, ids: seq<int>, out: seq<Listed>)
    requires ListsRows(s, byHash, times, ids, out) && !SomeAxisMissing(s, ids, times)
    ensures forall h :: h in FirstSeen(Axes(out)) ==> h in times
  {
    forall h | h in FirstSeen(Axes(out))
      ensures h in times
    {
      assert Some(h) in Axes(out);
      var k :| 0 <= k < |out| && Axes(out)[k] == Some(h);
      assert out[k] == ListedRow(s, byHash, times, ids[k]);
    }
  }

  /** A surviving row whose axis was left out is one whose lookup found nothing. */
  lemma MissingFails(s: State, filter: Filter, byHash: map<Digest, Features>, ids: seq<int>, times: map<Digest, seq<Instant>>, get: VectorReader)
    requires forall k :: 0 <= k < |ids| ==> ids[k] in s.rows && AxisSettled(s, ids[k], get, times)
    requires SomeAxisMissing(s, Surviving(s, filter, byHash, ids), times)
    ensures SomeAxisFails(s, Surviving(s, filter, byHash, ids), get, NotFound)
  {
    var kept := Surviving(s, filter, byHash, ids);
    var k :| 0 <= k < |kept| && s.rows[kept[k]].timestampsHash.Some? && s.rows[kept[k]].timestampsHash.value !in times;
    var j :| 0 <= j < |ids| && ids[j] == kept[k];
    assert AxisSettled(s, ids[j], get, times);
  }

  /** One more surviving row. */
  lemma PushRow(s: State, filter: Filter, byHash: map<Digest, Features>, times: map<Digest, seq<Instant>>, ids: seq<int>, out: seq<Listed>, id: int)
    requires (forall k :: 0 <= k < |ids| ==> ids[k] in s.rows) && id in s.rows
    requires ListsRows(s, byHash, times, Surviving(s, filter, byHash, ids), out)
    requires Survives(filter, FeaturesFor(byHash, s.rows[id].featuresHash))
    ensures var more := out + [ListedRow(s, byHash, times, id)];
      var axis := s.rows[id].timestampsHash;
      && ListsRows(s, byHash, times, Surviving(s, filter, byHash, ids + [id]), more)
      && FirstSeen(Axes(more)) == (if axis.Some? && axis.value !in FirstSeen(Axes(out)) then FirstSeen(Axes(out)) + [axis.value] else FirstSeen(Axes(out)))
  {
    SurvivingPush(s, filter, byHash, ids, id);
    var listed := ListedRow(s, byHash, times, id);
    ListsRowsPush(s, byHash, times, Surviving(s, filter, byHash, ids), out, id);
    AxesPush(out, listed);
    FirstSeenPush(Axes(out), listed.axis);
  }

  lemma SurvivingPush(s: State, filter: Filter, byHash: map<Digest, Features>, ids: seq<int>, id: int)
    requires (forall k :: 0 <= k < |ids| ==> ids[k] in s.rows) && id in s.rows
    requires Survives(filter, FeaturesFor(byHash, s.rows[id].featuresHash))
    ensures Surviving(s, filter, byHash, ids + [id]) == Surviving(s, filter, byHash, ids) + [id]
  {
    assert (ids + [id])[..|ids|] == ids;
  }

  lemma ListsRowsPush(s: State, byHash: map<Digest, Features>, times: map<Digest, seq<Instant>>, kept: seq<int>, out: seq<Listed>, id: int)
    requires ListsRows(s, byHash, times, kept, out) && id in s.rows
    ensures ListsRows(s, byHash, times, kept + [id], out + [ListedRow(s, byHash, times, id)])
  {}

  lemma AxesPush(out: seq<Listed>, last: Listed)
    ensures Axes(out + [last]) == Axes(out) + [last.axis]
  {}

  lemma FirstSeenPush(axes: seq<Option<Digest>>, axis: Option<Digest>)
    ensures FirstSeen(axes + [axis])
         == if axis.Some? && axis.value !in FirstSeen(axes) then FirstSeen(axes) + [axis.value] else FirstSeen(axes)
  {
    assert (axes + [axis])[..|axes|] == axes;
  }

  /** Every surviving row's axis was read. */
  predicate NoneMissing(s: State, filter: Filter, byHash: map<Digest, Features>, ids: seq<int>, times: map<Digest, seq<Instant>>)
    requires forall k :: 0 <= k < |ids| ==> ids[k] in s.rows
  {
    forall k :: 0 <= k < |ids| && Survives(filter, FeaturesFor(byHash, s.rows[ids[k]].featuresHash)) ==>
      s.rows[ids[k]].timestampsHash.Some? ==> s.rows[ids[k]].timestampsHash.value in times
  }

  predicate SomeAxisMissing(s: State, ids: seq<int>, times: map<Digest, seq<Instant>>)
    requires forall k :: 0 <= k < |ids| ==> ids[k] in s.rows
  {
    exists k :: 0 <= k < |ids| && s.rows[ids[k]].timestampsHash.Some? && s.rows[ids[k]].timestampsHash.value !in times
  }

  /** The surviving rows, rehydrated; with hydration on, a surviving row whose axis is missing fails the listing. */
  method Assemble(s: State, filter: Filter, rows: seq<int>, features: map<Digest, Features>, times: map<Digest, seq<Instant>>, hydrate: bool)
    returns (r: Result<Page>)
    requires forall k :: 0 <= k < |rows| ==> rows[k] in s.rows
    requires !hydrate ==> times == map[]
    ensures r.Ok? ==> ListsRows(s, features, times, Surviving(s, filter, features, rows), r.value.rows)
    ensures r.Ok? ==> r.value.cohorts == FirstSeen(Axes(r.value.rows))
    ensures r.Err? <==> hydrate && SomeAxisMissing(s, Surviving(s, filter, features, rows), times)
    ensures r.Err? ==> r.error == IntegrityError
  {
    var out: seq<Listed> := [];
    var cohorts: seq<Digest> := [];
    for i := 0 to |rows|
      invariant Assembled(s, filter, features, times, hydrate, rows[..i], out, cohorts)
    {
      var row := s.rows[rows[i]];
      var f := FeaturesFor(features, row.featuresHash);
      var axis := row.timestampsHash;
      if Survives(filter, f) && hydrate && axis.Some? && axis.value !in times {
        MissingSurvivor(s, filter, features, rows, times, i);
        return Err(IntegrityError);
      }
      if Survives(filter, f) {
        AssembledPush(s, filter, features, times, hydrate, rows, i, out, cohorts);
        if axis.Some? && axis.value !in cohorts {
          cohorts := cohorts + [axis.value];
        }
        out := out + [Listed(Rehydrated(rows[i], row, f, AxisTimes(times, axis)), axis)];
      } else {
        AssembledSkip(s, filter, features, times, hydrate, rows, i, out, cohorts);
      }
    }
    assert rows[..|rows|] == rows;
    AssembledMeans(s, filter, features, times, hydrate, rows, out, cohorts);
    return Ok(Page(out, cohorts));
  }

  /** Part-way through the rows. */
  ghost predicate Assembled(s: State, filter: Filter, byHash: map<Digest, Features>, times: map<Digest, seq<Instant>>, hydrate: bool, ids: seq<int>, out: seq<Listed>, cohorts: seq<Digest>)
    requires forall k :: 0 <= k < |ids| ==> ids[k] in s.rows
  {
    && ListsRows(s, byHash, times, Surviving(s, filter, byHash, ids), out) && cohorts == FirstSeen(Axes(out))
    && (hydrate ==> NoneMissing(s, filter, byHash, ids, times))
  }

  lemma AssembledMeans(s: State, filter: Filter, byHash: map<Digest, Features>, times: map<Digest, seq<Instant>>, hydrate: bool, ids: seq<int>, out: seq<Listed>, cohorts: seq<Digest>)
    requires (forall k :: 0 <= k < |ids| ==> ids[k] in s.rows) && Assembled(s, filter, byHash, times, hydrate, ids, out, cohorts)
    ensures hydrate ==> !SomeAxisMissing(s, Surviving(s, filter, byHash, ids), times)
  {
    if hydrate {
      NoneMissingMeans(s, filter, byHash, ids, times);
    }
  }

  /** A surviving row, its axis read if it must be, is one more. */
  lemma AssembledPush(s: State, filter: Filter, byHash: map<Digest, Features>, times: map<Digest, seq<Instant>>, hydrate: bool, ids: seq<int>, i: nat, out: seq<Listed>, cohorts: seq<Digest>)
    requires i < |ids| && (forall k :: 0 <= k < |ids| ==> ids[k] in s.rows)
    requires Assembled(s, filter, byHash, times, hydrate, ids[..i], out, cohorts)
    requires Survives(filter, FeaturesFor(byHash, s.rows[ids[i]].featuresHash))
    requires hydrate && s.rows[ids[i]].timestampsHash.Some? ==> s.rows[ids[i]].timestampsHash.value in times
    ensures var axis := s.rows[ids[i]].timestampsHash;
      Assembled(s, filter, byHash, times, hydrate, ids[..i + 1], out + [ListedRow(s, byHash, times, ids[i])],
                if axis.Some? && axis.value !in cohorts then cohorts + [axis.value] else cohorts)
  {
    NextNoneMissing(s, filter, byHash, times, hydrate, ids, i);
    assert ids[..i + 1] == ids[..i] + [ids[i]];
    PushRow(s, filter, byHash, times, ids[..i], out, ids[i]);
  }

  /** Any other row changes nothing. */
  lemma AssembledSkip(s: State, filter: Filter, byHash: map<Digest, Features>, times: map<Digest, seq<Instant>>, hydrate: bool, ids: seq<int>, i: nat, out: seq<Listed>, cohorts: seq<Digest>)
    requires i < |ids| && (forall k :: 0 <= k < |ids| ==> ids[k] in s.rows)
    requires Assembled(s, filter, byHash, times, hydrate, ids[..i], out, cohorts)
    requires !Survives(filter, FeaturesFor(byHash, s.rows[ids[i]].featuresHash))
    ensures Assembled(s, filter, byHash, times, hydrate, ids[..i + 1], out, cohorts)
  {
    NextNoneMissing(s, filter, byHash, times, hydrate, ids, i);
    SurvivingSkips(s, filter, byHash, ids, i);
  }

  lemma SurvivingSkips(s: State, filter: Filter, byHash: map<Digest, Features>, ids: seq<int>, i: nat)
    requires i < |ids| && (forall k :: 0 <= k < |ids| ==> ids[k] in s.rows)
    requires !Survives(filter, FeaturesFor(byHash, s.rows[ids[i]].featuresHash))
    ensures Surviving(s, filter, byHash, ids[..i + 1]) == Surviving(s, filter, byHash, ids[..i])
  {
    assert ids[..i + 1][..i] == ids[..i];
  }

  lemma NextNoneMissing(s: State, filter: Filter, byHash: map<Digest, Features>, times: map<Digest, seq<Instant>>, hydrate: bool, ids: seq<int>, i: nat)
    requires i < |ids| && (forall k :: 0 <= k < |ids| ==> ids[k] in s.rows)
    requires hydrate ==> NoneMissing(s, filter, byHash, ids[..i], times)
    requires Survives(filter, FeaturesFor(byHash, s.rows[ids[i]].featuresHash)) && hydrate && s.rows[ids[i]].timestampsHash.Some?
             ==> s.rows[ids[i]].timestampsHash.value in times
    ensures hydrate ==> NoneMissing(s, filter, byHash, ids[..i + 1], times)
  {
    var next := ids[..i + 1];
    assert forall k :: 0 <= k < i ==> next[k] == ids[..i][k];
  }

  lemma MissingSurvivor(s: State, filter: Filter, byHash: map<Digest, Features>, ids: seq<int>, times: map<Digest, seq<Instant>>, i: nat)
    requires i < |ids| && (forall k :: 0 <= k < |ids| ==> ids[k] in s.rows)
    requires Survives(filter, FeaturesFor(byHash, s.rows[ids[i]].featuresHash))
    requires s.rows[ids[i]].timestampsHash.Some? && s.rows[ids[i]].timestampsHash.value !in times
    ensures SomeAxisMissing(s, Surviving(s, filter, byHash, ids), times)
  {
    SurvivingAre(s, filter, byHash, ids);
    var id := ids[i];
    assert id in ids && id in Surviving(s, filter, byHash, ids);
  }

  lemma NoneMissingMeans(s: State, filter: Filter, byHash: map<Digest, Features>, ids: seq<int>, times: map<Digest, seq<Instant>>)
    requires (forall k :: 0 <= k < |ids| ==> ids[k] in s.rows) && NoneMissing(s, filter, byHash, ids, times)
    ensures !SomeAxisMissing(s, Surviving(s, filter, byHash, ids), times)
  {
    SurvivingAre(s, filter, byHash, ids);
    var kept := Surviving(s, filter, byHash, ids);
    forall k | 0 <= k < |kept| && s.rows[kept[k]].timestampsHash.Some?
      ensures s.rows[kept[k]].timestampsHash.value in times
    {
      var id := kept[k];
      assert id in kept && id in ids;
      var j :| 0 <= j < |ids| && ids[j] == id;
    }
  }

  // ---- interned axes -----------------------------------------------------------------------------

  datatype TimelineRow = TimelineRow(meta: TimeSeriesMetadata, axis: nat)
  datatype Timelines = Timelines(rows: seq<TimelineRow>, axes: seq<seq<Instant>>)

  /** Position of `h` among the distinct hashes. */
  function PositionOf(hashes: seq<Digest>, h: Digest): (r: nat)
    requires h in hashes
    ensures r < |hashes| && hashes[r] == h
  {
    if hashes[|hashes| - 1] == h then |hashes| - 1
    else
      var init := hashes[..|hashes| - 1];
      assert hashes == init + [hashes[|hashes| - 1]];
      PositionOf(init, h)
  }

  /** Every row tagged with the index of its own axis in a duplicate-free list, each axis decoded once. */
  method ListTimelineRows(sha: Sha, s: State, filter: Filter, scan: seq<int>, setScan: seq<SetKey>,
                          get: VectorReader, memo: Memo, ghost vectors: Vectors)
    returns (r: Result<Timelines>, ghost ids: seq<int>, ghost byHash: map<Digest, Features>, ghost cohorts: seq<Digest>)
    requires Lists(scan, s.rows.Keys) && (forall k :: k in setScan <==> k in s.sets)
    requires memo.Valid(vectors) && HonestVectors(get, vectors)
    modifies memo
    ensures memo.Valid(vectors)
    ensures r.Ok? ==> Lists(ids, set i | i in s.rows && Selected(filter, i, s.rows[i])) && Hydrated(sha, s, ids, byHash)
    ensures r.Ok? ==> Unique(cohorts) && Decodes(cohorts, vectors, r.value.axes)
    ensures r.Ok? ==> Interned(s, byHash, Surviving(s, filter, byHash, ids), cohorts, r.value.rows)
    ensures forall k :: 0 <= k < |ids| ==> ids[k] in s.rows
    ensures r.Err? ==>
      || !SetsReadable(sha, s, ids)
      || (r.error == IntegrityError && SomeRowOffAxis(s, Surviving(s, filter, byHash, ids)))
      || exists h :: get(h) == Err(r.error)
  {
    cohorts := [];
    var listed;
    ghost var none;
    listed, ids, byHash, none := ListInner(sha, s, filter, scan, setScan, None, memo, vectors);
    if listed.Err? {
      return Err(listed.error), ids, byHash, cohorts;
    }
    cohorts := listed.value.cohorts;
    var tagged := InternRows(s, listed.value, byHash, none, Surviving(s, filter, byHash, ids));
    if tagged.Err? {
      return Err(tagged.error), ids, byHash, cohorts;
    }
    var axes := DecodeAxes(listed.value.cohorts, get, memo, vectors);
    if axes.Err? {
      return Err(axes.error), ids, byHash, cohorts;
    }
    return Ok(Timelines(tagged.value, axes.value)), ids, byHash, cohorts;
  }

  /** Some row names no axis at all. */
  predicate SomeRowOffAxis(s: State, ids: seq<int>) {
    exists k :: 0 <= k < |ids| && ids[k] in s.rows && s.rows[ids[k]].timestampsHash.None?
  }

  /** Tag each row with its axis; a row that names none is a damaged catalog. */
  method InternRows(s: State, page: Page, ghost byHash: map<Digest, Features>, ghost none: map<Digest, seq<Instant>>, ghost kept: seq<int>)
    returns (r: Result<seq<TimelineRow>>)
    requires ListsRows(s, byHash, none, kept, page.rows) && none == map[] && page.cohorts == FirstSeen(Axes(page.rows))
    ensures r.Ok? ==> Interned(s, byHash, kept, page.cohorts, r.value)
    ensures r.Err? <==> SomeRowOffAxis(s, kept)
    ensures r.Err? ==> r.error == IntegrityError
  {
    var out: seq<TimelineRow> := [];
    for i := 0 to |page.rows|
      invariant Interned(s, byHash, kept[..i], page.cohorts, out)
    {
      var axis := page.rows[i].axis;
      TagRow(s, page, byHash, none, kept, i);
      if axis.None? {
        return Err(IntegrityError);
      }
      InternedPush(s, byHash, kept, i, page.cohorts, out, TimelineRow(page.rows[i].meta, PositionOf(page.cohorts, axis.value)));
      out := out + [TimelineRow(page.rows[i].meta, PositionOf(page.cohorts, axis.value))];
    }
    assert kept[..|kept|] == kept;
    AllInterned(s, byHash, kept, page.cohorts, out);
    return Ok(out);
  }

  lemma TagRow(s: State, page: Page, byHash: map<Digest, Features>, none: map<Digest, seq<Instant>>, kept: seq<int>, i: nat)
    requires ListsRows(s, byHash, none, kept, page.rows) && none == map[] && page.cohorts == FirstSeen(Axes(page.rows))
    requires i < |page.rows|
    ensures page.rows[i].axis == s.rows[kept[i]].timestampsHash
    ensures page.rows[i].axis.None? ==> SomeRowOffAxis(s, kept)
    ensures page.rows[i].axis.Some? ==> page.rows[i].axis.value in page.cohorts
    ensures page.rows[i].axis.Some? ==>
      OnAxis(s, byHash, kept[i], page.cohorts, TimelineRow(page.rows[i].meta, PositionOf(page.cohorts, page.rows[i].axis.value)))
  {
    assert page.rows[i] == ListedRow(s, byHash, none, kept[i]);
    assert Axes(page.rows)[i] == page.rows[i].axis;
  }

  lemma InternedPush(s: State, byHash: map<Digest, Features>, kept: seq<int>, i: nat, cohorts: seq<Digest>, out: seq<TimelineRow>, row: TimelineRow)
    requires i < |kept| && Interned(s, byHash, kept[..i], cohorts, out) && OnAxis(s, byHash, kept[i], cohorts, row)
    ensures Interned(s, byHash, kept[..i + 1], cohorts, out + [row])
  {
    assert kept[..i + 1] == kept[..i] + [kept[i]];
  }

  lemma AllInterned(s: State, byHash: map<Digest, Features>, kept: seq<int>, cohorts: seq<Digest>, out: seq<TimelineRow>)
    requires Interned(s, byHash, kept, cohorts, out)
    ensures !SomeRowOffAxis(s, kept)
  {
    forall k | 0 <= k < |kept|
      ensures kept[k] in s.rows && s.rows[kept[k]].timestampsHash.Some?
    {
      assert OnAxis(s, byHash, kept[k], cohorts, out[k]);
    }
  }

  method DecodeAxes(cohorts: seq<Digest>, get: VectorReader, memo: Memo, ghost vectors: Vectors) returns (r: Result<seq<seq<Instant>>>)
    requires memo.Valid(vectors) && HonestVectors(get, vectors)
    modifies memo
    ensures memo.Valid(vectors)
    ensures r.Ok? ==> Decodes(cohorts, vectors, r.value)
    ensures r.Err? ==> exists h :: h in cohorts && get(h) == Err(r.error)
  {
    var axes: seq<seq<Instant>> := [];
    for c := 0 to |cohorts|
      invariant memo.Valid(vectors) && Decodes(cohorts[..c], vectors, axes)
    {
      var ts := memo.TimestampsForHash(cohorts[c], get, vectors);
      if ts.Err? {
        assert cohorts[c] in cohorts && get(cohorts[c]) == Err(ts.error);
        return Err(ts.error);
      }
      axes := axes + [ts.value];
    }
    assert cohorts[..|cohorts|] == cohorts;
    return Ok(axes);
  }

  predicate Decodes(cohorts: seq<Digest>, vectors: Vectors, axes: seq<seq<Instant>>) {
    |axes| == |cohorts| && forall c :: 0 <= c < |cohorts| ==> cohorts[c] in vectors && axes[c] == vectors[cohorts[c]]
  }

  /** The row filed under `id`, without its axis, tagged with where that axis sits. */
  predicate OnAxis(s: State, byHash: map<Digest, Features>, id: int, cohorts: seq<Digest>, out: TimelineRow) {
    && id in s.rows
    && out.meta == Rehydrated(id, s.rows[id], FeaturesFor(byHash, s.rows[id].featuresHash), None)
    && out.axis < |cohorts|
    && s.rows[id].timestampsHash == Some(cohorts[out.axis])
  }

  predicate Interned(s: State, byHash: map<Digest, Features>, ids: seq<int>, cohorts: seq<Digest>, out: seq<TimelineRow>) {
    |out| == |ids| && forall k :: 0 <= k < |ids| ==> OnAxis(s, byHash, ids[k], cohorts, out[k])
  }

  // ---- existence -----------------------------------------------------------------------------------

  /** The correlated subset probe: one seek per required feature, kind-strict. */
  predicate ProbesSubset(s: State, row: Row, required: seq<Feature>) {
    forall k :: 0 <= k < |required| ==>
      var key := SetKey(row.featuresHash, required[k].key);
      key in s.sets && s.sets[key] == Held(required[k].value)
  }

  predicate AnyRow(s: State, filter: Filter) { exists i :: i in s.rows && Selected(filter, i, s.rows[i]) }

  predicate ExistsFeatureSubset(s: State, filter: Filter, required: seq<Feature>) {
    && AllStorable(required)
    && exists i :: i in s.rows && Selected(filter, i, s.rows[i]) && ProbesSubset(s, s.rows[i], required)
  }

  /** The two-step probe: the requested set as an exact set first, the subset seek on a miss. */
  predicate Exists(sha: Sha, s: State, filter: Filter) {
    if filter.features.Some? && filter.features.value != [] then
      var required := filter.features.value;
      || (filter.featuresHash.None? && AnyRow(s, filter.(features := None, featuresHash := Some(FeaturesDigest(sha, required)))))
      || ExistsFeatureSubset(s, filter, required)
    else AnyRow(s, filter)
  }

  /** What the catalog promises the two paths: every row's features are a known map, all of it stored,
      every value as written, and the digest tells known maps and the request apart. */
  ghost predicate Sound(sha: Sha, known: set<Features>, asked: set<Features>, s: State) {
    && Distinguishes(sha, known + asked)
    && SetsSound(sha, known, s.sets)
    && SetsPresent(sha, known, s)
    && (forall f :: f in known ==> AllStorable(f))
  }

  /** The map behind a row, which is what a listing hydrates. */
  lemma RowFeatures(sha: Sha, known: set<Features>, asked: set<Features>, s: State, i: int, byHash: map<Digest, Features>)
    returns (f: Features)
    requires Sound(sha, known, asked, s) && i in s.rows && [] in known + asked
    requires Hydrated(sha, s, [i], byHash)
    ensures f in known && FeaturesDigest(sha, f) == s.rows[i].featuresHash
    ensures SetIs(s.sets, s.rows[i].featuresHash, f) && AllStorable(f)
    ensures FeaturesFor(byHash, s.rows[i].featuresHash) == f
  {
    var hash := s.rows[i].featuresHash;
    f :| f in known && FeaturesDigest(sha, f) == hash && Covered(s.sets, hash, f);
    DistinguishesLess(sha, known, asked);
    PresentIsExact(sha, known, s.sets, f);
    SetReadsBack(s.sets, hash, f);
    var ids := [i];
    if hash in byHash {
      SameSetSameMap(s.sets, hash, f, byHash[hash]);
    } else {
      assert ids[0] == i;
      DigestIdentifies(sha, known + asked, f, []);
    }
  }

  lemma DistinguishesLess(sha: Sha, known: set<Features>, asked: set<Features>)
    requires Distinguishes(sha, known + asked)
    ensures Distinguishes(sha, known)
  {
    assert forall f :: f in known ==> f in known + asked;
  }

  lemma SameSetSameMap(sets: map<SetKey, Cell>, hash: Digest, f: Features, g: Features)
    requires SetIs(sets, hash, f) && SetIs(sets, hash, g)
    ensures f == g
  {
    SetIsIncludes(sets, hash, f, g);
    SetIsIncludes(sets, hash, g, f);
    SetIsUnique(f, g);
  }

  lemma SetIsIncludes(sets: map<SetKey, Cell>, hash: Digest, f: Features, g: Features)
    requires SetIs(sets, hash, f) && SetIs(sets, hash, g)
    ensures forall e :: e in f ==> e in g
  {
    forall e | e in f
      ensures e in g
    {
      assert SetKey(hash, e.key) in sets;
      var d :| d in g && d.key == e.key;
    }
  }

  /** On a complete set of storable values, the seeks find what the in-memory subset test accepts. */
  lemma SubsetIsProbed(s: State, row: Row, required: seq<Feature>, f: Features)
    requires SetIs(s.sets, row.featuresHash, f) && AllStorable(f) && IsSubset(required, f)
    ensures AllStorable(required) && ProbesSubset(s, row, required)
  {
    forall k | 0 <= k < |required|
      ensures !Unstorable(required[k].value) && SetKey(row.featuresHash, required[k].key) in s.sets
      ensures s.sets[SetKey(row.featuresHash, required[k].key)] == Held(required[k].value)
    {
      assert HasFeature(f, required[k]);
      var j :| 0 <= j < |f| && SameFeature(required[k], f[j]);
      CanonicalIsNan();
      assert f[j] in f;
    }
  }

  lemma ProbedIsSubset(s: State, row: Row, required: seq<Feature>, f: Features)
    requires SetIs(s.sets, row.featuresHash, f) && ProbesSubset(s, row, required)
    ensures IsSubset(required, f)
  {
    forall k | 0 <= k < |required|
      ensures HasFeature(f, required[k])
    {
      var key := SetKey(row.featuresHash, required[k].key);
      assert key in s.sets && s.sets[key] == Held(required[k].value);
      var e :| e in f && e.key == required[k].key;
      var j :| 0 <= j < |f| && f[j] == e;
      assert SameFeature(required[k], f[j]);
    }
  }

  /** A row filed with exactly the requested set passes the subset test. */
  lemma ExactIsSubset(sha: Sha, known: set<Features>, required: Features, f: Features)
    requires Distinguishes(sha, known) && f in known && required in known
    requires FeaturesDigest(sha, f) == FeaturesDigest(sha, required)
    ensures IsSubset(required, f)
  {
    FeaturesStreamIdentifies(required, f);
    var c, d := Canonicalized(required), Canonicalized(f);
    assert |c| == |d| == |required| == |f|;
    forall k | 0 <= k < |required|
      ensures HasFeature(f, required[k])
    {
      assert c[k] == d[k];
      assert SameFeature(required[k], f[k]);
    }
  }

  /** The fast probe answers what the slow listing would: there is a row precisely when listing the same
      filter, in-memory feature test included, comes back non-empty. */
  lemma ExistsIsNonEmptyListing(sha: Sha, known: set<Features>, s: State, filter: Filter, ids: seq<int>, byHash: map<Digest, Features>)
    requires Sound(sha, known, Asked(filter), s)
    requires Lists(ids, set i | i in s.rows && Selected(filter, i, s.rows[i])) && Hydrated(sha, s, ids, byHash)
    ensures Exists(sha, s, filter) <==> Surviving(s, filter, byHash, ids) != []
  {
    SurvivingAre(s, filter, byHash, ids);
    var kept := Surviving(s, filter, byHash, ids);
    forall i | i in s.rows && Selected(filter, i, s.rows[i])
      ensures i in kept <==> ExistsThrough(sha, s, filter, i)
    {
      ExistsRowByRow(sha, known, s, filter, ids, byHash, i);
    }
    ExistsIsSomeRow(sha, s, filter);
    if kept != [] {
      var first := kept[0];
      assert first in kept && first in ids;
      assert first in s.rows && Selected(filter, first, s.rows[first]) && ExistsThrough(sha, s, filter, first);
    }
  }

  function Asked(filter: Filter): set<Features> {
    (if filter.features.Some? then {filter.features.value} else {}) + {[]}
  }

  /** The probe, asked of one row. */
  predicate ExistsThrough(sha: Sha, s: State, filter: Filter, i: int)
    requires i in s.rows
  {
    if filter.features.Some? && filter.features.value != [] then
      var required := filter.features.value;
      || (filter.featuresHash.None? && s.rows[i].featuresHash == FeaturesDigest(sha, required))
      || (AllStorable(required) && ProbesSubset(s, s.rows[i], required))
    else true
  }

  lemma ExistsIsSomeRow(sha: Sha, s: State, filter: Filter)
    ensures Exists(sha, s, filter) <==> exists i :: i in s.rows && Selected(filter, i, s.rows[i]) && ExistsThrough(sha, s, filter, i)
  {
    if filter.features.Some? && filter.features.value != [] {
      var exact := filter.(features := None, featuresHash := Some(FeaturesDigest(sha, filter.features.value)));
      assert filter.featuresHash.None? ==> forall i :: i in s.rows ==>
        (Selected(exact, i, s.rows[i])
         <==> Selected(filter, i, s.rows[i]) && s.rows[i].featuresHash == FeaturesDigest(sha, filter.features.value));
    }
  }

  lemma ExistsRowByRow(sha: Sha, known: set<Features>, s: State, filter: Filter, ids: seq<int>, byHash: map<Digest, Features>, i: int)
    requires Sound(sha, known, Asked(filter), s) && i in ids && i in s.rows && Hydrated(sha, s, ids, byHash)
    ensures Survives(filter, FeaturesFor(byHash, s.rows[i].featuresHash)) <==> ExistsThrough(sha, s, filter, i)
  {
    var asked := Asked(filter);
    assert Hydrated(sha, s, [i], byHash);
    var f := RowFeatures(sha, known, asked, s, i, byHash);
    if filter.features.Some? && filter.features.value != [] {
      var required := filter.features.value;
      if IsSubset(required, f) {
        SubsetIsProbed(s, s.rows[i], required, f);
      } else if ProbesSubset(s, s.rows[i], required) {
        ProbedIsSubset(s, s.rows[i], required, f);
      }
      if s.rows[i].featuresHash == FeaturesDigest(sha, required) {
        assert required in known + asked;
        ExactIsSubset(sha, known + asked, required, f);
      }
    }
  }
}
