/** What the catalog's invariants give the code that sorts its rows: no two rows tie, so neither a
    reader's column layout nor the exported document depends on the order a query returned them in. */
module CatalogColumns {
  import opened Wrappers
  import opened Arrays
  import opened Storage
  import opened Ordering
  import opened Metadata
  import opened Preimages
  import opened Catalog
  import opened CatalogInvariants
  import opened CatalogRuns
  import opened Listing
  import StaticPlanning
  import StaticBuilding
  import OpenApi

  /** `m` is the row filed under `id`, its feature set read back. */
  ghost predicate ListedFrom(sha: Sha, known: set<Features>, s: State, id: int, m: TimeSeriesMetadata) {
    && id in s.rows
    && m == Rehydrated(id, s.rows[id], m.features, m.timestamps)
    && m.features in known && FeaturesDigest(sha, m.features) == s.rows[id].featuresHash
  }

  /** Equal canonical features, equal digests. */
  lemma SameFeaturesSameDigest(sha: Sha, known: set<Features>, f: Features, g: Features)
    requires Distinguishes(sha, known) && f in known && g in known && Canonicalized(f) == Canonicalized(g)
    ensures FeaturesDigest(sha, f) == FeaturesDigest(sha, g)
  {
    FeaturesStreamIdentifies(f, g);
  }

  /** The export's identity names one row. */
  lemma IdentityNamesOneRow(sha: Sha, known: set<Features>, s: State, i: int, j: int, a: TimeSeriesMetadata, b: TimeSeriesMetadata)
    requires Distinguishes(sha, known) && IdentitiesUnique(s.rows)
    requires ListedFrom(sha, known, s, i, a) && ListedFrom(sha, known, s, j, b) && OpenApi.SameIdentity(a, b)
    ensures i == j
  {
    SameFeaturesSameDigest(sha, known, a.features, b.features);
    assert IdentityOf(s.rows[i]) == IdentityOf(s.rows[j]);
  }

  /** Rows one reader may hold together: one type, or the two storage forms of a dense request, at one
      resolution and interval. */
  predicate OneKind(a: TimeSeriesMetadata, b: TimeSeriesMetadata) {
    && a.resolution == b.resolution && a.interval == b.interval
    && (a.tsType == b.tsType || (Deterministic.Accepts(a.tsType) && Deterministic.Accepts(b.tsType)))
  }

  lemma SortKeyParts(a: TimeSeriesMetadata, b: TimeSeriesMetadata)
    requires IdentitySortKey(a) == IdentitySortKey(b)
    ensures a.ownerId == b.ownerId && a.ownerCategory == b.ownerCategory && a.name == b.name
    ensures Canonicalized(a.features) == Canonicalized(b.features)
  {
    var k, l := IdentitySortKey(a), IdentitySortKey(b);
    assert k[0] == l[0] && k[1] == l[1] && k[2] == l[2];
    assert k[0][0] == l[0][0] && k[1][0] == l[1][0];
    assert k[3..] == FeaturesKey(a.features) && l[3..] == FeaturesKey(b.features);
    FeaturesKeyInjective(a.features, b.features);
  }

  /** The readers' sort key leaves out type and interval; the family exclusion is what keeps it
      unambiguous for a request that spans both forms of a deterministic forecast. */
  lemma ReaderKeyNamesOneRow(sha: Sha, known: set<Features>, s: State, i: int, j: int, a: TimeSeriesMetadata, b: TimeSeriesMetadata)
    requires Distinguishes(sha, known) && IdentitiesUnique(s.rows) && FamiliesExclusive(s.rows)
    requires ListedFrom(sha, known, s, i, a) && ListedFrom(sha, known, s, j, b)
    requires OneKind(a, b) && IdentitySortKey(a) == IdentitySortKey(b)
    ensures i == j
  {
    SortKeyParts(a, b);
    SameFeaturesSameDigest(sha, known, a.features, b.features);
    assert FamilyOf(s.rows[i]) == FamilyOf(s.rows[j]);
    assert a.tsType == b.tsType;
    assert IdentityOf(s.rows[i]) == IdentityOf(s.rows[j]);
  }

  /** Reader rows drawn from the catalog, each id once. */
  ghost predicate ReaderRows(sha: Sha, known: set<Features>, s: State, rows: seq<StaticPlanning.Row>) {
    && (forall k :: 0 <= k < |rows| ==> rows[k].meta.id.Some? && ListedFrom(sha, known, s, rows[k].meta.id.value, rows[k].meta))
    && (forall k, l :: 0 <= k < |rows| && 0 <= l < |rows| ==> OneKind(rows[k].meta, rows[l].meta))
    && (forall k, l :: 0 <= k < |rows| && 0 <= l < |rows| && rows[k].meta.id == rows[l].meta.id ==> rows[k] == rows[l])
  }

  /** On any catalog a run can reach, a reader's column layout is the same for every order the listing
      may come back in. */
  lemma LayoutIsOrderFree(sha: Sha, known: set<Features>, steps: seq<Step>, a: seq<StaticPlanning.Row>, b: seq<StaticPlanning.Row>)
    requires forall k :: 0 <= k < |steps| ==> Runnable(steps[k]) && Uses(known, steps[k])
    requires Distinguishes(sha, known) && ReaderRows(sha, known, Run(sha, FRESH, steps).state, a) && multiset(a) == multiset(b)
    ensures StaticPlanning.InColumnOrder(a) == StaticPlanning.InColumnOrder(b)
  {
    EveryRunIsSound(sha, known, steps);
    var s := Run(sha, FRESH, steps).state;
    forall k, l | 0 <= k < |a| && 0 <= l < |a| && StaticPlanning.ColumnKey(a[k]) == StaticPlanning.ColumnKey(a[l])
      ensures a[k] == a[l]
    {
      var x, y := StaticPlanning.ColumnKey(a[k]), StaticPlanning.ColumnKey(a[l]);
      assert x[2..] == IdentitySortKey(a[k].meta) && y[2..] == IdentitySortKey(a[l].meta);
      ReaderKeyNamesOneRow(sha, known, s, a[k].meta.id.value, a[l].meta.id.value, a[k].meta, a[l].meta);
    }
    StaticBuilding.LayoutIgnoresListingOrder(a, b);
  }

  /** Export rows drawn from the catalog, each id once. */
  ghost predicate ExportRows(sha: Sha, known: set<Features>, s: State, rows: seq<OpenApi.Source>) {
    && (forall k :: 0 <= k < |rows| ==> rows[k].meta.id.Some? && ListedFrom(sha, known, s, rows[k].meta.id.value, rows[k].meta))
    && (forall k, l :: 0 <= k < |rows| && 0 <= l < |rows| && rows[k].meta.id == rows[l].meta.id ==> rows[k] == rows[l])
  }

  /** On any catalog a run can reach, the exported document is the same for every listing order. */
  lemma ExportIsOrderFree(sha: Sha, known: set<Features>, steps: seq<Step>, a: seq<OpenApi.Source>, b: seq<OpenApi.Source>, iso: Period -> Text)
    requires forall k :: 0 <= k < |steps| ==> Runnable(steps[k]) && Uses(known, steps[k])
    requires Distinguishes(sha, known) && ExportRows(sha, known, Run(sha, FRESH, steps).state, a)
    requires multiset(a) == multiset(b) && OpenApi.CanonicalText(iso) && OpenApi.AllExportable(a, sha)
    ensures OpenApi.AllExportable(b, sha)
    ensures OpenApi.RowsOf(SortBy(OpenApi.KeyedRows(a, iso, sha), OpenApi.KeyOf)) == OpenApi.RowsOf(SortBy(OpenApi.KeyedRows(b, iso, sha), OpenApi.KeyOf))
  {
    EveryRunIsSound(sha, known, steps);
    var s := Run(sha, FRESH, steps).state;
    forall k, l | 0 <= k < |a| && 0 <= l < |a| && OpenApi.SameIdentity(a[k].meta, a[l].meta)
      ensures a[k] == a[l]
    {
      IdentityNamesOneRow(sha, known, s, a[k].meta.id.value, a[l].meta.id.value, a[k].meta, a[l].meta);
    }
    OpenApi.ExportIgnoresListingOrder(a, b, iso, sha);
  }

  /** On any catalog a run can reach, storable features given, the existence probe and the listing agree. */
  lemma EveryRunServesExists(sha: Sha, known: set<Features>, steps: seq<Step>, filter: Filter)
    requires forall k :: 0 <= k < |steps| ==> Runnable(steps[k]) && Uses(known, steps[k])
    requires Distinguishes(sha, known + Asked(filter)) && forall f :: f in known ==> AllStorable(f)
    ensures Sound(sha, known, Asked(filter), Run(sha, FRESH, steps).state)
  {
    EveryRunIsSound(sha, known, steps);
  }
}
