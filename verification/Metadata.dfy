/** The catalog row as the readers, the catalog and the export see it. Text is UTF-8 bytes,
    which is how the program compares, hashes and stores it. Instants are milliseconds. */
module Metadata {
  import opened Wrappers
  import opened Arrays
  import opened Storage
  import opened Ordering

  type Text = seq<Byte>
  type Instant = int

  /** The fixed periods; calendar months are not part of this model. */
  datatype Period = Fixed(ms: int) {
    predicate IsZero() { ms == 0 }

    /** `initial + k * self`. */
    function AddTo(t: Instant, k: int): Instant { t + k * ms }

    /** Whole steps from `start` to `at`, refusing an instant off the grid. */
    function StepsBetween(start: Instant, at: Instant): Result<nat> {
      if at < start then Err(InvalidParameter)
      else if ms <= 0 then Err(InvalidParameter)
      else if (at - start) % ms != 0 then Err(InvalidParameter)
      else Ok((at - start) / ms)
    }

    /** How many of `self` fit in `other`, as an exact, strictly positive integer. */
    function DivideInto(other: Period): Result<nat> {
      if ms <= 0 then Err(InvalidParameter)
      else if other.ms <= 0 || other.ms % ms != 0 then Err(InvalidParameter)
      else Ok(other.ms / ms)
    }
  }

  datatype OwnerCategory = Component | SupplementalAttribute {
    function Code(): int { if Component? then 0 else 1 }
  }

  datatype TimeSeriesType =
    | SingleTimeSeries
    | NonSequentialTimeSeries
    | Deterministic
    | DeterministicSingleTimeSeries
    | Probabilistic
    | Scenarios
    | PersistentTimeSeries
  {
    function Code(): int {
      match this
      case SingleTimeSeries => 0
      case NonSequentialTimeSeries => 1
      case Deterministic => 2
      case DeterministicSingleTimeSeries => 3
      case Probabilistic => 4
      case Scenarios => 5
      case PersistentTimeSeries => 6
    }

    /** A request for `Deterministic` also matches the derived view; every other request is exact. */
    predicate Accepts(stored: TimeSeriesType) {
      this == stored || (Deterministic? && stored.DeterministicSingleTimeSeries?)
    }

    /** Axes in front of the per-step element shape. */
    function LeadingDims(): nat {
      match this
      case Deterministic | DeterministicSingleTimeSeries => 2
      case Probabilistic | Scenarios => 3
      case _ => 1
    }
  }

  datatype TimeReference = Utc | FixedOffset(minutes: int) | Zone(name: Text) | Zoneless

  // ---- features ---------------------------------------------------------------------

  const TWO_52: int := 0x10_0000_0000_0000
  const TWO_63: int := 0x8000_0000_0000_0000
  const TWO_64: int := 0x1_0000_0000_0000_0000
  const CANONICAL_NAN: nat := 0x7ff8_0000_0000_0000

  /** A 64-bit float as its bit pattern. */
  type FloatBits = b: nat | b < TWO_64

  /** All-ones exponent and a non-zero fraction, either sign. */
  predicate IsNan(b: FloatBits) {
    (b / TWO_52) % 2048 == 2047 && b % TWO_52 != 0
  }

  function CanonicalBits(b: FloatBits): FloatBits {
    if IsNan(b) then CANONICAL_NAN else b
  }

  /** Position in the float total order: negatives by descending pattern, then positives. */
  function TotalRank(b: FloatBits): int {
    if b >= TWO_63 then -(b - TWO_63) - 1 else b
  }

  type Int64 = i: int | -TWO_63 <= i < TWO_63

  datatype FeatureValue = Int(number: Int64) | Float(bits: FloatBits) | Bool(flag: bool) | Str(text: Text) {
    /** The representative every equal value shares. */
    function Canonical(): FeatureValue {
      match this
      case Float(b) => Float(CanonicalBits(b))
      case _ => this
    }

    /** Kind first, then value. */
    function SortComponent(): Component {
      match this
      case Int(i) => [0, i]
      case Float(b) => [1, TotalRank(CanonicalBits(b))]
      case Bool(b) => [2, if b then 1 else 0]
      case Str(t) => [3] + t
    }
  }

  datatype Feature = Feature(key: Text, value: FeatureValue)

  predicate KeysAscending(s: seq<Feature>) {
    forall i, j :: 0 <= i < j < |s| ==> ComponentLess(s[i].key, s[j].key)
  }

  /** An ordered map, as the list of its entries in key order. */
  type Features = s: seq<Feature> | KeysAscending(s)

  function Canonicalized(f: seq<Feature>): (r: seq<Feature>)
    ensures |r| == |f|
    ensures KeysAscending(f) ==> KeysAscending(r)
  {
    seq(|f|, i requires 0 <= i < |f| => Feature(f[i].key, f[i].value.Canonical()))
  }

  /** A sorted entry list is a map: at most one entry per key. */
  lemma KeysDistinct(f: Features, i: nat, j: nat)
    requires i < |f| && j < |f| && f[i].key == f[j].key
    ensures i == j
  {
    ComponentOrder(f[i].key, f[j].key, []);
    ComponentOrder(f[j].key, f[i].key, []);
  }

  function FeaturesKey(f: seq<Feature>): Key {
    if f == [] then [] else [f[0].key, f[0].value.SortComponent()] + FeaturesKey(f[1..])
  }

  lemma ComponentIdentifiesValue(v: FeatureValue, w: FeatureValue)
    ensures v.SortComponent() == w.SortComponent() ==> v.Canonical() == w.Canonical()
  {
    if v.SortComponent() == w.SortComponent() {
      assert v.SortComponent()[0] == w.SortComponent()[0];
      match (v, w) {
        case (Int(i), Int(j)) => assert [0, i][1] == [0, j][1];
        case (Float(b), Float(c)) =>
          assert [1, TotalRank(CanonicalBits(b))][1] == [1, TotalRank(CanonicalBits(c))][1];
        case (Bool(b), Bool(c)) => assert [2, if b then 1 else 0][1] == [2, if c then 1 else 0][1];
        case (Str(s), Str(t)) => assert ([3] + s)[1..] == s && ([3] + t)[1..] == t;
      }
    }
  }

  /** Equal sort keys mean equal feature maps. */
  lemma {:induction false} FeaturesKeyInjective(f: seq<Feature>, g: seq<Feature>)
    requires FeaturesKey(f) == FeaturesKey(g)
    ensures Canonicalized(f) == Canonicalized(g)
  {
    if f == [] || g == [] {
      assert |FeaturesKey(f)| == 0;
      assert f == [] && g == [];
    } else {
      var a, b := FeaturesKey(f), FeaturesKey(g);
      assert a[0] == b[0] && a[1] == b[1] && a[2..] == b[2..];
      assert a[2..] == FeaturesKey(f[1..]) && b[2..] == FeaturesKey(g[1..]);
      ComponentIdentifiesValue(f[0].value, g[0].value);
      FeaturesKeyInjective(f[1..], g[1..]);
      assert Canonicalized(f) == [Feature(f[0].key, f[0].value.Canonical())] + Canonicalized(f[1..]);
      assert Canonicalized(g) == [Feature(g[0].key, g[0].value.Canonical())] + Canonicalized(g[1..]);
    }
  }

  // ---- rows -----------------------------------------------------------------------------

  datatype UnitSystem = NaturalUnits | ComponentBase

  datatype TimeSeriesMetadata = TimeSeriesMetadata(
    id: Option<int>,
    ownerId: int,
    ownerType: Text,
    ownerCategory: OwnerCategory,
    tsType: TimeSeriesType,
    name: Text,
    features: Features,
    dataHash: Digest,
    initial: Option<Instant>,
    resolution: Option<Period>,
    length: Option<nat>,
    horizon: Option<Period>,
    interval: Option<Period>,
    count: Option<nat>,
    timestamps: Option<seq<Instant>>,
    units: Option<Text>,
    quantityKind: Option<Text>,
    unitSystem: Option<UnitSystem>,
    timeReference: Option<TimeReference>,
    componentField: Option<Text>,
    percentiles: Option<seq<FloatBits>>,
    elementType: ElementType,
    elementShape: Shape,
    applicationData: Option<Text>)

  /** The readers' column order: owner, category spelling, name, features. The two category
      spellings sort in code order. */
  function IdentitySortKey(m: TimeSeriesMetadata): Key {
    [[m.ownerId], [m.ownerCategory.Code()], m.name] + FeaturesKey(m.features)
  }
}
