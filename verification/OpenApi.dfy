/** The OpenAPI document: catalog rows to wire rows and back, and the order they are exported in
    (openapi.rs). Periods, element types and feature values travel as values; their texts are
    printed and parsed elsewhere. */
module OpenApi {
  import opened Wrappers
  import opened Arrays
  import opened Storage
  import opened Ordering
  import opened Metadata
  import opened Encoding
  import opened Preimages
  import opened Timestamps
  import opened TimeReferences

  // ---- the wire forms --------------------------------------------------------------------------

  /** A wall clock with no offset, or an instant written at an offset of some minutes east. */
  datatype WireTimestamp = Local(wallClock: DateTime) | Offset(at: DateTime, minutesEast: int)

  datatype Alignment = PeriodEnding | PeriodBeginning

  datatype Shared = Shared(
    associationId: int,
    ownerId: int,
    ownerType: Text,
    ownerCategory: OwnerCategory,
    name: Text,
    features: Features,
    uri: Text,
    dataHash: Option<Text>,
    elementType: ElementType,
    elementShape: seq<int>,
    arrayShape: Option<seq<int>>,
    units: Option<Text>,
    quantityKind: Option<Text>,
    unitSystem: Option<UnitSystem>,
    timeReference: Option<Text>,
    componentField: Option<Text>,
    applicationData: Option<Text>)

  datatype ForecastFields = ForecastFields(alignment: Option<Alignment>, initial: WireTimestamp, resolution: Period, horizon: Period, interval: Period, count: int)

  datatype WireRow =
    | SingleRow(shared: Shared, alignment: Option<Alignment>, initial: WireTimestamp, resolution: Period, length: int)
    | NonSequentialRow(shared: Shared, timestampsUri: Option<Text>, length: int)
    | DeterministicRow(shared: Shared, forecast: ForecastFields)
    | DerivedRow(shared: Shared, forecast: ForecastFields)
    | ProbabilisticRow(shared: Shared, forecast: ForecastFields, percentiles: seq<FloatBits>)
    | ScenariosRow(shared: Shared, forecast: ForecastFields, scenarioCount: int)

  // ---- timestamps -------------------------------------------------------------------------------

  function FloorToMillis(t: DateTime): DateTime { FromMillis(ToMillis(t)) }

  /** The form a time reference asks for. A zone is never resolved: its series is written as UTC. */
  function TimestampWire(t: DateTime, reference: Option<TimeReference>): Result<WireTimestamp> {
    var at := FloorToMillis(t);
    match reference
    case Some(Zoneless) => Ok(Local(at))
    case Some(FixedOffset(m)) => if Abs(m) < 24 * 60 then Ok(Offset(at, m)) else Err(InvalidParameter)
    case _ => Ok(Offset(at, 0))
  }

  /** A form that contradicts its reference is refused; a wall clock is never read as UTC. */
  function TimestampFromWire(t: WireTimestamp, reference: Option<TimeReference>): Result<(DateTime, Option<TimeReference>)> {
    match (t, reference)
    case (Local(clock), None) => Ok((clock, Some(Zoneless)))
    case (Local(clock), Some(Zoneless)) => Ok((clock, Some(Zoneless)))
    case (Local(_), Some(_)) => Err(InvalidParameter)
    case (Offset(_, _), Some(Zoneless)) => Err(InvalidParameter)
    case (Offset(at, m), Some(Utc)) => if m != 0 then Err(InvalidParameter) else Ok((at, reference))
    case (Offset(at, _), _) => Ok((at, reference))
  }

  /** All five cases come back, the instant floored, the spelling kept; only an unreal offset cannot leave. */
  lemma TimestampRoundTrip(t: DateTime, reference: Option<TimeReference>)
    ensures TimestampWire(t, reference).Ok? <==> !(reference.Some? && reference.value.FixedOffset? && !Valid(reference.value))
    ensures TimestampWire(t, reference).Ok?
      ==> TimestampFromWire(TimestampWire(t, reference).value, reference) == Ok((FloorToMillis(t), reference))
  {}

  /** A wall clock under a reference with a zone, an offset under none, or a non-zero offset under UTC. */
  predicate Contradicts(t: WireTimestamp, reference: Option<TimeReference>) {
    && reference.Some?
    && ((t.Local? && !reference.value.Zoneless?) || (t.Offset? && reference.value.Zoneless?)
        || (t.Offset? && reference.value.Utc? && t.minutesEast != 0))
  }

  /** With no reference declared, the form alone decides; with one, exactly the contradictions are refused. */
  lemma RefusesExactlyContradictions(t: WireTimestamp, reference: Option<TimeReference>)
    ensures TimestampFromWire(t, reference).Err? <==> Contradicts(t, reference)
    ensures TimestampFromWire(t, reference).Ok?
      ==> (TimestampFromWire(t, reference).value.1 == Some(Zoneless) <==> t.Local?)
  {}

  // ---- shapes ----------------------------------------------------------------------------------

  /** A 64-bit size as a signed 64-bit integer, wrapping. */
  function AsI64(n: nat): int {
    var w := n % TWO_64;
    if w < TWO_63 then w else w - TWO_64
  }

  function ToUsize(v: int): Result<nat> { if v < 0 then Err(InvalidParameter) else Ok(v) }

  function DimsWire(dims: Shape): (r: seq<int>)
    ensures |r| == |dims|
  {
    seq(|dims|, k requires 0 <= k < |dims| => AsI64(dims[k]))
  }

  function DimsFromWire(dims: seq<int>): Result<Shape> {
    if dims == [] then Ok([])
    else
      match (ToUsize(dims[0]), DimsFromWire(dims[1..]))
      case (Ok(d), Ok(rest)) => Ok([d] + rest)
      case _ => Err(InvalidParameter)
  }

  /** Sizes a signed 64-bit field can carry. */
  predicate FitI64(dims: Shape) { forall k :: 0 <= k < |dims| ==> dims[k] < TWO_63 }

  lemma {:induction false} DimsRoundTrip(dims: Shape)
    requires FitI64(dims)
    ensures DimsFromWire(DimsWire(dims)) == Ok(dims)
  {
    if dims != [] {
      DimsRoundTrip(dims[1..]);
      assert DimsWire(dims)[1..] == DimsWire(dims[1..]);
      assert dims == [dims[0]] + dims[1..];
    }
  }

  /** The per-step shape: the catalog's own shape keeps the forecast's extra leading axes. */
  function WireElementShape(m: TimeSeriesMetadata): Shape {
    var extra := m.tsType.LeadingDims() - 1;
    if extra <= |m.elementShape| then m.elementShape[extra..] else []
  }

  // ---- a row out ---------------------------------------------------------------------------------

  function SharedWire(m: TimeSeriesMetadata, id: int): Shared {
    var hex := HexOf(m.dataHash);
    Shared(id, m.ownerId, m.ownerType, m.ownerCategory, m.name, m.features, hex, Some(hex), m.elementType,
           DimsWire(WireElementShape(m)),
           (match m.length case None => None case Some(n) => Some([AsI64(n)] + DimsWire(m.elementShape))),
           m.units, m.quantityKind, m.unitSystem,
           (match m.timeReference case None => None case Some(r) => Some(StorageString(r))),
           m.componentField, m.applicationData)
  }

  function Required<T>(v: Option<T>): Result<T> {
    if v.Some? then Ok(v.value) else Err(InvalidParameter)
  }

  function InitialWire(m: TimeSeriesMetadata, initial: Option<DateTime>): Result<WireTimestamp> {
    var t :- Required(initial);
    TimestampWire(t, m.timeReference)
  }

  function ForecastWire(m: TimeSeriesMetadata, initial: Option<DateTime>): Result<ForecastFields> {
    var at :- InitialWire(m, initial);
    var resolution :- Required(m.resolution);
    var horizon :- Required(m.horizon);
    var interval :- Required(m.interval);
    var count :- Required(m.count);
    Ok(ForecastFields(Some(PeriodEnding), at, resolution, horizon, interval, AsI64(count)))
  }

  /** `ts_row_to_wire`: `initial` is the row's initial timestamp as the catalog holds it. */
  function ToWire(m: TimeSeriesMetadata, initial: Option<DateTime>, sha: seq<Byte> -> Digest): Result<WireRow>
    requires m.timestamps.Some? ==> InRange(m.timestamps.value)
  {
    var id :- Required(m.id);
    var shared := SharedWire(m, id);
    match m.tsType
    case SingleTimeSeries =>
      var at :- InitialWire(m, initial);
      var resolution :- Required(m.resolution);
      var length :- Required(m.length);
      Ok(SingleRow(shared, Some(PeriodEnding), at, resolution, AsI64(length)))
    case NonSequentialTimeSeries =>
      var ts :- Required(m.timestamps);
      var length :- Required(m.length);
      Ok(NonSequentialRow(shared, Some(HexOf(sha(TimestampsPreimage(m.timestamps.value)))), AsI64(length)))
    case PersistentTimeSeries => Err(InvalidParameter)
    case Deterministic =>
      var f :- ForecastWire(m, initial);
      Ok(DeterministicRow(shared, f))
    case DeterministicSingleTimeSeries =>
      var f :- ForecastWire(m, initial);
      Ok(DerivedRow(shared, f))
    case Probabilistic =>
      var f :- ForecastWire(m, initial);
      var p :- Required(m.percentiles);
      Ok(ProbabilisticRow(shared, f, p))
    case Scenarios =>
      var f :- ForecastWire(m, initial);
      var length :- Required(m.length);
      Ok(ScenariosRow(shared, f, AsI64(length)))
  }

  // ---- a row in ----------------------------------------------------------------------------------

  datatype Timing = Timing(
    initial: Option<WireTimestamp>,
    resolution: Option<Period>,
    horizon: Option<Period>,
    interval: Option<Period>,
    length: Option<int>,
    count: Option<int>,
    percentiles: Option<seq<FloatBits>>,
    alignment: Option<Alignment>,
    timestampsUri: Option<Text>)

  const NO_TIMING: Timing := Timing(None, None, None, None, None, None, None, None, None)

  function ForecastTiming(f: ForecastFields): Timing {
    NO_TIMING.(initial := Some(f.initial), resolution := Some(f.resolution), horizon := Some(f.horizon),
               interval := Some(f.interval), count := Some(f.count), alignment := f.alignment)
  }

  function TypeAndTiming(row: WireRow): (TimeSeriesType, Timing) {
    match row
    case SingleRow(_, alignment, initial, resolution, length) =>
      (SingleTimeSeries, NO_TIMING.(initial := Some(initial), resolution := Some(resolution), length := Some(length), alignment := alignment))
    case NonSequentialRow(_, uri, length) =>
      (NonSequentialTimeSeries, NO_TIMING.(length := Some(length), timestampsUri := uri))
    case DeterministicRow(_, f) => (Deterministic, ForecastTiming(f))
    case DerivedRow(_, f) => (DeterministicSingleTimeSeries, ForecastTiming(f))
    case ProbabilisticRow(_, f, p) => (Probabilistic, ForecastTiming(f).(percentiles := Some(p)))
    case ScenariosRow(_, f, n) => (Scenarios, ForecastTiming(f).(length := Some(n)))
  }

  function Resolve(text: Option<Text>): Result<Digest> {
    if text.None? then Err(InvalidParameter)
    else
      match HashOf(text.value)
      case None => Err(InvalidParameter)
      case Some(hash) => Ok(hash)
  }

  function DataLocator(s: Shared): Text { if s.dataHash.Some? then s.dataHash.value else s.uri }

  /** The native shape when the document carries it, the schema's own fields otherwise. */
  function Geometry(s: Shared, length: Option<int>): Result<(Option<nat>, Shape)> {
    match s.arrayShape
    case Some(shape) =>
      if shape == [] then Err(InvalidParameter)
      else
        var n :- ToUsize(shape[0]);
        var dims :- DimsFromWire(shape[1..]);
        Ok((Some(n), dims))
    case None =>
      var n :- OptionalSize(length);
      var dims :- DimsFromWire(s.elementShape);
      Ok((n, dims))
  }

  function OptionalSize(v: Option<int>): Result<Option<nat>> {
    if v.None? then Ok(None)
    else
      var n :- ToUsize(v.value);
      Ok(Some(n))
  }

  /** A decoded row: its initial timestamp at the wire's precision, and the axis its locator named. */
  datatype Decoded = Decoded(meta: TimeSeriesMetadata, initial: Option<DateTime>, axis: Option<Digest>)

  function ReferenceFromWire(text: Option<Text>): Result<Option<TimeReference>> {
    if text.None? then Ok(None)
    else
      var r :- ParseReference(text.value);
      Ok(Some(r))
  }

  function WhenFromWire(t: Option<WireTimestamp>, reference: Option<TimeReference>): Result<(Option<DateTime>, Option<TimeReference>)> {
    if t.None? then Ok((None, reference))
    else
      var pair :- TimestampFromWire(t.value, reference);
      Ok((Some(pair.0), pair.1))
  }

  function Millis(t: Option<DateTime>): Option<Instant> { if t.None? then None else Some(ToMillis(t.value)) }

  function FromWire(row: WireRow): Result<Decoded> {
    var (tsType, timing) := TypeAndTiming(row);
    FromParts(row.shared, tsType, timing)
  }

  function FromParts(s: Shared, tsType: TimeSeriesType, timing: Timing): Result<Decoded> {
    if timing.alignment.Some? && timing.alignment.value != PeriodEnding then Err(InvalidParameter)
    else
      var dataHash :- Resolve(Some(DataLocator(s)));
      var axis :- (if tsType.NonSequentialTimeSeries? then (var h :- Resolve(timing.timestampsUri); Ok(Some(h))) else Ok(None));
      var reference :- ReferenceFromWire(s.timeReference);
      var when :- WhenFromWire(timing.initial, reference);
      var geometry :- Geometry(s, timing.length);
      var count :- OptionalSize(timing.count);
      Ok(Decoded(TimeSeriesMetadata(
        Some(s.associationId), s.ownerId, s.ownerType, s.ownerCategory, tsType, s.name, s.features, dataHash,
        Millis(when.0), timing.resolution, geometry.0, timing.horizon, timing.interval, count, None,
        s.units, s.quantityKind, s.unitSystem, when.1, s.componentField, timing.percentiles, s.elementType,
        geometry.1, s.applicationData), when.0, axis))
  }

  // ---- there and back ------------------------------------------------------------------------------

  /** A type's own columns, and no others. */
  predicate HasItsColumns(m: TimeSeriesMetadata, initial: Option<DateTime>) {
    && (m.percentiles.Some? <==> m.tsType.Probabilistic?)
    && (m.timestamps.Some? <==> m.tsType.NonSequentialTimeSeries?)
    && (match m.tsType
        case PersistentTimeSeries => false
        case NonSequentialTimeSeries =>
          initial.None? && m.resolution.None? && m.horizon.None? && m.interval.None? && m.count.None? && m.length.Some?
        case SingleTimeSeries =>
          initial.Some? && m.resolution.Some? && m.horizon.None? && m.interval.None? && m.count.None? && m.length.Some?
        case _ =>
          initial.Some? && m.resolution.Some? && m.horizon.Some? && m.interval.Some? && m.count.Some?
          && (m.tsType.Scenarios? ==> m.length.Some?))
  }

  /** What a catalog row satisfies: an id, its type's columns, sizes of a 64-bit signed field, a 32-byte
      hash and a reference that validates. */
  predicate WellFormed(m: TimeSeriesMetadata, initial: Option<DateTime>) {
    && HasItsColumns(m, initial)
    && m.id.Some? && |m.dataHash| == 32
    && m.initial == Millis(initial)
    && (m.timeReference.Some? ==> Valid(m.timeReference.value))
    && FitI64(m.elementShape)
    && (m.length.Some? ==> m.length.value < TWO_63)
    && (m.count.Some? ==> m.count.value < TWO_63)
    && (m.timestamps.Some? ==> InRange(m.timestamps.value))
  }

  /** The row a document gives back: the instant floored, the axis named by its hash, and the shape in
      full only when the length says where it starts. */
  function Restored(m: TimeSeriesMetadata): TimeSeriesMetadata {
    m.(timestamps := None, elementShape := if m.length.Some? then m.elementShape else WireElementShape(m))
  }

  function Floored(initial: Option<DateTime>): Option<DateTime> {
    if initial.None? then None else Some(FloorToMillis(initial.value))
  }

  function AxisOf(m: TimeSeriesMetadata, sha: seq<Byte> -> Digest): Option<Digest>
    requires m.timestamps.Some? ==> InRange(m.timestamps.value)
  {
    if m.timestamps.None? then None else Some(sha(TimestampsPreimage(m.timestamps.value)))
  }

  lemma SharedComesBack(m: TimeSeriesMetadata, length: Option<int>)
    requires FitI64(m.elementShape) && |m.dataHash| == 32 && (m.length.Some? ==> m.length.value < TWO_63)
    requires m.timeReference.Some? ==> Valid(m.timeReference.value)
    requires m.length.None? ==> length.None?
    requires m.id.Some?
    ensures var s := SharedWire(m, m.id.value);
      && Geometry(s, length) == Ok((m.length, Restored(m).elementShape))
      && ReferenceFromWire(s.timeReference) == Ok(m.timeReference)
      && Resolve(s.dataHash) == Ok(m.dataHash)
  {
    HexInverse(m.dataHash);
    if m.timeReference.Some? {
      ReadsBackExactlyWhenValid(m.timeReference.value);
    }
    DimsRoundTrip(WireElementShape(m));
    DimsRoundTrip(m.elementShape);
    if m.length.Some? {
      var shape := [AsI64(m.length.value)] + DimsWire(m.elementShape);
      assert shape[1..] == DimsWire(m.elementShape);
    }
  }

  lemma WhenComesBack(m: TimeSeriesMetadata, initial: Option<DateTime>)
    requires m.timeReference.Some? ==> Valid(m.timeReference.value)
    requires initial.Some?
    ensures InitialWire(m, initial).Ok?
    ensures WhenFromWire(Some(InitialWire(m, initial).value), m.timeReference) == Ok((Floored(initial), m.timeReference))
    ensures Millis(Floored(initial)) == Millis(initial)
  {
    TimestampRoundTrip(initial.value, m.timeReference);
  }

  /** The timing columns a row is written with. */
  predicate TimingOf(m: TimeSeriesMetadata, initial: Option<DateTime>, sha: seq<Byte> -> Digest, timing: Timing)
    requires m.timestamps.Some? ==> InRange(m.timestamps.value)
  {
    && (if initial.None? then timing.initial == None
        else InitialWire(m, initial).Ok? && timing.initial == Some(InitialWire(m, initial).value))
    && timing.resolution == m.resolution && timing.horizon == m.horizon && timing.interval == m.interval
    && (m.length.None? ==> timing.length == None)
    && timing.count == (if m.count.None? then None else Some(AsI64(m.count.value)))
    && timing.percentiles == m.percentiles
    && (timing.alignment.Some? ==> timing.alignment.value.PeriodEnding?)
    && timing.timestampsUri == (if m.timestamps.None? then None else Some(HexOf(sha(TimestampsPreimage(m.timestamps.value)))))
  }

  /** Read with the timing it was written with, a row comes back. */
  lemma PartsComeBack(m: TimeSeriesMetadata, initial: Option<DateTime>, sha: seq<Byte> -> Digest, timing: Timing)
    requires WellFormed(m, initial) && TimingOf(m, initial, sha, timing)
    requires m.timestamps.Some? ==> |sha(TimestampsPreimage(m.timestamps.value))| == 32
    ensures FromParts(SharedWire(m, m.id.value), m.tsType, timing) == Ok(Decoded(Restored(m), Floored(initial), AxisOf(m, sha)))
  {
    SharedComesBack(m, timing.length);
    if initial.Some? {
      WhenComesBack(m, initial);
    }
    if m.timestamps.Some? {
      HexInverse(sha(TimestampsPreimage(m.timestamps.value)));
    }
    PartsJoin(SharedWire(m, m.id.value), m.tsType, timing, m.dataHash, AxisOf(m, sha), m.timeReference, Floored(initial), m.length, Restored(m).elementShape, m.count);
  }

  /** What the parts of a wire row read as, put together. */
  lemma PartsJoin(s: Shared, tsType: TimeSeriesType, timing: Timing, dataHash: Digest, axis: Option<Digest>, reference: Option<TimeReference>,
                  initial: Option<DateTime>, length: Option<nat>, shape: Shape, count: Option<nat>)
    requires timing.alignment.Some? ==> timing.alignment.value.PeriodEnding?
    requires Resolve(Some(DataLocator(s))) == Ok(dataHash)
    requires if tsType.NonSequentialTimeSeries? then axis.Some? && Resolve(timing.timestampsUri) == Ok(axis.value) else axis.None?
    requires ReferenceFromWire(s.timeReference) == Ok(reference) && WhenFromWire(timing.initial, reference) == Ok((initial, reference))
    requires Geometry(s, timing.length) == Ok((length, shape)) && OptionalSize(timing.count) == Ok(count)
    ensures FromParts(s, tsType, timing) == Ok(Decoded(TimeSeriesMetadata(
        Some(s.associationId), s.ownerId, s.ownerType, s.ownerCategory, tsType, s.name, s.features, dataHash,
        Millis(initial), timing.resolution, length, timing.horizon, timing.interval, count, None,
        s.units, s.quantityKind, s.unitSystem, reference, s.componentField, timing.percentiles, s.elementType,
        shape, s.applicationData), initial, axis))
  {}

  /** A well-formed row leaves as a wire row of its own type, with its own columns. */
  lemma LeavesWithItsTiming(m: TimeSeriesMetadata, initial: Option<DateTime>, sha: seq<Byte> -> Digest)
    requires WellFormed(m, initial)
    ensures ToWire(m, initial, sha).Ok?
    ensures var row := ToWire(m, initial, sha).value;
      && row.shared == SharedWire(m, m.id.value)
      && TypeAndTiming(row).0 == m.tsType && TimingOf(m, initial, sha, TypeAndTiming(row).1)
  {
    if initial.Some? {
      WhenComesBack(m, initial);
    }
  }

  /** The round trip: every column of a well-formed row comes back. */
  lemma RowRoundTrip(m: TimeSeriesMetadata, initial: Option<DateTime>, sha: seq<Byte> -> Digest)
    requires WellFormed(m, initial)
    requires m.timestamps.Some? ==> |sha(TimestampsPreimage(m.timestamps.value))| == 32
    ensures ToWire(m, initial, sha).Ok?
    ensures FromWire(ToWire(m, initial, sha).value) == Ok(Decoded(Restored(m), Floored(initial), AxisOf(m, sha)))
  {
    LeavesWithItsTiming(m, initial, sha);
    PartsComeBack(m, initial, sha, TypeAndTiming(ToWire(m, initial, sha).value).1);
  }

  /** With a length, that is the row itself. Without one, which only a dense or derived forecast may lack,
      the leading axes are lost exactly when there were any. */
  lemma RoundTripExactly(m: TimeSeriesMetadata, initial: Option<DateTime>)
    requires WellFormed(m, initial)
    ensures Restored(m) == m.(timestamps := None) <==> m.length.Some? || m.elementShape == []
  {}

  /** A row of a type that travels, with an id and what its type requires. */
  predicate Complete(m: TimeSeriesMetadata, initial: Option<DateTime>) {
    m.id.Some? && match m.tsType
      case PersistentTimeSeries => false
      case NonSequentialTimeSeries => m.timestamps.Some? && m.length.Some?
      case SingleTimeSeries => initial.Some? && m.resolution.Some? && m.length.Some?
      case _ =>
        initial.Some? && m.resolution.Some? && m.horizon.Some? && m.interval.Some? && m.count.Some?
        && (m.tsType.Probabilistic? ==> m.percentiles.Some?) && (m.tsType.Scenarios? ==> m.length.Some?)
  }

  lemma LeavesExactlyWhenComplete(m: TimeSeriesMetadata, initial: Option<DateTime>, sha: seq<Byte> -> Digest)
    requires m.timestamps.Some? ==> InRange(m.timestamps.value)
    requires m.timeReference.Some? ==> Valid(m.timeReference.value)
    ensures ToWire(m, initial, sha).Ok? <==> Complete(m, initial)
  {
    if initial.Some? {
      WhenComesBack(m, initial);
    }
  }

  lemma {:induction false} DimsAccepted(dims: seq<int>)
    ensures DimsFromWire(dims).Ok? <==> forall k :: 0 <= k < |dims| ==> dims[k] >= 0
    ensures DimsFromWire(dims).Ok? ==> DimsFromWire(dims).value == dims
  {
    if dims != [] {
      DimsAccepted(dims[1..]);
      assert dims == [dims[0]] + dims[1..];
    }
  }

  /** A 64-digit hexadecimal text, in either case. */
  predicate NamesHash(text: Text) { |text| == 64 && IsHex(text) }

  predicate ReferenceReads(text: Option<Text>) { text.Some? ==> ParseReference(text.value).Ok? }

  function ReferenceRead(text: Option<Text>): Option<TimeReference>
    requires ReferenceReads(text)
  {
    if text.None? then None else Some(ParseReference(text.value).value)
  }

  predicate Sizes(dims: seq<int>) { forall k :: 0 <= k < |dims| ==> dims[k] >= 0 }

  predicate Sized(s: Shared, length: Option<int>) {
    if s.arrayShape.Some? then s.arrayShape.value != [] && Sizes(s.arrayShape.value)
    else Sizes(s.elementShape) && (length.Some? ==> length.value >= 0)
  }

  predicate LocatorsName(s: Shared, tsType: TimeSeriesType, timing: Timing) {
    && NamesHash(DataLocator(s))
    && (tsType.NonSequentialTimeSeries? ==> timing.timestampsUri.Some? && NamesHash(timing.timestampsUri.value))
  }

  /** An import takes exactly the rows whose alignment the store can record, whose locators are hashes,
      whose timestamp does not contradict its reference, and whose sizes are not negative. */
  lemma AcceptsExactly(row: WireRow)
    ensures var (tsType, timing) := TypeAndTiming(row); var s := row.shared;
      FromWire(row).Ok? <==>
        && (timing.alignment.Some? ==> timing.alignment.value.PeriodEnding?)
        && LocatorsName(s, tsType, timing)
        && ReferenceReads(s.timeReference)
        && (timing.initial.Some? ==> !Contradicts(timing.initial.value, ReferenceRead(s.timeReference)))
        && Sized(s, timing.length) && (timing.count.Some? ==> timing.count.value >= 0)
  {
    var (tsType, timing) := TypeAndTiming(row);
    PartsAccepted(row.shared, tsType, timing);
  }

  lemma PartsAccepted(s: Shared, tsType: TimeSeriesType, timing: Timing)
    ensures FromParts(s, tsType, timing).Ok? <==>
        && (timing.alignment.Some? ==> timing.alignment.value.PeriodEnding?)
        && LocatorsName(s, tsType, timing)
        && ReferenceReads(s.timeReference)
        && (timing.initial.Some? ==> !Contradicts(timing.initial.value, ReferenceRead(s.timeReference)))
        && Sized(s, timing.length) && (timing.count.Some? ==> timing.count.value >= 0)
  {
    LocatorsAccepted(s, timing);
    if timing.initial.Some? && ReferenceReads(s.timeReference) {
      RefusesExactlyContradictions(timing.initial.value, ReferenceRead(s.timeReference));
    }
    GeometryAccepted(s, timing.length);
  }

  lemma LocatorsAccepted(s: Shared, timing: Timing)
    ensures Resolve(Some(DataLocator(s))).Ok? <==> NamesHash(DataLocator(s))
    ensures Resolve(timing.timestampsUri).Ok? <==> timing.timestampsUri.Some? && NamesHash(timing.timestampsUri.value)
  {
    HexInverseUpToCase(DataLocator(s));
    if timing.timestampsUri.Some? {
      HexInverseUpToCase(timing.timestampsUri.value);
    }
  }

  lemma GeometryAccepted(s: Shared, length: Option<int>)
    ensures Geometry(s, length).Ok? <==> Sized(s, length)
  {
    if s.arrayShape.Some? {
      var shape := s.arrayShape.value;
      if shape != [] {
        assert forall k :: 1 <= k < |shape| ==> shape[k] == shape[1..][k - 1];
        DimsAccepted(shape[1..]);
      }
    } else {
      DimsAccepted(s.elementShape);
    }
  }

  // ---- the export order ------------------------------------------------------------------------------

  /** A listed row and its initial timestamp as the catalog holds it. */
  datatype Source = Source(meta: TimeSeriesMetadata, initial: Option<DateTime>)

  function PeriodComponent(p: Option<Period>, iso: Period -> Text): Component {
    if p.None? then [] else [1] + iso(p.value)
  }

  /** Identity first to last; periods by their canonical text. */
  function SortKey(m: TimeSeriesMetadata, iso: Period -> Text): Key {
    [[m.ownerId], [m.ownerCategory.Code()], [m.tsType.Code()], m.name,
     PeriodComponent(m.resolution, iso), PeriodComponent(m.interval, iso)] + FeaturesKey(m.features)
  }

  ghost predicate CanonicalText(iso: Period -> Text) {
    forall p, q :: iso(p) == iso(q) ==> p == q
  }

  lemma PeriodComponentIdentifies(p: Option<Period>, q: Option<Period>, iso: Period -> Text)
    requires CanonicalText(iso) && PeriodComponent(p, iso) == PeriodComponent(q, iso)
    ensures p == q
  {
    if p.Some? && q.Some? {
      assert ([1] + iso(p.value))[1..] == iso(p.value) && ([1] + iso(q.value))[1..] == iso(q.value);
    }
  }

  lemma TypeCodeIdentifies(t: TimeSeriesType, u: TimeSeriesType)
    requires t.Code() == u.Code()
    ensures t == u
  {}

  /** The identity the catalog keeps unique, features up to the values it tells apart. */
  predicate SameIdentity(a: TimeSeriesMetadata, b: TimeSeriesMetadata) {
    && a.ownerId == b.ownerId && a.ownerCategory == b.ownerCategory && a.tsType == b.tsType && a.name == b.name
    && a.resolution == b.resolution && a.interval == b.interval
    && Canonicalized(a.features) == Canonicalized(b.features)
  }

  /** Equal sort keys are equal identities. */
  lemma SortKeyIdentifies(a: TimeSeriesMetadata, b: TimeSeriesMetadata, iso: Period -> Text)
    requires CanonicalText(iso) && SortKey(a, iso) == SortKey(b, iso)
    ensures SameIdentity(a, b)
  {
    var k, l := SortKey(a, iso), SortKey(b, iso);
    assert k[0] == l[0] && k[1] == l[1] && k[2] == l[2] && k[3] == l[3] && k[4] == l[4] && k[5] == l[5];
    assert k[0][0] == l[0][0] && k[1][0] == l[1][0] && k[2][0] == l[2][0];
    TypeCodeIdentifies(a.tsType, b.tsType);
    PeriodComponentIdentifies(a.resolution, b.resolution, iso);
    PeriodComponentIdentifies(a.interval, b.interval, iso);
    assert k[6..] == FeaturesKey(a.features) && l[6..] == FeaturesKey(b.features);
    FeaturesKeyInjective(a.features, b.features);
  }

  /** Exponent bits all set: an infinity or a NaN. */
  predicate Finite(b: FloatBits) { (b / TWO_52) % 2048 != 2047 }

  predicate JsonFeatures(f: seq<Feature>) {
    forall k :: 0 <= k < |f| && f[k].value.Float? ==> Finite(f[k].value.bits)
  }

  datatype Keyed = Keyed(key: Key, row: WireRow)

  predicate Travels(s: Source) { !s.meta.tsType.PersistentTimeSeries? }

  predicate Exportable(s: Source, sha: seq<Byte> -> Digest) {
    && (s.meta.timestamps.Some? ==> InRange(s.meta.timestamps.value))
    && JsonFeatures(s.meta.features) && ToWire(s.meta, s.initial, sha).Ok?
  }

  predicate AllExportable(rows: seq<Source>, sha: seq<Byte> -> Digest) {
    forall k :: 0 <= k < |rows| && Travels(rows[k]) ==> Exportable(rows[k], sha)
  }

  predicate AllReferencesValid(rows: seq<Source>) {
    forall k :: 0 <= k < |rows| && rows[k].meta.timeReference.Some? ==> Valid(rows[k].meta.timeReference.value)
  }

  predicate AllComplete(rows: seq<Source>) {
    forall k :: 0 <= k < |rows| && Travels(rows[k]) ==> Complete(rows[k].meta, rows[k].initial) && JsonFeatures(rows[k].meta.features)
  }

  /** Among rows whose references validate, only a missing column or a float JSON cannot spell keeps a row. */
  lemma ExportableExactly(rows: seq<Source>, sha: seq<Byte> -> Digest)
    requires forall k :: 0 <= k < |rows| && rows[k].meta.timestamps.Some? ==> InRange(rows[k].meta.timestamps.value)
    requires AllReferencesValid(rows)
    ensures AllExportable(rows, sha) <==> AllComplete(rows)
  {
    forall k | 0 <= k < |rows|
      ensures Exportable(rows[k], sha) <==> Complete(rows[k].meta, rows[k].initial) && JsonFeatures(rows[k].meta.features)
    {
      LeavesExactlyWhenComplete(rows[k].meta, rows[k].initial, sha);
    }
  }

  function KeyedRow(s: Source, iso: Period -> Text, sha: seq<Byte> -> Digest): Keyed
    requires Exportable(s, sha)
  {
    Keyed(SortKey(s.meta, iso), ToWire(s.meta, s.initial, sha).value)
  }

  /** The pairs of the rows that travel, in listing order. */
  function KeyedRows(rows: seq<Source>, iso: Period -> Text, sha: seq<Byte> -> Digest): seq<Keyed>
    requires AllExportable(rows, sha)
  {
    if rows == [] then [] else
      (if Travels(rows[0]) then [KeyedRow(rows[0], iso, sha)] else []) + KeyedRows(rows[1..], iso, sha)
  }

  function RowsOf(pairs: seq<Keyed>): (r: seq<WireRow>)
    ensures |r| == |pairs|
  {
    seq(|pairs|, k requires 0 <= k < |pairs| => pairs[k].row)
  }

  function KeyOf(p: Keyed): Key { p.key }

  /** The document: the rows that travel, mapped and sorted; refused if any of them cannot be written. */
  method ExportTsRows(rows: seq<Source>, onlyPersistent: bool, iso: Period -> Text, sha: seq<Byte> -> Digest) returns (r: Result<seq<WireRow>>)
    requires forall k :: 0 <= k < |rows| && rows[k].meta.timestamps.Some? ==> InRange(rows[k].meta.timestamps.value)
    ensures r.Ok? <==> !onlyPersistent && AllExportable(rows, sha)
    ensures AllReferencesValid(rows) ==> (r.Ok? <==> !onlyPersistent && AllComplete(rows))
    ensures r.Ok? ==> r.value == RowsOf(SortBy(KeyedRows(rows, iso, sha), KeyOf))
    ensures r.Err? ==> r.error == InvalidParameter
  {
    if AllReferencesValid(rows) {
      ExportableExactly(rows, sha);
    }
    if onlyPersistent {
      return Err(InvalidParameter);
    }
    var kept := KeepRows(rows);
    if kept.Err? {
      return Err(kept.error);
    }
    KeptExportable(rows, kept.value, sha);
    var keyed := KeyRows(kept.value, iso, sha);
    if keyed.Err? {
      return Err(keyed.error);
    }
    KeyedRowsOfKept(rows, kept.value, keyed.value, iso, sha);
    return Ok(RowsOf(SortBy(keyed.value, KeyOf)));
  }

  /** Drop the rows that do not travel, and refuse a feature JSON cannot spell in one that does. */
  method KeepRows(rows: seq<Source>) returns (r: Result<seq<Source>>)
    ensures r.Ok? <==> forall k :: 0 <= k < |rows| && Travels(rows[k]) ==> JsonFeatures(rows[k].meta.features)
    ensures r.Ok? ==> KeepsTraveling(rows, r.value)
    ensures r.Ok? ==> forall k :: 0 <= k < |r.value| ==> r.value[k] in rows && Travels(r.value[k])
    ensures r.Ok? ==> forall k :: 0 <= k < |rows| && Travels(rows[k]) ==> rows[k] in r.value
    ensures r.Err? ==> r.error == InvalidParameter
  {
    var kept: seq<Source> := [];
    for i := 0 to |rows|
      invariant forall k :: 0 <= k < |kept| ==> kept[k] in rows && Travels(kept[k])
      invariant forall k :: 0 <= k < i && Travels(rows[k]) ==> rows[k] in kept && JsonFeatures(rows[k].meta.features)
      invariant KeepsTraveling(rows[..i], kept)
    {
      assert rows[..i + 1][..i] == rows[..i];
      if Travels(rows[i]) {
        if !JsonFeatures(rows[i].meta.features) {
          return Err(InvalidParameter);
        }
        kept := kept + [rows[i]];
      }
    }
    assert rows[..|rows|] == rows;
    return Ok(kept);
  }

  /** `keyed` is each row of `kept` with its key. */
  predicate KeysEach(keyed: seq<Keyed>, kept: seq<Source>, iso: Period -> Text, sha: seq<Byte> -> Digest) {
    |keyed| == |kept| && forall k :: 0 <= k < |kept| ==> Exportable(kept[k], sha) && keyed[k] == KeyedRow(kept[k], iso, sha)
  }

  lemma KeysOneMore(keyed: seq<Keyed>, kept: seq<Source>, i: nat, iso: Period -> Text, sha: seq<Byte> -> Digest)
    requires i < |kept| && KeysEach(keyed, kept[..i], iso, sha) && Exportable(kept[i], sha)
    ensures KeysEach(keyed + [KeyedRow(kept[i], iso, sha)], kept[..i + 1], iso, sha)
  {
    assert kept[..i + 1] == kept[..i] + [kept[i]];
  }

  /** Map each row and key it, stopping at the first that cannot be written. */
  method KeyRows(kept: seq<Source>, iso: Period -> Text, sha: seq<Byte> -> Digest) returns (r: Result<seq<Keyed>>)
    requires forall k :: 0 <= k < |kept| ==> JsonFeatures(kept[k].meta.features)
    requires forall k :: 0 <= k < |kept| && kept[k].meta.timestamps.Some? ==> InRange(kept[k].meta.timestamps.value)
    ensures r.Ok? <==> EachExportable(kept, sha)
    ensures r.Ok? ==> KeysEach(r.value, kept, iso, sha)
    ensures r.Err? ==> r.error == InvalidParameter
  {
    var keyed: seq<Keyed> := [];
    for i := 0 to |kept|
      invariant KeysEach(keyed, kept[..i], iso, sha)
    {
      var s := kept[i];
      var row := ToWire(s.meta, s.initial, sha);
      if row.Err? {
        assert !Exportable(kept[i], sha);
        return Err(InvalidParameter);
      }
      KeysOneMore(keyed, kept, i, iso, sha);
      keyed := keyed + [Keyed(SortKey(s.meta, iso), row.value)];
    }
    assert kept[..|kept|] == kept;
    return Ok(keyed);
  }

  /** `kept` is the traveling rows of `rows`, in order. */
  predicate KeepsTraveling(rows: seq<Source>, kept: seq<Source>) {
    if rows == [] then kept == [] else
      var last := rows[|rows| - 1];
      if Travels(last) then kept != [] && kept[|kept| - 1] == last && KeepsTraveling(rows[..|rows| - 1], kept[..|kept| - 1])
      else KeepsTraveling(rows[..|rows| - 1], kept)
  }

  lemma {:induction false} KeyedRowsPush(rows: seq<Source>, last: Source, iso: Period -> Text, sha: seq<Byte> -> Digest)
    requires AllExportable(rows, sha)
    requires Travels(last) ==> Exportable(last, sha)
    ensures KeyedRows(rows + [last], iso, sha)
         == KeyedRows(rows, iso, sha) + (if Travels(last) then [KeyedRow(last, iso, sha)] else [])
  {
    if rows == [] {
      assert rows + [last] == [last] && [last][1..] == [];
    } else {
      assert (rows + [last])[1..] == rows[1..] + [last];
      KeyedRowsPush(rows[1..], last, iso, sha);
      Assoc(if Travels(rows[0]) then [KeyedRow(rows[0], iso, sha)] else [], KeyedRows(rows[1..], iso, sha),
            if Travels(last) then [KeyedRow(last, iso, sha)] else []);
    }
  }

  lemma {:induction false} KeyedRowsOfKept(rows: seq<Source>, kept: seq<Source>, keyed: seq<Keyed>, iso: Period -> Text, sha: seq<Byte> -> Digest)
    requires KeepsTraveling(rows, kept) && AllExportable(rows, sha) && KeysEach(keyed, kept, iso, sha)
    ensures KeyedRows(rows, iso, sha) == keyed
  {
    if rows != [] {
      var m := |rows| - 1;
      var init, last := rows[..m], rows[m];
      assert rows == init + [last];
      ExportableLast(rows, m, sha);
      KeyedRowsPush(init, last, iso, sha);
      if Travels(last) {
        var n := |kept| - 1;
        KeysInit(keyed, kept, n, iso, sha);
        KeyedRowsOfKept(init, kept[..n], keyed[..n], iso, sha);
      } else {
        KeyedRowsOfKept(init, kept, keyed, iso, sha);
      }
    }
  }

  lemma KeysInit(keyed: seq<Keyed>, kept: seq<Source>, n: nat, iso: Period -> Text, sha: seq<Byte> -> Digest)
    requires KeysEach(keyed, kept, iso, sha) && n + 1 == |kept|
    ensures KeysEach(keyed[..n], kept[..n], iso, sha)
    ensures Exportable(kept[n], sha) && keyed == keyed[..n] + [KeyedRow(kept[n], iso, sha)]
  {
    PrefixPush(keyed, n);
    forall k | 0 <= k < n
      ensures Exportable(kept[..n][k], sha) && keyed[..n][k] == KeyedRow(kept[..n][k], iso, sha)
    {
      assert kept[..n][k] == kept[k];
    }
  }

  lemma ExportableLast(rows: seq<Source>, m: nat, sha: seq<Byte> -> Digest)
    requires m + 1 == |rows|
    ensures AllExportable(rows, sha) <==> AllExportable(rows[..m], sha) && (Travels(rows[m]) ==> Exportable(rows[m], sha))
  {
    var init := rows[..m];
    assert forall k :: 0 <= k < m ==> init[k] == rows[k];
    if AllExportable(init, sha) && (Travels(rows[m]) ==> Exportable(rows[m], sha)) {
      forall k | 0 <= k < |rows| && Travels(rows[k])
        ensures Exportable(rows[k], sha)
      {
        if k < m {
          assert init[k] == rows[k];
        }
      }
    }
  }

  /** What was kept can be written exactly when what travels can. */
  lemma {:induction false} KeptExportable(rows: seq<Source>, kept: seq<Source>, sha: seq<Byte> -> Digest)
    requires KeepsTraveling(rows, kept)
    ensures AllExportable(rows, sha) <==> EachExportable(kept, sha)
  {
    if rows != [] {
      var m := |rows| - 1;
      ExportableLast(rows, m, sha);
      if Travels(rows[m]) {
        KeptExportable(rows[..m], kept[..|kept| - 1], sha);
        EachLast(kept, |kept| - 1, sha);
      } else {
        KeptExportable(rows[..m], kept, sha);
      }
    }
  }

  predicate EachExportable(kept: seq<Source>, sha: seq<Byte> -> Digest) {
    forall k :: 0 <= k < |kept| ==> Exportable(kept[k], sha)
  }

  lemma EachLast(kept: seq<Source>, n: nat, sha: seq<Byte> -> Digest)
    requires n + 1 == |kept|
    ensures EachExportable(kept, sha) <==> EachExportable(kept[..n], sha) && Exportable(kept[n], sha)
  {
    var init := kept[..n];
    assert forall k :: 0 <= k < n ==> init[k] == kept[k];
    if EachExportable(init, sha) && Exportable(kept[n], sha) {
      forall k | 0 <= k < |kept|
        ensures Exportable(kept[k], sha)
      {
        if k < n {
          assert init[k] == kept[k];
        }
      }
    }
  }

  lemma ExportableConcat(a: seq<Source>, b: seq<Source>, sha: seq<Byte> -> Digest)
    requires AllExportable(a, sha) && AllExportable(b, sha)
    ensures AllExportable(a + b, sha)
  {}

  lemma {:induction false} KeyedRowsConcat(a: seq<Source>, b: seq<Source>, iso: Period -> Text, sha: seq<Byte> -> Digest)
    requires AllExportable(a, sha) && AllExportable(b, sha)
    ensures AllExportable(a + b, sha)
    ensures KeyedRows(a + b, iso, sha) == KeyedRows(a, iso, sha) + KeyedRows(b, iso, sha)
  {
    ExportableConcat(a, b, sha);
    if a == [] {
      assert a + b == b;
    } else {
      var tail := a[1..];
      assert (a + b)[1..] == tail + b && (a + b)[0] == a[0];
      assert AllExportable(tail, sha);
      KeyedRowsConcat(tail, b, iso, sha);
      Assoc(if Travels(a[0]) then [KeyedRow(a[0], iso, sha)] else [], KeyedRows(tail, iso, sha), KeyedRows(b, iso, sha));
    }
  }

  /** Moving one row does not change which pairs there are. */
  lemma KeyedRowsMove(front: seq<Source>, x: Source, back: seq<Source>, iso: Period -> Text, sha: seq<Byte> -> Digest)
    requires AllExportable(front, sha) && AllExportable(back, sha) && AllExportable([x], sha)
    ensures AllExportable(front + ([x] + back), sha) && AllExportable(front + back, sha)
    ensures multiset(KeyedRows(front + ([x] + back), iso, sha))
         == multiset(KeyedRows([x], iso, sha)) + multiset(KeyedRows(front + back, iso, sha))
  {
    KeyedRowsConcat(front, back, iso, sha);
    KeyedRowsConcat([x], back, iso, sha);
    KeyedRowsConcat(front, [x] + back, iso, sha);
  }

  lemma {:induction false} KeyedRowsPermute(a: seq<Source>, b: seq<Source>, iso: Period -> Text, sha: seq<Byte> -> Digest)
    requires multiset(a) == multiset(b) && AllExportable(a, sha) && AllExportable(b, sha)
    ensures multiset(KeyedRows(a, iso, sha)) == multiset(KeyedRows(b, iso, sha))
  {
    if a == [] {
      assert |multiset(b)| == 0;
    } else {
      var j := Withdraw(a, b);
      var front, back := b[..j], b[j + 1..];
      SlicesExportable(a, b, j, sha);
      KeyedRowsPermute(a[1..], front + back, iso, sha);
      KeyedRowsMove(front, a[0], back, iso, sha);
      KeyedRowsHead(a, iso, sha);
    }
  }

  lemma SlicesExportable(a: seq<Source>, b: seq<Source>, j: nat, sha: seq<Byte> -> Digest)
    requires a != [] && j < |b| && b[j] == a[0] && AllExportable(a, sha) && AllExportable(b, sha)
    ensures AllExportable(a[1..], sha) && AllExportable([a[0]], sha)
    ensures AllExportable(b[..j], sha) && AllExportable(b[j + 1..], sha) && AllExportable(b[..j] + b[j + 1..], sha)
    ensures b == b[..j] + ([a[0]] + b[j + 1..])
  {
    var rest := b[..j] + b[j + 1..];
    assert forall k :: 0 <= k < |rest| ==> rest[k] == if k < j then b[k] else b[k + 1];
  }

  lemma KeyedRowsHead(a: seq<Source>, iso: Period -> Text, sha: seq<Byte> -> Digest)
    requires a != [] && AllExportable(a, sha) && AllExportable(a[1..], sha) && AllExportable([a[0]], sha)
    ensures multiset(KeyedRows(a, iso, sha)) == multiset(KeyedRows([a[0]], iso, sha)) + multiset(KeyedRows(a[1..], iso, sha))
  {
    assert a == [a[0]] + a[1..];
    KeyedRowsConcat([a[0]], a[1..], iso, sha);
  }

  lemma WithoutAt<T>(s: seq<T>, j: nat)
    requires j < |s|
    ensures multiset(s[..j] + s[j + 1..]) == multiset(s) - multiset{s[j]}
  {
    var front, back := s[..j], s[j + 1..];
    assert s == front + ([s[j]] + back);
    assert multiset(s) == multiset(front) + multiset([s[j]] + back) == multiset(front) + (multiset{s[j]} + multiset(back));
  }

  /** Where the first of `a` sits in its permutation `b`. */
  lemma Withdraw<T>(a: seq<T>, b: seq<T>) returns (j: nat)
    requires multiset(a) == multiset(b) && a != []
    ensures j < |b| && b[j] == a[0] && multiset(a[1..]) == multiset(b[..j] + b[j + 1..])
  {
    assert a[0] in multiset(a);
    j := MemberOf(a[0], b);
    WithoutHead(a);
    WithoutAt(b, j);
  }

  /** No two listed rows share an identity. */
  predicate IdentitiesApart(rows: seq<Source>) {
    forall i, j :: 0 <= i < |rows| && 0 <= j < |rows| && SameIdentity(rows[i].meta, rows[j].meta) ==> rows[i] == rows[j]
  }

  lemma {:induction false} KeyedComesFromRow(rows: seq<Source>, iso: Period -> Text, sha: seq<Byte> -> Digest, k: nat) returns (i: nat)
    requires AllExportable(rows, sha)
    requires k < |KeyedRows(rows, iso, sha)|
    ensures i < |rows| && Travels(rows[i]) && KeyedRows(rows, iso, sha)[k] == KeyedRow(rows[i], iso, sha)
  {
    var first := if Travels(rows[0]) then [KeyedRow(rows[0], iso, sha)] else [];
    if k < |first| {
      i := 0;
    } else {
      Behind(first, KeyedRows(rows[1..], iso, sha), k);
      i := KeyedComesFromRow(rows[1..], iso, sha, k - |first|);
      i := i + 1;
    }
  }

  /** The catalog may list its rows in any order: the document is the same. */
  lemma ExportIgnoresListingOrder(a: seq<Source>, b: seq<Source>, iso: Period -> Text, sha: seq<Byte> -> Digest)
    requires CanonicalText(iso) && multiset(a) == multiset(b) && IdentitiesApart(a)
    requires AllExportable(a, sha)
    ensures AllExportable(b, sha)
    ensures RowsOf(SortBy(KeyedRows(a, iso, sha), KeyOf)) == RowsOf(SortBy(KeyedRows(b, iso, sha), KeyOf))
  {
    forall k | 0 <= k < |b| && Travels(b[k])
      ensures Exportable(b[k], sha)
    {
      assert b[k] in multiset(a);
      var j :| 0 <= j < |a| && a[j] == b[k];
    }
    KeyedRowsPermute(a, b, iso, sha);
    var pairs := KeyedRows(a, iso, sha);
    forall i, j | 0 <= i < |pairs| && 0 <= j < |pairs| && KeyOf(pairs[i]) == KeyOf(pairs[j])
      ensures pairs[i] == pairs[j]
    {
      var x := KeyedComesFromRow(a, iso, sha, i);
      var y := KeyedComesFromRow(a, iso, sha, j);
      SortKeyIdentifies(a[x].meta, a[y].meta, iso);
    }
    SortIgnoresArrival(pairs, KeyedRows(b, iso, sha), KeyOf);
  }
}
