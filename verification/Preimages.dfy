/** What each content hash digests, a parser for each stream, and why no stream of one domain
    is a stream of another (hash.rs). */
module Preimages {
  import opened Wrappers
  import opened Arrays
  import opened Storage
  import opened Ordering
  import opened Metadata
  import opened Encoding
  import opened Hashing

  /** A value read off the front of a stream, and what follows it. */
  datatype Parsed<+T> = Fail | Parsed(value: T, rest: seq<Byte>)

  /** The first `n` bytes. */
  function Take(bytes: seq<Byte>, n: nat): Parsed<seq<Byte>> {
    if |bytes| < n then Fail else Parsed(bytes[..n], bytes[n..])
  }

  lemma TakeOfConcat(a: seq<Byte>, b: seq<Byte>)
    ensures Take(a + b, |a|) == Parsed(a, b)
  {}

  /** A count, then that many bytes. */
  function Prefixed(t: Text): seq<Byte> { LeU64(|t|) + t }

  function ParsePrefixed(bytes: seq<Byte>): Parsed<Text> {
    var n := Take(bytes, 8);
    if n.Fail? then Fail else Take(n.rest, FromLe(n.value))
  }

  lemma PrefixedParses(t: Text, rest: seq<Byte>)
    requires |t| < TWO_64
    ensures ParsePrefixed(Prefixed(t) + rest) == Parsed(t, rest)
  {
    assert Prefixed(t) + rest == LeU64(|t|) + (t + rest);
    TakeOfConcat(LeU64(|t|), t + rest);
    U64RoundTrip(|t|);
    TakeOfConcat(t, rest);
  }

  // ---- feature maps -----------------------------------------------------------------------

  /** `features` and a NUL. */
  const FEATURES_TAG: seq<Byte> := [102, 101, 97, 116, 117, 114, 101, 115, 0]

  function KindTag(v: FeatureValue): Byte {
    match v
    case Int(_) => 105
    case Float(_) => 102
    case Bool(_) => 98
    case Str(_) => 115
  }

  /** The value after its kind tag; floats with their NaNs canonicalised. */
  function PayloadBytes(v: FeatureValue): seq<Byte> {
    match v
    case Int(i) => LeI64(i)
    case Float(b) => LeU64(CanonicalBits(b))
    case Bool(b) => [if b then 1 else 0]
    case Str(t) => Prefixed(t)
  }

  function EntryBytes(e: Feature): seq<Byte> { Prefixed(e.key) + ([KindTag(e.value)] + PayloadBytes(e.value)) }

  function EntriesBytes(f: seq<Feature>): seq<Byte> {
    if f == [] then [] else EntryBytes(f[0]) + EntriesBytes(f[1..])
  }

  function FeaturesPreimage(f: seq<Feature>): seq<Byte> {
    FEATURES_TAG + LeU64(|f|) + EntriesBytes(f)
  }

  /** Lengths fit the 64-bit prefixes, as any value in memory does. */
  predicate Addressable(f: seq<Feature>) {
    |f| < TWO_64 && forall i :: 0 <= i < |f| ==> |f[i].key| < TWO_64 && (f[i].value.Str? ==> |f[i].value.text| < TWO_64)
  }

  /** The value that starts with kind tag `kind`. */
  function ParseValue(kind: Byte, rest: seq<Byte>): Parsed<FeatureValue> {
    if kind == 115 then
      var t := ParsePrefixed(rest);
      if t.Fail? then Fail else Parsed(Str(t.value), t.rest)
    else if kind == 98 then
      if rest == [] then Fail else Parsed(FeatureValue.Bool(rest[0] == 1), rest[1..])
    else
      var word := Take(rest, 8);
      if word.Fail? then Fail else
      WordBound(word.value);
      if kind == 105 then Parsed(Int(FromI64(word.value)), word.rest)
      else if kind == 102 then Parsed(Float(FromLe(word.value)), word.rest)
      else Fail
  }

  lemma WordBound(word: seq<Byte>)
    requires |word| == 8
    ensures FromLe(word) < TWO_64 && -TWO_63 <= FromI64(word) < TWO_63
  {
    FromLeBound(word);
    Pow256Of8();
  }

  function ParseEntry(bytes: seq<Byte>): Parsed<Feature> {
    var key := ParsePrefixed(bytes);
    if key.Fail? || key.rest == [] then Fail else
    var value := ParseValue(key.rest[0], key.rest[1..]);
    if value.Fail? then Fail else Parsed(Feature(key.value, value.value), value.rest)
  }

  function ParseEntries(bytes: seq<Byte>, n: nat): Parsed<seq<Feature>> {
    if n == 0 then Parsed([], bytes) else
    var entry := ParseEntry(bytes);
    if entry.Fail? then Fail else
    var more := ParseEntries(entry.rest, n - 1);
    if more.Fail? then Fail else Parsed([entry.value] + more.value, more.rest)
  }

  function ParseFeatures(bytes: seq<Byte>): Option<seq<Feature>> {
    var tag := Take(bytes, |FEATURES_TAG|);
    if tag.Fail? || tag.value != FEATURES_TAG then None else
    var n := Take(tag.rest, 8);
    if n.Fail? then None else
    var entries := ParseEntries(n.rest, FromLe(n.value));
    if entries.Fail? || entries.rest != [] then None else Some(entries.value)
  }

  lemma IntParses(i: Int64, rest: seq<Byte>)
    ensures ParseValue(105, LeI64(i) + rest) == Parsed(Int(i), rest)
  {
    TakeOfConcat(LeI64(i), rest);
    I64RoundTrip(i);
  }

  lemma FloatParses(b: FloatBits, rest: seq<Byte>)
    ensures ParseValue(102, LeU64(b) + rest) == Parsed(Float(b), rest)
  {
    TakeOfConcat(LeU64(b), rest);
    U64RoundTrip(b);
  }

  lemma StrParses(t: Text, rest: seq<Byte>)
    requires |t| < TWO_64
    ensures ParseValue(115, Prefixed(t) + rest) == Parsed(Str(t), rest)
  {
    PrefixedParses(t, rest);
  }

  lemma ValueParses(v: FeatureValue, rest: seq<Byte>)
    requires v.Str? ==> |v.text| < TWO_64
    ensures ParseValue(KindTag(v), PayloadBytes(v) + rest) == Parsed(v.Canonical(), rest)
  {
    match v {
      case Int(i) => IntParses(i, rest);
      case Float(b) => FloatParses(CanonicalBits(b), rest);
      case Bool(b) =>
        var payload := PayloadBytes(v);
        assert (payload + rest)[0] == payload[0] && (payload + rest)[1..] == rest;
      case Str(t) => StrParses(t, rest);
    }
  }

  lemma EntryParses(e: Feature, rest: seq<Byte>)
    requires |e.key| < TWO_64 && (e.value.Str? ==> |e.value.text| < TWO_64)
    ensures ParseEntry(EntryBytes(e) + rest) == Parsed(Feature(e.key, e.value.Canonical()), rest)
  {
    var tail := [KindTag(e.value)] + (PayloadBytes(e.value) + rest);
    assert EntryBytes(e) + rest == Prefixed(e.key) + tail;
    PrefixedParses(e.key, tail);
    assert tail[0] == KindTag(e.value) && tail[1..] == PayloadBytes(e.value) + rest;
    ValueParses(e.value, rest);
  }

  lemma {:induction false} EntriesParse(f: seq<Feature>, rest: seq<Byte>)
    requires Addressable(f)
    ensures ParseEntries(EntriesBytes(f) + rest, |f|) == Parsed(Canonicalized(f), rest)
  {
    if f == [] {
      assert EntriesBytes(f) + rest == rest;
    } else {
      var tail, first := EntriesBytes(f[1..]) + rest, Feature(f[0].key, f[0].value.Canonical());
      Assoc(EntryBytes(f[0]), EntriesBytes(f[1..]), rest);
      EntryParses(f[0], tail);
      EntriesParse(f[1..], rest);
      FirstParses(EntryBytes(f[0]) + tail, |f|, first, tail, Canonicalized(f[1..]), rest);
      CanonicalHead(f);
    }
  }

  lemma CanonicalHead(f: seq<Feature>)
    requires f != []
    ensures Canonicalized(f) == [Feature(f[0].key, f[0].value.Canonical())] + Canonicalized(f[1..])
  {}

  lemma FirstParses(bytes: seq<Byte>, n: nat, first: Feature, tail: seq<Byte>, more: seq<Feature>, rest: seq<Byte>)
    requires n > 0 && ParseEntry(bytes) == Parsed(first, tail) && ParseEntries(tail, n - 1) == Parsed(more, rest)
    ensures ParseEntries(bytes, n) == Parsed([first] + more, rest)
  {}

  /** The stream parses back to the map it was fed, NaNs canonical. */
  lemma FeaturesParse(f: seq<Feature>)
    requires Addressable(f)
    ensures ParseFeatures(FeaturesPreimage(f)) == Some(Canonicalized(f))
  {
    var bytes := FeaturesPreimage(f);
    assert bytes == FEATURES_TAG + (LeU64(|f|) + EntriesBytes(f));
    TakeOfConcat(FEATURES_TAG, LeU64(|f|) + EntriesBytes(f));
    TakeOfConcat(LeU64(|f|), EntriesBytes(f));
    U64RoundTrip(|f|);
    assert EntriesBytes(f) + [] == EntriesBytes(f);
    EntriesParse(f, []);
  }

  /** Equal streams mean equal maps, and equal maps give equal streams. */
  lemma FeaturesStreamIdentifies(f: seq<Feature>, g: seq<Feature>)
    requires Addressable(f) && Addressable(g)
    ensures FeaturesPreimage(f) == FeaturesPreimage(g) <==> Canonicalized(f) == Canonicalized(g)
  {
    FeaturesParse(f);
    FeaturesParse(g);
    CanonicalEntries(f);
    CanonicalEntries(g);
    assert |Canonicalized(f)| == |f| && |Canonicalized(g)| == |g|;
  }

  lemma {:induction false} CanonicalEntries(f: seq<Feature>)
    ensures EntriesBytes(Canonicalized(f)) == EntriesBytes(f)
  {
    if f != [] {
      CanonicalEntries(f[1..]);
      CanonicalTail(f);
      CanonicalIsNan();
    }
  }

  lemma CanonicalTail(f: seq<Feature>)
    requires f != []
    ensures Canonicalized(f)[1..] == Canonicalized(f[1..])
  {}

  lemma CanonicalIsNan()
    ensures IsNan(CANONICAL_NAN)
  {}

  method FeedValue(hasher: Hasher, v: FeatureValue)
    modifies hasher
    ensures hasher.fed == old(hasher.fed) + ([KindTag(v)] + PayloadBytes(v))
  {
    ghost var fed := hasher.fed;
    match v {
      case Int(i) =>
        hasher.Update([105]);
        hasher.Update(LeI64(i));
        Assoc(fed, [105], LeI64(i));
      case Float(b) =>
        hasher.Update([102]);
        hasher.Update(LeU64(CanonicalBits(b)));
        Assoc(fed, [102], LeU64(CanonicalBits(b)));
      case Bool(b) =>
        hasher.Update([98]);
        hasher.Update([if b then 1 else 0]);
        Assoc(fed, [98], [if b then 1 else 0]);
      case Str(t) =>
        hasher.Update([115]);
        FeedPrefixed(hasher, t);
        Assoc(fed, [115], Prefixed(t));
    }
  }

  /** A text, behind its length. */
  method FeedPrefixed(hasher: Hasher, t: Text)
    modifies hasher
    ensures hasher.fed == old(hasher.fed) + Prefixed(t)
  {
    ghost var fed := hasher.fed;
    hasher.Update(LeU64(|t|));
    hasher.Update(t);
    Assoc(fed, LeU64(|t|), t);
  }

  method FeedEntry(hasher: Hasher, e: Feature)
    modifies hasher
    ensures hasher.fed == old(hasher.fed) + EntryBytes(e)
  {
    ghost var fed := hasher.fed;
    FeedPrefixed(hasher, e.key);
    FeedValue(hasher, e.value);
    Assoc(fed, Prefixed(e.key), [KindTag(e.value)] + PayloadBytes(e.value));
  }

  /** Feed the map entry by entry. */
  method FeedEntries(hasher: Hasher, f: seq<Feature>)
    modifies hasher
    ensures hasher.fed == old(hasher.fed) + EntriesBytes(f)
  {
    ghost var goal := hasher.fed + EntriesBytes(f);
    var i := 0;
    assert f[0..] == f;
    while i < |f|
      invariant 0 <= i <= |f| && Feeds(hasher.fed, f, i, goal)
    {
      FeedStep(hasher.fed, f, i, goal);
      FeedEntry(hasher, f[i]);
      i := i + 1;
    }
    assert f[i..] == [];
  }

  /** What is fed, and the entries still to come, make the goal. */
  predicate Feeds(fed: seq<Byte>, f: seq<Feature>, i: nat, goal: seq<Byte>) {
    i <= |f| && fed + EntriesBytes(f[i..]) == goal
  }

  lemma FeedStep(fed: seq<Byte>, f: seq<Feature>, i: nat, goal: seq<Byte>)
    requires i < |f| && Feeds(fed, f, i, goal)
    ensures Feeds(fed + EntryBytes(f[i]), f, i + 1, goal)
  {
    assert f[i..][1..] == f[i + 1..];
    var e, tail := EntryBytes(f[i]), EntriesBytes(f[i + 1..]);
    assert fed + e + tail == fed + (e + tail);
  }

  method FeaturesHash(f: Features, sha: seq<Byte> -> Digest) returns (digest: Digest)
    ensures digest == sha(FeaturesPreimage(f))
  {
    var hasher := new Hasher();
    hasher.Update(FEATURES_TAG);
    hasher.Update(LeU64(|f|));
    FeedEntries(hasher, f);
    assert hasher.fed == FeaturesPreimage(f);
    digest := sha(hasher.fed);
  }

  // ---- timestamp vectors --------------------------------------------------------------------

  /** `timestamps` and a NUL. */
  const TIMESTAMPS_TAG: seq<Byte> := [116, 105, 109, 101, 115, 116, 97, 109, 112, 115, 0]

  predicate InRange(ts: seq<Instant>) {
    |ts| < TWO_64 && forall i :: 0 <= i < |ts| ==> -TWO_63 <= ts[i] < TWO_63
  }

  function MillisBytes(ts: seq<Instant>): (r: seq<Byte>)
    requires forall i :: 0 <= i < |ts| ==> -TWO_63 <= ts[i] < TWO_63
    ensures |r| == 8 * |ts|
  {
    if ts == [] then [] else LeI64(ts[0]) + MillisBytes(ts[1..])
  }

  function TimestampsPreimage(ts: seq<Instant>): seq<Byte>
    requires InRange(ts)
  {
    TIMESTAMPS_TAG + LeU64(|ts|) + MillisBytes(ts)
  }

  function ParseMillis(bytes: seq<Byte>): seq<Instant> {
    if |bytes| < 8 then [] else [FromI64(bytes[..8])] + ParseMillis(bytes[8..])
  }

  function ParseTimestamps(bytes: seq<Byte>): Option<seq<Instant>> {
    var tag := Take(bytes, |TIMESTAMPS_TAG|);
    if tag.Fail? || tag.value != TIMESTAMPS_TAG || |tag.rest| < 8 then None else Some(ParseMillis(tag.rest[8..]))
  }

  lemma {:induction false} MillisParse(ts: seq<Instant>)
    requires forall i :: 0 <= i < |ts| ==> -TWO_63 <= ts[i] < TWO_63
    ensures ParseMillis(MillisBytes(ts)) == ts
  {
    if ts != [] {
      I64RoundTrip(ts[0]);
      var b := MillisBytes(ts);
      assert b[..8] == LeI64(ts[0]) && b[8..] == MillisBytes(ts[1..]);
      MillisParse(ts[1..]);
    }
  }

  /** Two vectors stream alike only if they hold the same instants in the same order. */
  lemma TimestampsParse(ts: seq<Instant>)
    requires InRange(ts)
    ensures ParseTimestamps(TimestampsPreimage(ts)) == Some(ts)
  {
    var b := TimestampsPreimage(ts);
    assert b == TIMESTAMPS_TAG + (LeU64(|ts|) + MillisBytes(ts));
    TakeOfConcat(TIMESTAMPS_TAG, LeU64(|ts|) + MillisBytes(ts));
    assert (LeU64(|ts|) + MillisBytes(ts))[8..] == MillisBytes(ts);
    MillisParse(ts);
  }

  /** The instants go in as one buffer. */
  method TimestampsHash(ts: seq<Instant>, sha: seq<Byte> -> Digest) returns (digest: Digest)
    requires InRange(ts)
    ensures digest == sha(TimestampsPreimage(ts))
  {
    var hasher := new Hasher();
    hasher.Update(TIMESTAMPS_TAG);
    hasher.Update(LeU64(|ts|));
    var bytes: seq<Byte> := [];
    for i := 0 to |ts|
      invariant bytes + MillisBytes(ts[i..]) == MillisBytes(ts)
    {
      assert ts[i..][1..] == ts[i + 1..];
      bytes := bytes + LeI64(ts[i]);
    }
    assert ts[|ts|..] == [];
    assert bytes == MillisBytes(ts);
    hasher.Update(bytes);
    assert hasher.fed == TimestampsPreimage(ts);
    digest := sha(hasher.fed);
  }

  // ---- arrays ---------------------------------------------------------------------------------

  /** The dtype's spelling and a NUL. */
  function DtypeTag(d: Dtype): seq<Byte> {
    match d
    case F64 => [102, 54, 52, 0]
    case F32 => [102, 51, 50, 0]
    case I64 => [105, 54, 52, 0]
    case I32 => [105, 51, 50, 0]
    case I16 => [105, 49, 54, 0]
    case I8 => [105, 56, 0]
    case U64 => [117, 54, 52, 0]
    case U32 => [117, 51, 50, 0]
    case U16 => [117, 49, 54, 0]
    case U8 => [117, 56, 0]
    case Bool => [98, 111, 111, 108, 0]
  }

  const ALL_DTYPES: seq<Dtype> := [Dtype.F64, Dtype.F32, Dtype.I64, Dtype.I32, Dtype.U64, Dtype.Bool, Dtype.I16, Dtype.I8, Dtype.U32, Dtype.U16, Dtype.U8]

  const CANONICAL_NAN32: nat := 0x7fc0_0000

  predicate IsNan64(bytes: seq<Byte>) {
    |bytes| == 8 && FromLe(bytes) < TWO_64 && IsNan(FromLe(bytes))
  }

  predicate IsNan32(bytes: seq<Byte>) {
    var b := FromLe(bytes);
    (b / 0x80_0000) % 256 == 255 && b % 0x80_0000 != 0
  }

  /** The content as hashed: float elements with canonical NaNs, anything else verbatim. */
  function ContentBytes(a: TypedArray): seq<Byte> {
    if a.dtype.F64? then CanonicalStream(a.bytes, 8, LeU64(CANONICAL_NAN), b => IsNan64(b))
    else if a.dtype.F32? then CanonicalStream(a.bytes, 4, Le(CANONICAL_NAN32, 4), b => IsNan32(b))
    else a.bytes
  }

  function DimsBytes(shape: Shape): (r: seq<Byte>)
    ensures |r| == 8 * |shape|
  {
    if shape == [] then [] else LeU64(shape[0]) + DimsBytes(shape[1..])
  }

  function ArrayPreimage(a: TypedArray): seq<Byte> {
    DtypeTag(a.dtype) + LeU64(|a.shape|) + DimsBytes(a.shape) + ContentBytes(a)
  }

  predicate AddressableShape(shape: Shape) {
    |shape| < TWO_64 && forall i :: 0 <= i < |shape| ==> shape[i] < TWO_64
  }

  /** The dtype whose tag starts the stream. */
  function ParseDtype(bytes: seq<Byte>, i: nat): Option<Dtype>
    requires i <= |ALL_DTYPES|
    decreases |ALL_DTYPES| - i
  {
    if i == |ALL_DTYPES| then None
    else if DtypeTag(ALL_DTYPES[i]) <= bytes then Some(ALL_DTYPES[i])
    else ParseDtype(bytes, i + 1)
  }

  function ParseDims(bytes: seq<Byte>, n: nat): Parsed<Shape> {
    if n == 0 then Parsed([], bytes) else
    var d := Take(bytes, 8);
    if d.Fail? then Fail else
    var more := ParseDims(d.rest, n - 1);
    if more.Fail? then Fail else Parsed([FromLe(d.value)] + more.value, more.rest)
  }

  datatype ArrayContent = ArrayContent(dtype: Dtype, shape: Shape, content: seq<Byte>)

  function ParseArray(bytes: seq<Byte>): Option<ArrayContent> {
    var d := ParseDtype(bytes, 0);
    if d.None? then None else
    var tag := Take(bytes, |DtypeTag(d.value)|);
    if tag.Fail? then None else
    var rank := Take(tag.rest, 8);
    if rank.Fail? then None else
    var dims := ParseDims(rank.rest, FromLe(rank.value));
    if dims.Fail? then None else Some(ArrayContent(d.value, dims.value, dims.rest))
  }

  /** No dtype tag starts with another. */
  lemma TagsApart(d: Dtype, e: Dtype)
    ensures DtypeTag(d) <= DtypeTag(e) ==> d == e
    ensures DtypeTag(d)[|DtypeTag(d)| - 1] == 0 && forall i :: 0 <= i < |DtypeTag(d)| - 1 ==> DtypeTag(d)[i] != 0
  {
    var s, t := DtypeTag(d), DtypeTag(e);
    if s <= t {
      assert s[0] == t[0] && s[1] == t[1] && s[2] == t[2];
      assert |s| == 4 ==> s[3] == t[3];
    }
  }

  lemma {:induction false} DtypeParses(d: Dtype, rest: seq<Byte>, i: nat)
    requires i <= |ALL_DTYPES| && d in ALL_DTYPES[i..]
    ensures ParseDtype(DtypeTag(d) + rest, i) == Some(d)
    decreases |ALL_DTYPES| - i
  {
    var e := ALL_DTYPES[i];
    var bytes := DtypeTag(d) + rest;
    if DtypeTag(e) <= bytes {
      PrefixesCompare(DtypeTag(e), DtypeTag(d), rest);
      TagsApart(e, d);
      TagsApart(d, e);
    } else {
      assert d != e;
      DtypeParses(d, rest, i + 1);
    }
  }

  lemma PrefixesCompare(s: seq<Byte>, t: seq<Byte>, rest: seq<Byte>)
    requires s <= t + rest
    ensures s <= t || t <= s
  {
    if |s| <= |t| {
      assert s == (t + rest)[..|s|] == t[..|s|];
    } else {
      assert t == (t + rest)[..|t|] == s[..|t|];
    }
  }

  lemma {:induction false} DimsParse(shape: Shape, rest: seq<Byte>)
    requires forall i :: 0 <= i < |shape| ==> shape[i] < TWO_64
    ensures ParseDims(DimsBytes(shape) + rest, |shape|) == Parsed(shape, rest)
  {
    if shape == [] {
      assert DimsBytes(shape) + rest == rest;
    } else {
      assert DimsBytes(shape) + rest == LeU64(shape[0]) + (DimsBytes(shape[1..]) + rest);
      TakeOfConcat(LeU64(shape[0]), DimsBytes(shape[1..]) + rest);
      U64RoundTrip(shape[0]);
      DimsParse(shape[1..], rest);
      assert [shape[0]] + shape[1..] == shape;
    }
  }

  /** The stream parses back to dtype, shape and content: that triple is the identity. */
  lemma ArrayParses(a: TypedArray)
    requires AddressableShape(a.shape)
    ensures ParseArray(ArrayPreimage(a)) == Some(ArrayContent(a.dtype, a.shape, ContentBytes(a)))
  {
    var tag, rank, body := DtypeTag(a.dtype), LeU64(|a.shape|), DimsBytes(a.shape) + ContentBytes(a);
    assert ArrayPreimage(a) == tag + (rank + body);
    EveryDtype(a.dtype);
    assert ALL_DTYPES[0..] == ALL_DTYPES;
    DtypeParses(a.dtype, rank + body, 0);
    TakeOfConcat(tag, rank + body);
    TakeOfConcat(rank, body);
    U64RoundTrip(|a.shape|);
    DimsParse(a.shape, ContentBytes(a));
  }

  lemma EveryDtype(d: Dtype)
    ensures d in ALL_DTYPES
  {
    assert ALL_DTYPES[DtypePosition(d)] == d;
  }

  function DtypePosition(d: Dtype): nat {
    match d
    case F64 => 0 case F32 => 1 case I64 => 2 case I32 => 3 case U64 => 4 case Bool => 5
    case I16 => 6 case I8 => 7 case U32 => 8 case U16 => 9 case U8 => 10
  }

  /** Arrays stream alike exactly when dtype, shape and canonical content agree. */
  lemma ArrayStreamIdentifies(a: TypedArray, b: TypedArray)
    requires AddressableShape(a.shape) && AddressableShape(b.shape)
    ensures ArrayPreimage(a) == ArrayPreimage(b)
       <==> a.dtype == b.dtype && a.shape == b.shape && ContentBytes(a) == ContentBytes(b)
  {
    ArrayParses(a);
    ArrayParses(b);
  }

  method FeedContent(hasher: Hasher, a: TypedArray)
    modifies hasher
    ensures hasher.fed == old(hasher.fed) + ContentBytes(a)
  {
    match a.dtype {
      case F64 => UpdateCanonicalNans(hasher, a.bytes, 8, LeU64(CANONICAL_NAN), b => IsNan64(b));
      case F32 => UpdateCanonicalNans(hasher, a.bytes, 4, Le(CANONICAL_NAN32, 4), b => IsNan32(b));
      case _ => hasher.Update(a.bytes);
    }
  }

  method ArrayHash(a: TypedArray, sha: seq<Byte> -> Digest) returns (digest: Digest)
    ensures digest == sha(ArrayPreimage(a))
  {
    var hasher := new Hasher();
    hasher.Update(DtypeTag(a.dtype));
    hasher.Update(LeU64(|a.shape|));
    FeedDims(hasher, a.shape);
    FeedContent(hasher, a);
    assert hasher.fed == ArrayPreimage(a);
    digest := sha(hasher.fed);
  }

  method FeedDims(hasher: Hasher, shape: Shape)
    modifies hasher
    ensures hasher.fed == old(hasher.fed) + DimsBytes(shape)
  {
    var i := 0;
    ghost var head := hasher.fed;
    assert shape[0..] == shape;
    while i < |shape|
      invariant 0 <= i <= |shape|
      invariant hasher.fed + DimsBytes(shape[i..]) == head + DimsBytes(shape)
    {
      assert shape[i..][1..] == shape[i + 1..];
      hasher.Update(LeU64(shape[i]));
      i := i + 1;
    }
    assert shape[i..] == [];
  }

  // ---- domains ----------------------------------------------------------------------------------

  /** No stream of one domain is a stream of another. */
  lemma DomainsDisjoint(a: TypedArray, f: seq<Feature>, ts: seq<Instant>)
    requires InRange(ts)
    ensures ArrayPreimage(a) != FeaturesPreimage(f)
    ensures ArrayPreimage(a) != TimestampsPreimage(ts)
    ensures FeaturesPreimage(f) != TimestampsPreimage(ts)
  {
    var x, y, z := ArrayPreimage(a), FeaturesPreimage(f), TimestampsPreimage(ts);
    assert x[0] == DtypeTag(a.dtype)[0] && x[1] == DtypeTag(a.dtype)[1];
    assert y[0] == 102 && y[1] == 101 && z[0] == 116;
  }
}
