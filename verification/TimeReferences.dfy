/** How a series' timestamps were spelled, as one text column (types/time_reference.rs). */
module TimeReferences {
  import opened Wrappers
  import opened Arrays
  import opened Metadata

  const UTC_LITERAL: Text := [117, 116, 99]
  const ZONELESS_LITERAL: Text := [122, 111, 110, 101, 108, 101, 115, 115]
  const MAX_ZONE_NAME_LEN: nat := 64
  const PLUS: Byte := 43
  const MINUS: Byte := 45
  const COLON: Byte := 58
  const SLASH: Byte := 47

  predicate IsDigit(c: Byte) { 48 <= c <= 57 }
  predicate IsLetter(c: Byte) { 65 <= c <= 90 || 97 <= c <= 122 }

  function Abs(i: int): nat { if i < 0 then -i else i }

  function Decimal(n: nat): Text {
    if n < 10 then [48 + n] else Decimal(n / 10) + [48 + n % 10]
  }

  /** At least two digits. */
  function Pad2(n: nat): Text { if n < 10 then [48] + Decimal(n) else Decimal(n) }

  /** A sign, hours, a colon, minutes. */
  function FormatOffset(minutes: int): Text {
    [if minutes < 0 then MINUS else PLUS] + Pad2(Abs(minutes) / 60) + [COLON] + Pad2(Abs(minutes) % 60)
  }

  function ParseNumber(s: Text): Option<nat>
    requires |s| <= 2
  {
    if s == [] || exists i :: 0 <= i < |s| && !IsDigit(s[i]) then None
    else if |s| == 1 then Some(s[0] - 48)
    else Some((s[0] - 48) * 10 + (s[1] - 48))
  }

  /** The hours and minutes of the three spellings a reader takes. */
  function OffsetParts(rest: Text): Option<(Text, Text)> {
    if |rest| == 5 && rest[2] == COLON then Some((rest[..2], rest[3..]))
    else if |rest| == 4 then Some((rest[..2], rest[2..]))
    else if |rest| == 2 then Some((rest, [48]))
    else None
  }

  /** An offset's minutes east, or nothing if the text is not an offset at all. */
  function ParseOffset(s: Text): (r: Option<int>)
    ensures r.Some? ==> Abs(r.value) < 24 * 60
  {
    if s == [] || (s[0] != PLUS && s[0] != MINUS) then None
    else
      var rest := s[1..];
      if exists i :: 0 <= i < |rest| && !IsDigit(rest[i]) && rest[i] != COLON then None
      else
        match OffsetParts(rest)
        case None => None
        case Some(parts) =>
          if |parts.0| > 2 || |parts.1| > 2 then None
          else
            match (ParseNumber(parts.0), ParseNumber(parts.1))
            case (Some(h), Some(m)) =>
              if h > 23 || m > 59 then None
              else
                var east: int := h * 60 + m;
                Some(if s[0] == PLUS then east else -east)
            case _ => None
  }

  function SplitSlash(s: Text): (r: seq<Text>)
    ensures |r| > 0
  {
    if s == [] then [[]]
    else
      var rest := SplitSlash(s[1..]);
      if s[0] == SLASH then [[]] + rest else [[s[0]] + rest[0]] + rest[1..]
  }

  /** One to three slash-separated components, each a letter and then letters, digits, `_`, `+` or `-`. */
  predicate IanaShaped(name: Text) {
    var parts := SplitSlash(name);
    && |parts| <= 3
    && (forall p :: 0 <= p < |parts| ==> parts[p] != [] && IsLetter(parts[p][0]))
    && (forall p, i :: 0 <= p < |parts| && 0 <= i < |parts[p]| ==>
          IsLetter(parts[p][i]) || IsDigit(parts[p][i]) || parts[p][i] in {95, PLUS, MINUS})
  }

  predicate Valid(r: TimeReference) {
    match r
    case Utc => true
    case Zoneless => true
    case FixedOffset(m) => Abs(m) < 24 * 60
    case Zone(name) =>
      && name != [] && |name| <= MAX_ZONE_NAME_LEN
      && name != UTC_LITERAL && name != ZONELESS_LITERAL
      && ParseOffset(name).None?
      && IanaShaped(name)
  }

  function StorageString(r: TimeReference): Text {
    match r
    case Utc => UTC_LITERAL
    case Zoneless => ZONELESS_LITERAL
    case FixedOffset(m) => FormatOffset(m)
    case Zone(name) => name
  }

  /** The literals first, then the offset grammar, then the zone name. */
  function ParseReference(s: Text): Result<TimeReference> {
    if s == UTC_LITERAL then Ok(Utc)
    else if s == ZONELESS_LITERAL then Ok(Zoneless)
    else
      match ParseOffset(s)
      case Some(m) => Ok(FixedOffset(m))
      case None => if Valid(Zone(s)) then Ok(Zone(s)) else Err(InvalidParameter)
  }

  lemma TwoDigits(n: nat)
    requires n < 100
    ensures |Pad2(n)| == 2 && IsDigit(Pad2(n)[0]) && IsDigit(Pad2(n)[1]) && ParseNumber(Pad2(n)) == Some(n)
  {
    if n >= 10 {
      assert Decimal(n / 10) == [48 + n / 10];
    }
  }

  lemma OffsetReadsBack(m: int)
    requires Abs(m) < 24 * 60
    ensures ParseOffset(FormatOffset(m)) == Some(m)
  {
    var h, k := Abs(m) / 60, Abs(m) % 60;
    TwoDigits(h);
    TwoDigits(k);
    var s := FormatOffset(m);
    var rest := s[1..];
    assert rest == Pad2(h) + [COLON] + Pad2(k);
    assert rest[..2] == Pad2(h) && rest[3..] == Pad2(k) && rest[2] == COLON;
    assert forall i :: 0 <= i < |rest| ==> IsDigit(rest[i]) || rest[i] == COLON;
  }

  /** The spelling comes back exactly for the references validation accepts: one text column holds all
      four kinds without confusion, and nothing less strict would do. */
  lemma ReadsBackExactlyWhenValid(r: TimeReference)
    ensures ParseReference(StorageString(r)) == Ok(r) <==> Valid(r)
  {
    if r.FixedOffset? && Valid(r) {
      OffsetReadsBack(r.minutes);
      var s := FormatOffset(r.minutes);
      assert s[0] == PLUS || s[0] == MINUS;
    }
  }
}
