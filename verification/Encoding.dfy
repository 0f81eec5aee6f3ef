/** Fixed-width little-endian integers and hexadecimal text. */
module Encoding {
  import opened Wrappers
  import opened Arrays
  import opened Metadata

  function Le(n: nat, width: nat): (r: seq<Byte>)
    ensures |r| == width
  {
    if width == 0 then [] else [n % 256] + Le(n / 256, width - 1)
  }

  function FromLe(bytes: seq<Byte>): nat {
    if bytes == [] then 0 else bytes[0] + 256 * FromLe(bytes[1..])
  }

  function Pow256(k: nat): (p: nat)
    ensures p > 0
  {
    if k == 0 then 1 else 256 * Pow256(k - 1)
  }

  lemma {:induction false} LeRoundTrip(n: nat, width: nat)
    requires n < Pow256(width)
    ensures FromLe(Le(n, width)) == n
  {
    if width > 0 {
      LeRoundTrip(n / 256, width - 1);
    }
  }

  lemma {:induction false} FromLeBound(bytes: seq<Byte>)
    ensures FromLe(bytes) < Pow256(|bytes|)
  {
    if bytes != [] {
      FromLeBound(bytes[1..]);
    }
  }

  lemma Pow256Of8()
    ensures Pow256(8) == TWO_64
  {
    assert Pow256(4) == 0x1_0000_0000;
  }

  /** An unsigned 64-bit count, as eight bytes. */
  function LeU64(n: nat): seq<Byte> { Le(n, 8) }

  lemma U64RoundTrip(n: nat)
    requires n < TWO_64
    ensures FromLe(LeU64(n)) == n
  {
    Pow256Of8();
    LeRoundTrip(n, 8);
  }

  /** A signed 64-bit integer in two's complement. */
  function LeI64(i: int): seq<Byte>
    requires -TWO_63 <= i < TWO_63
  {
    LeU64(if i >= 0 then i else i + TWO_64)
  }

  function FromI64(bytes: seq<Byte>): int {
    var n := FromLe(bytes);
    if n < TWO_63 then n else n - TWO_64
  }

  lemma I64RoundTrip(i: int)
    requires -TWO_63 <= i < TWO_63
    ensures FromI64(LeI64(i)) == i
  {
    U64RoundTrip(if i >= 0 then i else i + TWO_64);
  }

  // ---- hexadecimal ------------------------------------------------------------------------

  /** Lower-case digit of a nibble. */
  function HexDigit(n: nat): Byte
    requires n < 16
  {
    if n < 10 then 48 + n else 87 + n
  }

  function DigitValue(c: Byte): Option<nat> {
    if 48 <= c <= 57 then Some(c - 48)
    else if 97 <= c <= 102 then Some(c - 87)
    else if 65 <= c <= 70 then Some(c - 55)
    else None
  }

  function LowerCase(c: Byte): Byte {
    if 65 <= c <= 90 then c + 32 else c
  }

  function HexOf(hash: seq<Byte>): (r: seq<Byte>)
    ensures |r| == 2 * |hash|
  {
    seq(2 * |hash|, i requires 0 <= i < 2 * |hash| => HexDigit(if i % 2 == 0 then hash[i / 2] / 16 else hash[i / 2] % 16))
  }

  predicate IsHex(s: seq<Byte>) {
    forall i :: 0 <= i < |s| ==> DigitValue(s[i]).Some?
  }

  /** The 32-byte hash some text spells, or none. */
  function HashOf(s: seq<Byte>): Option<seq<Byte>> {
    if |s| == 64 && IsHex(s) then
      Some(seq(32, i requires 0 <= i < 32 => DigitValue(s[2 * i]).value * 16 + DigitValue(s[2 * i + 1]).value))
    else None
  }

  /** Fill the 64 digits a byte at a time. */
  method HashHex(hash: seq<Byte>) returns (r: seq<Byte>)
    requires |hash| == 32
    ensures r == HexOf(hash)
  {
    var out := new Byte[64](_ => 0);
    var i := 0;
    while i < 32
      invariant 0 <= i <= 32
      invariant forall k :: 0 <= k < 2 * i ==> out[k] == HexOf(hash)[k]
    {
      assert (2 * i) / 2 == i && (2 * i + 1) / 2 == i;
      out[2 * i] := HexDigit(hash[i] / 16);
      out[2 * i + 1] := HexDigit(hash[i] % 16);
      i := i + 1;
    }
    r := out[..];
  }

  method HashFromHex(s: seq<Byte>) returns (r: Option<seq<Byte>>)
    ensures r == HashOf(s)
  {
    if |s| != 64 {
      return None;
    }
    var out := new Byte[32](_ => 0);
    var i := 0;
    while i < 32
      invariant 0 <= i <= 32
      invariant forall k :: 0 <= k < 2 * i ==> DigitValue(s[k]).Some?
      invariant forall k :: 0 <= k < i ==> out[k] == DigitValue(s[2 * k]).value * 16 + DigitValue(s[2 * k + 1]).value
    {
      var hi, lo := DigitValue(s[2 * i]), DigitValue(s[2 * i + 1]);
      if hi.None? || lo.None? {
        return None;
      }
      out[i] := hi.value * 16 + lo.value;
      i := i + 1;
    }
    assert IsHex(s);
    assert HashOf(s).Some? && out[..] == HashOf(s).value;
    return Some(out[..]);
  }

  lemma HexPair(hash: seq<Byte>, i: nat)
    requires i < |hash|
    ensures HexOf(hash)[2 * i] == HexDigit(hash[i] / 16) && HexOf(hash)[2 * i + 1] == HexDigit(hash[i] % 16)
  {
    assert (2 * i) / 2 == i && (2 * i + 1) / 2 == i && (2 * i) % 2 == 0 && (2 * i + 1) % 2 == 1;
  }

  lemma DigitOfHex(n: nat)
    requires n < 16
    ensures DigitValue(HexDigit(n)) == Some(n)
  {}

  lemma HexIsHex(hash: seq<Byte>)
    ensures IsHex(HexOf(hash))
  {
    forall k | 0 <= k < 2 * |hash|
      ensures DigitValue(HexOf(hash)[k]).Some?
    {
      DigitOfHex(if k % 2 == 0 then hash[k / 2] / 16 else hash[k / 2] % 16);
    }
  }

  lemma ByteOfPair(hash: seq<Byte>, i: nat)
    requires i < |hash| && IsHex(HexOf(hash))
    ensures DigitValue(HexOf(hash)[2 * i]).value * 16 + DigitValue(HexOf(hash)[2 * i + 1]).value == hash[i]
  {
    HexPair(hash, i);
    DigitOfHex(hash[i] / 16);
    DigitOfHex(hash[i] % 16);
  }

  /** Decoding undoes encoding. */
  lemma HexInverse(hash: seq<Byte>)
    requires |hash| == 32
    ensures HashOf(HexOf(hash)) == Some(hash)
  {
    var s := HexOf(hash);
    HexIsHex(hash);
    var back := HashOf(s).value;
    forall i | 0 <= i < 32
      ensures back[i] == hash[i]
    {
      ByteOfPair(hash, i);
    }
    assert back == hash;
  }

  /** Exactly the 64-digit texts decode, and encoding undoes decoding up to letter case. */
  lemma HexInverseUpToCase(s: seq<Byte>)
    ensures HashOf(s).Some? <==> |s| == 64 && IsHex(s)
    ensures HashOf(s).Some? ==> HexOf(HashOf(s).value) == seq(64, i requires 0 <= i < 64 => if i < |s| then LowerCase(s[i]) else 0)
  {
    if HashOf(s).Some? {
      forall i | 0 <= i < 64
        ensures HexOf(HashOf(s).value)[i] == LowerCase(s[i])
      {
        DigitReadsBack(s, i);
      }
    }
  }

  lemma DigitReadsBack(s: seq<Byte>, i: nat)
    requires HashOf(s).Some? && i < 64 && |s| == 64
    ensures HexOf(HashOf(s).value)[i] == LowerCase(s[i])
  {
    var k := i / 2;
    var hi, lo := DigitValue(s[2 * k]), DigitValue(s[2 * k + 1]);
    assert HashOf(s).value[k] == hi.value * 16 + lo.value;
    NibblesApart(hi.value, lo.value);
    assert DigitValue(s[i]).Some? && i == 2 * k + i % 2;
    DigitLowers(s[i]);
  }

  lemma NibblesApart(hi: nat, lo: nat)
    requires hi < 16 && lo < 16
    ensures (hi * 16 + lo) / 16 == hi && (hi * 16 + lo) % 16 == lo
  {}

  lemma DigitLowers(c: Byte)
    requires DigitValue(c).Some?
    ensures HexDigit(DigitValue(c).value) == LowerCase(c)
  {}
}
