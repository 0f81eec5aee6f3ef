/** The byte streams fed to SHA-256 for arrays, feature maps and timestamp vectors
    (hash.rs), and why each stream says what it hashed. The digest itself stays abstract. */
module Hashing {
  import opened Wrappers
  import opened Arrays
  import opened Cuts
  import opened Storage
  import opened Ordering
  import opened Metadata
  import opened Encoding

  /** A hasher, as the bytes it has been fed. */
  class Hasher {
    var fed: seq<Byte>

    constructor ()
      ensures fed == []
    {
      fed := [];
    }

    method Update(bytes: seq<Byte>)
      modifies this
      ensures fed == old(fed) + bytes
    {
      fed := fed + bytes;
    }
  }

  // ---- NaN canonicalisation -------------------------------------------------------------

  /** The element-at-a-time stream: every full element, NaNs replaced. */
  function CanonicalStream(bytes: seq<Byte>, n: nat, nan: seq<Byte>, isNan: seq<Byte> -> bool): seq<Byte>
    requires n > 0
  {
    if |bytes| < n then [] else
      (if isNan(bytes[..n]) then nan else bytes[..n]) + CanonicalStream(bytes[n..], n, nan, isNan)
  }

  /** Whole elements of a prefix and of what follows it. */
  lemma {:induction false} StreamSplit(bytes: seq<Byte>, k: nat, n: nat, nan: seq<Byte>, isNan: seq<Byte> -> bool)
    requires n > 0 && k * n <= |bytes|
    ensures 0 <= k * n
    ensures CanonicalStream(bytes, n, nan, isNan)
         == CanonicalStream(bytes[..k * n], n, nan, isNan) + CanonicalStream(bytes[k * n..], n, nan, isNan)
  {
    if k == 0 {
      assert bytes[0..] == bytes;
    } else {
      Distribute(k - 1, 1, n);
      StreamSplit(bytes[n..], k - 1, n, nan, isNan);
      assert bytes[n..][..(k - 1) * n] == bytes[..k * n][n..];
      assert bytes[n..][(k - 1) * n..] == bytes[k * n..];
      assert bytes[..k * n][..n] == bytes[..n];
    }
  }

  predicate NanFree(bytes: seq<Byte>, from: nat, to: nat, n: nat, isNan: seq<Byte> -> bool)
    requires to * n <= |bytes|
  {
    forall i: nat {:trigger ElementAt(bytes, i, n)} :: from <= i < to ==> !isNan(ElementAt(bytes, i, n))
  }

  function ElementAt(bytes: seq<Byte>, i: nat, n: nat): seq<Byte> {
    if 0 <= i * n <= i * n + n <= |bytes| then bytes[i * n..i * n + n] else []
  }

  /** A run without NaNs is fed as it stands. */
  lemma {:induction false} NanFreeRun(bytes: seq<Byte>, k: nat, n: nat, nan: seq<Byte>, isNan: seq<Byte> -> bool)
    requires n > 0 && |bytes| == k * n && NanFree(bytes, 0, k, n, isNan)
    ensures CanonicalStream(bytes, n, nan, isNan) == bytes
  {
    if k > 0 {
      Distribute(k - 1, 1, n);
      var rest := bytes[n..];
      assert ElementAt(bytes, 0, n) == bytes[..n];
      forall i: nat | 0 <= i < k - 1
        ensures !isNan(ElementAt(rest, i, n))
      {
        MulMonotone(i + 2, k, n);
        Distribute(i, 1, n);
        Distribute(i + 1, 1, n);
        assert ElementAt(rest, i, n) == ElementAt(bytes, i + 1, n);
      }
      NanFreeRun(rest, k - 1, n, nan, isNan);
    }
  }

  /** Canonicalise the whole elements of `all`; a trailing partial element is dropped. */
  method UpdateCanonicalNans(hasher: Hasher, all: seq<Byte>, n: nat, nan: seq<Byte>, isNan: seq<Byte> -> bool)
    requires n > 0
    modifies hasher
    ensures hasher.fed == old(hasher.fed) + CanonicalStream(all, n, nan, isNan)
  {
    var count := |all| / n;
    WholeElements(|all|, n);
    FeedElements(hasher, all[..count * n], count, n, nan, isNan);
    TrailingIgnored(all, count, n, nan, isNan);
  }

  /** Feed runs of non-NaN elements in one update each, and a canonical NaN for each NaN. */
  method FeedElements(hasher: Hasher, bytes: seq<Byte>, count: nat, n: nat, nan: seq<Byte>, isNan: seq<Byte> -> bool)
    requires n > 0 && |bytes| == count * n
    modifies hasher
    ensures hasher.fed == old(hasher.fed) + CanonicalStream(bytes, n, nan, isNan)
  {
    var runStart := 0;
    ghost var r := 0;
    var index := 0;
    assert bytes[..0] == [];
    while index < count
      invariant index <= count && Pending(bytes, r, runStart, index, count, n, isNan)
      invariant hasher.fed == old(hasher.fed) + CanonicalStream(bytes[..runStart], n, nan, isNan)
    {
      ElementInside(index, count, n);
      var offset := index * n;
      if isNan(bytes[offset..offset + n]) {
        FeedThroughNan(bytes, r, runStart, index, count, n, nan, isNan);
        Assoc(old(hasher.fed), CanonicalStream(bytes[..runStart], n, nan, isNan), bytes[runStart..offset] + nan);
        FeedRunAndNan(hasher, bytes[runStart..offset], nan);
        runStart := offset + n;
        r := index + 1;
      } else {
        PendingGrows(bytes, r, runStart, index, count, n, isNan);
      }
      index := index + 1;
    }
    FeedTail(bytes, r, runStart, count, n, nan, isNan);
    Assoc(old(hasher.fed), CanonicalStream(bytes[..runStart], n, nan, isNan), bytes[runStart..]);
    hasher.Update(bytes[runStart..]);
  }

  /** What is left after the last NaN. */
  lemma FeedTail(bytes: seq<Byte>, r: nat, runStart: nat, count: nat, n: nat, nan: seq<Byte>, isNan: seq<Byte> -> bool)
    requires Pending(bytes, r, runStart, count, count, n, isNan)
    ensures CanonicalStream(bytes, n, nan, isNan) == CanonicalStream(bytes[..runStart], n, nan, isNan) + bytes[runStart..]
  {
    FeedRun(bytes, r, count, count, n, nan, isNan);
    assert bytes[..count * n] == bytes;
  }

  method FeedRunAndNan(hasher: Hasher, run: seq<Byte>, nan: seq<Byte>)
    modifies hasher
    ensures hasher.fed == old(hasher.fed) + (run + nan)
  {
    hasher.Update(run);
    hasher.Update(nan);
    assert old(hasher.fed) + run + nan == old(hasher.fed) + (run + nan);
  }

  /** Elements `r .. index` are NaN-free and not fed yet. */
  predicate Pending(bytes: seq<Byte>, r: nat, runStart: nat, index: nat, count: nat, n: nat, isNan: seq<Byte> -> bool) {
    && n > 0 && r <= index <= count && |bytes| == count * n
    && runStart == r * n && runStart <= |bytes| && index * n <= |bytes|
    && NanFree(bytes, r, index, n, isNan)
  }

  lemma PendingGrows(bytes: seq<Byte>, r: nat, runStart: nat, index: nat, count: nat, n: nat, isNan: seq<Byte> -> bool)
    requires Pending(bytes, r, runStart, index, count, n, isNan) && index < count
    requires 0 <= index * n <= index * n + n <= |bytes| && !isNan(bytes[index * n..index * n + n])
    ensures Pending(bytes, r, runStart, index + 1, count, n, isNan)
  {
    ElementInside(index, count, n);
    assert ElementAt(bytes, index, n) == bytes[index * n..index * n + n];
  }

  lemma WholeElements(len: nat, n: nat)
    requires n > 0
    ensures 0 <= (len / n) * n <= len < (len / n) * n + n
  {}

  lemma ElementInside(i: nat, count: nat, n: nat)
    requires i < count
    ensures 0 <= i * n && i * n + n == (i + 1) * n <= count * n
  {
    Distribute(i, 1, n);
    MulMonotone(i + 1, count, n);
  }

  lemma FeedRun(bytes: seq<Byte>, r: nat, index: nat, count: nat, n: nat, nan: seq<Byte>, isNan: seq<Byte> -> bool)
    requires n > 0 && r <= index <= count && |bytes| == count * n
    requires index * n <= |bytes| && NanFree(bytes, r, index, n, isNan)
    ensures 0 <= r * n <= index * n
    ensures CanonicalStream(bytes[..index * n], n, nan, isNan)
         == CanonicalStream(bytes[..r * n], n, nan, isNan) + bytes[r * n..index * n]
  {
    MulMonotone(r, index, n);
    MulMonotone(index, count, n);
    var p := bytes[..index * n];
    StreamSplit(p, r, n, nan, isNan);
    assert p[..r * n] == bytes[..r * n];
    var run := bytes[r * n..index * n];
    assert p[r * n..] == run;
    Distribute(index - r, r, n);
    RunNanFree(bytes, r, index, n, isNan);
    NanFreeRun(run, index - r, n, nan, isNan);
  }

  lemma RunNanFree(bytes: seq<Byte>, r: nat, index: nat, n: nat, isNan: seq<Byte> -> bool)
    requires n > 0 && r <= index && 0 <= r * n <= index * n <= |bytes| && NanFree(bytes, r, index, n, isNan)
    ensures (index - r) * n == index * n - r * n
    ensures NanFree(bytes[r * n..index * n], 0, index - r, n, isNan)
  {
    Distribute(index - r, r, n);
    var run := bytes[r * n..index * n];
    forall i: nat | 0 <= i < index - r
      ensures !isNan(ElementAt(run, i, n))
    {
      ElementInside(i, index - r, n);
      Distribute(r, i, n);
      SliceOfSlice(bytes, r * n, |run|, i * n, n);
      assert ElementAt(run, i, n) == ElementAt(bytes, r + i, n);
    }
  }

  /** A run up to a NaN, and the NaN. */
  lemma FeedThroughNan(bytes: seq<Byte>, r: nat, runStart: nat, index: nat, count: nat, n: nat, nan: seq<Byte>, isNan: seq<Byte> -> bool)
    requires Pending(bytes, r, runStart, index, count, n, isNan) && index < count
    requires 0 <= index * n <= index * n + n <= |bytes| && isNan(bytes[index * n..index * n + n])
    ensures runStart <= index * n
    ensures Pending(bytes, index + 1, index * n + n, index + 1, count, n, isNan)
    ensures CanonicalStream(bytes[..index * n + n], n, nan, isNan)
         == CanonicalStream(bytes[..runStart], n, nan, isNan) + (bytes[runStart..index * n] + nan)
  {
    ElementInside(index, count, n);
    FeedRun(bytes, r, index, count, n, nan, isNan);
    FeedNan(bytes, index, n, nan, isNan);
  }

  lemma FeedNan(bytes: seq<Byte>, index: nat, n: nat, nan: seq<Byte>, isNan: seq<Byte> -> bool)
    requires n > 0 && 0 <= index * n && index * n + n <= |bytes| && isNan(bytes[index * n..index * n + n])
    ensures (index + 1) * n == index * n + n
    ensures CanonicalStream(bytes[..(index + 1) * n], n, nan, isNan)
         == CanonicalStream(bytes[..index * n], n, nan, isNan) + nan
  {
    Distribute(index, 1, n);
    var p := bytes[..index * n + n];
    StreamSplit(p, index, n, nan, isNan);
    var last := p[index * n..];
    assert p[..index * n] == bytes[..index * n] && last == bytes[index * n..index * n + n];
    assert last[..n] == last && last[n..] == [];
    assert CanonicalStream([], n, nan, isNan) == [];
  }

  /** A trailing partial element adds nothing. */
  lemma TrailingIgnored(all: seq<Byte>, count: nat, n: nat, nan: seq<Byte>, isNan: seq<Byte> -> bool)
    requires n > 0 && 0 <= count * n <= |all| < count * n + n
    ensures CanonicalStream(all[..count * n], n, nan, isNan) == CanonicalStream(all, n, nan, isNan)
  {
    StreamSplit(all, count, n, nan, isNan);
  }
}
