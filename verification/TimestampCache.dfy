/** The memo of recently decoded time axes (metadata.rs): a small least-recently-used cache over
    content-addressed vectors. */
module TimestampCache {
  import opened Wrappers
  import opened Storage
  import opened Metadata

  const CAPACITY: nat := 4

  datatype Entry = Entry(hash: Digest, timestamps: seq<Instant>)

  type Vectors = map<Digest, seq<Instant>>

  /** A backend read may fail; what it returns is what the hash names. */
  type VectorReader = Digest -> Result<seq<Instant>>

  ghost predicate HonestVectors(get: VectorReader, vectors: Vectors) {
    forall h :: get(h).Ok? ==> h in vectors && get(h).value == vectors[h]
  }

  // ---- recency, with no bound ---------------------------------------------------------------

  function Drop(order: seq<Digest>, h: Digest): seq<Digest> {
    if order == [] then []
    else if order[|order| - 1] == h then Drop(order[..|order| - 1], h)
    else Drop(order[..|order| - 1], h) + [order[|order| - 1]]
  }

  function Touch(order: seq<Digest>, h: Digest): seq<Digest> { Drop(order, h) + [h] }

  /** Every hash of a history once, least recently used first. */
  function Recency(history: seq<Digest>): seq<Digest> {
    if history == [] then [] else Touch(Recency(history[..|history| - 1]), history[|history| - 1])
  }

  /** The last `n` of a sequence. */
  function Last<T>(s: seq<T>, n: nat): seq<T> { if |s| <= n then s else s[|s| - n..] }

  predicate Unique(s: seq<Digest>) { forall i, j :: 0 <= i < j < |s| ==> s[i] != s[j] }

  lemma {:induction false} DropAt(order: seq<Digest>, h: Digest)
    ensures forall x :: x in Drop(order, h) <==> x in order && x != h
    ensures Unique(order) ==> Unique(Drop(order, h))
    ensures h !in order ==> Drop(order, h) == order
  {
    if order != [] {
      var init, last := order[..|order| - 1], order[|order| - 1];
      DropAt(init, h);
      assert order == init + [last];
      if Unique(order) {
        assert forall i :: 0 <= i < |init| ==> init[i] == order[i] && order[i] != order[|order| - 1];
        assert last !in Drop(init, h);
      }
    }
  }

  /** The order of two hashes that stay is kept. */
  lemma {:induction false} DropKeepsOrder(order: seq<Digest>, h: Digest, i: nat, j: nat)
    requires Unique(order) && i < j < |Drop(order, h)|
    ensures exists a, b :: 0 <= a < b < |order| && order[a] == Drop(order, h)[i] && order[b] == Drop(order, h)[j]
  {
    var init := order[..|order| - 1];
    var kept := Drop(init, h);
    if j < |kept| {
      DropKeepsOrder(init, h, i, j);
      var a, b :| 0 <= a < b < |init| && init[a] == kept[i] && init[b] == kept[j];
      assert order[a] == kept[i] && order[b] == kept[j];
    } else {
      DropAt(init, h);
      assert kept[i] in init;
      var a :| 0 <= a < |init| && init[a] == kept[i];
      assert order[a] == Drop(order, h)[i] && order[|order| - 1] == Drop(order, h)[j];
    }
  }

  lemma {:induction false} RecencyUnique(history: seq<Digest>)
    ensures Unique(Recency(history))
    ensures forall x :: x in Recency(history) <==> x in history
  {
    if history != [] {
      var init, last := history[..|history| - 1], history[|history| - 1];
      RecencyUnique(init);
      DropAt(Recency(init), last);
      assert history == init + [last];
    }
  }

  /** Where a hash was last used. */
  function LastUse(history: seq<Digest>, h: Digest): (r: int)
    ensures -1 <= r < |history| && (r >= 0 <==> h in history)
    ensures r >= 0 ==> history[r] == h && h !in history[r + 1..]
  {
    if history == [] then -1
    else if history[|history| - 1] == h then |history| - 1
    else
      var init := history[..|history| - 1];
      assert history == init + [history[|history| - 1]];
      var r := LastUse(init, h);
      assert r >= 0 ==> history[r + 1..] == init[r + 1..] + [history[|history| - 1]];
      r
  }

  /** Recency order is the order of last uses. */
  lemma {:induction false} RecencyIsByLastUse(history: seq<Digest>, i: nat, j: nat)
    requires i < j < |Recency(history)|
    ensures LastUse(history, Recency(history)[i]) < LastUse(history, Recency(history)[j])
  {
    var init, last := history[..|history| - 1], history[|history| - 1];
    var before, now := Recency(init), Recency(history);
    RecencyUnique(init);
    DropAt(before, last);
    assert now[i] in Drop(before, last);
    if j < |now| - 1 {
      DropKeepsOrder(before, last, i, j);
      var a, b :| 0 <= a < b < |before| && before[a] == now[i] && before[b] == now[j];
      RecencyIsByLastUse(init, a, b);
      assert now[j] in Drop(before, last);
    }
  }

  // ---- the bounded cache agrees ----------------------------------------------------------------

  lemma {:induction false} DropOfConcat(a: seq<Digest>, b: seq<Digest>, h: Digest)
    ensures Drop(a + b, h) == Drop(a, h) + Drop(b, h)
  {
    if b == [] {
      assert a + b == a;
    } else {
      assert (a + b)[..|a + b| - 1] == a + b[..|b| - 1];
      DropOfConcat(a, b[..|b| - 1], h);
    }
  }

  lemma {:induction false} DropOne(s: seq<Digest>, h: Digest)
    requires Unique(s) && h in s
    ensures |Drop(s, h)| == |s| - 1
  {
    var init, last := s[..|s| - 1], s[|s| - 1];
    if last == h {
      DropAt(init, h);
      assert h !in init;
    } else {
      assert s == init + [last];
      DropOne(init, h);
    }
  }

  lemma LastOfConcat(rest: seq<Digest>, kept: seq<Digest>)
    ensures Last(rest + kept, |kept|) == kept
  {}

  lemma LastShort(s: seq<Digest>, n: nat)
    requires |s| <= n
    ensures Last(s, n) == s
  {}

  lemma TouchSplit(gone: seq<Digest>, kept: seq<Digest>, h: Digest)
    ensures Touch(gone + kept, h) == Drop(gone, h) + Touch(kept, h)
  {
    DropOfConcat(gone, kept, h);
  }

  lemma HeldNotGone(gone: seq<Digest>, kept: seq<Digest>, h: Digest)
    requires Unique(gone + kept) && h in kept
    ensures h !in gone && Unique(kept)
  {
    var order := gone + kept;
    var k :| 0 <= k < |kept| && kept[k] == h;
    assert forall i :: 0 <= i < |gone| ==> gone[i] == order[i] && order[i] != order[|gone| + k];
    assert forall i :: 0 <= i < |kept| ==> kept[i] == order[|gone| + i];
  }

  lemma TouchHeldSplit(gone: seq<Digest>, kept: seq<Digest>, h: Digest)
    requires Unique(gone + kept) && h in kept
    ensures Touch(gone + kept, h) == gone + Touch(kept, h) && |Touch(kept, h)| == |kept|
  {
    HeldNotGone(gone, kept, h);
    TouchSplit(gone, kept, h);
    DropAt(gone, h);
    DropOne(kept, h);
  }

  /** Keeping only the `n` most recent loses nothing the next access needs: a held hash moves to the back ... */
  lemma TouchHeld(order: seq<Digest>, h: Digest, n: nat)
    requires n > 0 && Unique(order) && h in Last(order, n)
    ensures Last(Touch(order, h), n) == Touch(Last(order, n), h)
  {
    LastSplits(order, n);
    TouchHeldParts(order[..|order| - |Last(order, n)|], Last(order, n), h, n);
  }

  lemma LastSplits(order: seq<Digest>, n: nat)
    ensures |Last(order, n)| <= |order| && |Last(order, n)| <= n
    ensures order == order[..|order| - |Last(order, n)|] + Last(order, n)
    ensures |Last(order, n)| < |order| ==> |Last(order, n)| == n
  {}

  lemma TouchHeldParts(gone: seq<Digest>, kept: seq<Digest>, h: Digest, n: nat)
    requires Unique(gone + kept) && h in kept && |kept| <= n && (gone != [] ==> |kept| == n)
    ensures Last(Touch(gone + kept, h), n) == Touch(kept, h)
  {
    TouchHeldSplit(gone, kept, h);
    if gone == [] {
      assert gone + Touch(kept, h) == Touch(kept, h);
      LastShort(Touch(kept, h), n);
    } else {
      LastOfConcat(gone, Touch(kept, h));
    }
  }

  /** ... and a new one joins it, the coldest leaving if the cache was full. */
  lemma TouchNew(order: seq<Digest>, h: Digest, n: nat)
    requires n > 0 && h !in Last(order, n)
    ensures Last(Touch(order, h), n) == Last(Last(order, n) + [h], n)
  {
    var kept := Last(order, n);
    var gone := order[..|order| - |kept|];
    assert order == gone + kept;
    TouchSplit(gone, kept, h);
    DropAt(kept, h);
    if gone != [] {
      LastOfPush(Drop(gone, h), kept, h);
      LastOfPush([], kept, h);
      assert [] + (kept + [h]) == kept + [h];
    }
  }

  lemma LastOfPush(rest: seq<Digest>, kept: seq<Digest>, h: Digest)
    requires kept != []
    ensures Last(rest + (kept + [h]), |kept|) == kept[1..] + [h]
  {
    var tail := kept[1..] + [h];
    assert rest + (kept + [h]) == (rest + [kept[0]]) + tail;
    LastOfConcat(rest + [kept[0]], tail);
  }

  function HashesOf(entries: seq<Entry>): (r: seq<Digest>)
    ensures |r| == |entries|
  {
    seq(|entries|, k requires 0 <= k < |entries| => entries[k].hash)
  }

  lemma RemovedIsDropped(hashes: seq<Digest>, k: nat)
    requires Unique(hashes) && k < |hashes|
    ensures Drop(hashes, hashes[k]) == hashes[..k] + hashes[k + 1..]
  {
    var a, b := hashes[..k], hashes[k + 1..];
    assert hashes == a + [hashes[k]] + b;
    DropOfConcat(a + [hashes[k]], b, hashes[k]);
    DropOfConcat(a, [hashes[k]], hashes[k]);
    DropAt(a, hashes[k]);
    DropAt(b, hashes[k]);
    var one := [hashes[k]];
    assert one[..0] == [];
    assert Drop([hashes[k]], hashes[k]) == [];
  }

  /** The entries are precisely the most recently accessed hashes, in recency order, each with the
      vector it names. */
  ghost predicate Tracks(entries: seq<Entry>, history: seq<Digest>, vectors: Vectors) {
    && |entries| <= CAPACITY
    && HashesOf(entries) == Last(Recency(history), CAPACITY)
    && (forall e :: e in entries ==> e.hash in vectors && e.timestamps == vectors[e.hash])
  }

  function MovedToBack(entries: seq<Entry>, k: nat): (r: seq<Entry>)
    requires k < |entries|
  {
    entries[..k] + entries[k + 1..] + [entries[k]]
  }

  lemma HitTracks(entries: seq<Entry>, history: seq<Digest>, vectors: Vectors, k: nat)
    requires Tracks(entries, history, vectors) && k < |entries|
    ensures Tracks(MovedToBack(entries, k), history + [entries[k].hash], vectors)
  {
    var hash := entries[k].hash;
    var before := HashesOf(entries);
    var after := MovedToBack(entries, k);
    RecencyUnique(history);
    LastUnique(Recency(history), CAPACITY);
    assert before[k] == hash;
    RemovedIsDropped(before, k);
    TouchHeld(Recency(history), hash, CAPACITY);
    NextRecency(history, hash);
    MovedHashes(entries, k);
    MovedSame(entries, k);
  }

  lemma MovedHashes(entries: seq<Entry>, k: nat)
    requires k < |entries|
    ensures HashesOf(MovedToBack(entries, k)) == HashesOf(entries)[..k] + HashesOf(entries)[k + 1..] + [entries[k].hash]
  {}

  lemma MovedSame(entries: seq<Entry>, k: nat)
    requires k < |entries|
    ensures |MovedToBack(entries, k)| == |entries|
    ensures forall e :: e in MovedToBack(entries, k) ==> e in entries
  {}

  lemma LastUnique(s: seq<Digest>, n: nat)
    requires Unique(s)
    ensures Unique(Last(s, n))
  {
    var kept := Last(s, n);
    assert forall i :: 0 <= i < |kept| ==> kept[i] == s[|s| - |kept| + i];
  }

  lemma NextRecency(history: seq<Digest>, hash: Digest)
    ensures Recency(history + [hash]) == Touch(Recency(history), hash)
  {
    assert (history + [hash])[..|history|] == history;
  }

  function Pushed(entries: seq<Entry>, entry: Entry): seq<Entry> {
    (if |entries| == CAPACITY then entries[1..] else entries) + [entry]
  }

  lemma MissTracks(entries: seq<Entry>, history: seq<Digest>, vectors: Vectors, entry: Entry)
    requires Tracks(entries, history, vectors) && entry.hash !in HashesOf(entries)
    requires entry.hash in vectors && entry.timestamps == vectors[entry.hash]
    ensures Tracks(Pushed(entries, entry), history + [entry.hash], vectors)
  {
    TouchNew(Recency(history), entry.hash, CAPACITY);
    NextRecency(history, entry.hash);
    assert HashesOf(Pushed(entries, entry)) == Last(HashesOf(entries) + [entry.hash], CAPACITY);
  }

  class Memo {
    var entries: seq<Entry>
    /** Every access that returned a vector, in order. */
    ghost var history: seq<Digest>

    ghost predicate Valid(vectors: Vectors)
      reads this
    {
      Tracks(entries, history, vectors)
    }

    constructor (ghost vectors: Vectors)
      ensures Valid(vectors) && history == []
    {
      entries := [];
      history := [];
    }

    method Position(hash: Digest) returns (k: nat)
      ensures k <= |entries| && (k < |entries| ==> entries[k].hash == hash)
      ensures k == |entries| <==> hash !in HashesOf(entries)
    {
      k := 0;
      while k < |entries|
        invariant k <= |entries| && forall j :: 0 <= j < k ==> entries[j].hash != hash
      {
        if entries[k].hash == hash {
          assert HashesOf(entries)[k] == hash;
          return;
        }
        k := k + 1;
      }
    }

    /** A hit moves its entry to the back. */
    method Get(hash: Digest, ghost vectors: Vectors) returns (found: Option<seq<Instant>>)
      requires Valid(vectors)
      modifies this
      ensures Valid(vectors)
      ensures found.Some? <==> hash in Last(Recency(old(history)), CAPACITY)
      ensures found.Some? ==> hash in vectors && found.value == vectors[hash] && history == old(history) + [hash]
      ensures found.None? ==> history == old(history) && entries == old(entries)
    {
      var k := Position(hash);
      if k == |entries| {
        return None;
      }
      HitTracks(entries, history, vectors, k);
      var entry := entries[k];
      entries := entries[..k] + entries[k + 1..] + [entry];
      history := history + [hash];
      return Some(entry.timestamps);
    }

    /** A new hash evicts the coldest entry when full; one already held changes nothing. */
    method Insert(hash: Digest, timestamps: seq<Instant>, ghost vectors: Vectors)
      requires Valid(vectors) && hash in vectors && timestamps == vectors[hash]
      modifies this
      ensures Valid(vectors)
      ensures if hash in HashesOf(old(entries)) then entries == old(entries) && history == old(history)
              else history == old(history) + [hash]
    {
      var k := Position(hash);
      if k < |entries| {
        return;
      }
      MissTracks(entries, history, vectors, Entry(hash, timestamps));
      if |entries| == CAPACITY {
        entries := entries[1..];
      }
      entries := entries + [Entry(hash, timestamps)];
      history := history + [hash];
    }

    /** The vector named by `hash`: served from memory, or read and remembered. */
    method TimestampsForHash(hash: Digest, get: VectorReader, ghost vectors: Vectors) returns (r: Result<seq<Instant>>)
      requires Valid(vectors) && HonestVectors(get, vectors)
      modifies this
      ensures Valid(vectors)
      ensures r.Ok? <==> hash in Last(Recency(old(history)), CAPACITY) || get(hash).Ok?
      ensures r.Ok? ==> hash in vectors && r.value == vectors[hash] && history == old(history) + [hash]
      ensures r.Err? ==> r == get(hash) && history == old(history) && entries == old(entries)
    {
      var held := Get(hash, vectors);
      if held.Some? {
        return Ok(held.value);
      }
      r := get(hash);
      if r.Ok? {
        Insert(hash, r.value, vectors);
      }
    }
  }

  /** A whole run of lookups against a backend whose state changes between calls. */
  method Lookups(memo: Memo, hashes: seq<Digest>, gets: seq<VectorReader>, ghost vectors: Vectors) returns (rs: seq<Result<seq<Instant>>>)
    requires |gets| == |hashes| && memo.Valid(vectors)
    requires forall k :: 0 <= k < |gets| ==> HonestVectors(gets[k], vectors)
    modifies memo
    ensures memo.Valid(vectors) && |rs| == |hashes|
    ensures forall k :: 0 <= k < |rs| && rs[k].Ok? ==> hashes[k] in vectors && rs[k].value == vectors[hashes[k]]
    ensures forall k :: 0 <= k < |rs| && gets[k](hashes[k]).Ok? ==> rs[k] == gets[k](hashes[k])
  {
    rs := [];
    for k := 0 to |hashes|
      invariant memo.Valid(vectors) && |rs| == k
      invariant forall j :: 0 <= j < k ==> AnswersAsRead(hashes[j], gets[j], vectors, rs[j])
    {
      var r := memo.TimestampsForHash(hashes[k], gets[k], vectors);
      ReadAnswers(hashes[k], gets[k], vectors, r);
      rs := rs + [r];
    }
    forall k | 0 <= k < |rs|
      ensures AnswersAsRead(hashes[k], gets[k], vectors, rs[k])
    {}
  }

  /** An answer is what the hash names, and the backend's own when the backend would answer. */
  predicate AnswersAsRead(hash: Digest, get: VectorReader, vectors: Vectors, r: Result<seq<Instant>>) {
    && (r.Ok? ==> hash in vectors && r.value == vectors[hash])
    && (get(hash).Ok? ==> r == get(hash))
  }

  lemma ReadAnswers(hash: Digest, get: VectorReader, vectors: Vectors, r: Result<seq<Instant>>)
    requires HonestVectors(get, vectors)
    requires r.Ok? ==> hash in vectors && r.value == vectors[hash]
    requires r.Err? ==> r == get(hash)
    ensures AnswersAsRead(hash, get, vectors, r)
  {}
}
