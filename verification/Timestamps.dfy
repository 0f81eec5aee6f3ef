/** Timestamp vectors: the value-in-force lookup, the union axis of several breakpoint
    vectors, and the millisecond form instants are stored in (timestamps.rs; store.rs,
    merge_breakpoints). */
module Timestamps {
  import opened Wrappers
  import opened Ordering
  import opened Metadata

  predicate Increasing(v: seq<Instant>) {
    forall i, j :: 0 <= i < j < |v| ==> v[i] < v[j]
  }

  /** How many leading entries are at or before `at`. */
  function PartitionPoint(v: seq<Instant>, at: Instant): (n: nat)
    ensures n <= |v|
    ensures forall i :: 0 <= i < n ==> v[i] <= at
    ensures n < |v| ==> at < v[n]
  {
    if v == [] || at < v[0] then 0 else 1 + PartitionPoint(v[1..], at)
  }

  /** The breakpoint in force at `at`: the greatest one at or before it. */
  function IndexAt(breakpoints: seq<Instant>, at: Instant): (r: Option<nat>)
    ensures r.None? <==> breakpoints == [] || at < breakpoints[0]
    ensures r.Some? ==> InForce(breakpoints, r.value, at)
  {
    var n := PartitionPoint(breakpoints, at);
    if n == 0 then None else Some(n - 1)
  }

  /** Entry `i` of a step function's axis holds at `at`. */
  predicate InForce(v: seq<Instant>, i: nat, at: Instant) {
    i < |v| && v[i] <= at && (i + 1 < |v| ==> at < v[i + 1])
  }

  lemma InForceUnique(v: seq<Instant>, i: nat, j: nat, at: Instant)
    requires Increasing(v) && InForce(v, i, at) && InForce(v, j, at)
    ensures i == j
  {}

  /** An exact hit, as a binary search over an increasing vector finds it. */
  function FindExact(v: seq<Instant>, at: Instant): (r: Option<nat>)
    ensures r.Some? ==> r.value < |v| && v[r.value] == at
    ensures r.None? && Increasing(v) ==> at !in v
  {
    var n := PartitionPoint(v, at);
    if n > 0 && v[n - 1] == at then Some(n - 1) else
      assert Increasing(v) ==> forall i :: 0 <= i < |v| && v[i] == at ==> i + 1 == n;
      None
  }

  /** At a vector's own breakpoints the step lookup and the exact search agree. */
  lemma BreakpointIsItsOwn(v: seq<Instant>, i: nat)
    requires Increasing(v) && i < |v|
    ensures IndexAt(v, v[i]) == Some(i) && FindExact(v, v[i]) == Some(i)
  {
    InForceUnique(v, i, IndexAt(v, v[i]).value, v[i]);
  }

  // ---- the union axis -------------------------------------------------------------------

  function Concatenated(vectors: seq<seq<Instant>>): (r: seq<Instant>)
    ensures forall t :: t in r <==> exists k :: 0 <= k < |vectors| && t in vectors[k]
  {
    if vectors == [] then [] else
      var rest := Concatenated(vectors[1..]);
      assert forall t :: t in rest ==> exists k :: 0 <= k < |vectors| && t in vectors[k] by {
        forall t | t in rest
          ensures exists k :: 0 <= k < |vectors| && t in vectors[k]
        {
          var k :| 0 <= k < |vectors[1..]| && t in vectors[1..][k];
          assert t in vectors[k + 1];
        }
      }
      assert forall k, t :: 0 < k < |vectors| && t in vectors[k] ==> t in rest by {
        forall k, t | 0 < k < |vectors| && t in vectors[k]
          ensures t in rest
        {
          assert t in vectors[1..][k - 1];
        }
      }
      vectors[0] + rest
  }

  /** Drop an entry equal to the one before it. */
  function Dedup(v: seq<Instant>): (r: seq<Instant>)
    ensures forall t :: t in r <==> t in v
    ensures v != [] ==> r != [] && r[0] == v[0]
  {
    if |v| <= 1 then v
    else if v[0] == v[1] then Dedup(v[1..])
    else [v[0]] + Dedup(v[1..])
  }

  function InstantKey(t: Instant): Key { [[t]] }

  /** Concatenate, sort, dedup. */
  function MergeBreakpoints(vectors: seq<seq<Instant>>): seq<Instant> {
    Dedup(SortBy(Concatenated(vectors), InstantKey))
  }

  lemma {:induction false} DedupIncreasing(v: seq<Instant>)
    requires forall i, j :: 0 <= i < j < |v| ==> v[i] <= v[j]
    ensures Increasing(Dedup(v))
  {
    if |v| > 1 {
      DedupIncreasing(v[1..]);
      var r := Dedup(v[1..]);
      if v[0] != v[1] {
        forall j | 0 <= j < |r|
          ensures v[0] < r[j]
        {
          assert r[j] in v[1..];
        }
      }
    }
  }

  /** The union axis is increasing and holds exactly the breakpoints of the vectors. */
  lemma UnionAxis(vectors: seq<seq<Instant>>)
    ensures Increasing(MergeBreakpoints(vectors))
    ensures forall t :: t in MergeBreakpoints(vectors) <==> exists k :: 0 <= k < |vectors| && t in vectors[k]
  {
    var all := Concatenated(vectors);
    var sorted := SortBy(all, InstantKey);
    SortOrdered(all, InstantKey);
    forall i, j | 0 <= i < j < |sorted|
      ensures sorted[i] <= sorted[j]
    {
      assert !KeyLess(InstantKey(sorted[j]), InstantKey(sorted[i]));
      if sorted[j] < sorted[i] {
        assert ComponentLess([sorted[j]], [sorted[i]]);
      }
    }
    DedupIncreasing(sorted);
    forall t
      ensures t in sorted <==> t in all
    {
      assert t in multiset(sorted) <==> t in multiset(all);
    }
  }

  /** A sweep of the union axis misses nothing: between two union points no column changes,
      so reading at `at` is reading at the union point in force. */
  lemma UnionLosesNothing(vectors: seq<seq<Instant>>, k: nat, at: Instant)
    requires k < |vectors| && Increasing(vectors[k])
    requires IndexAt(MergeBreakpoints(vectors), at).Some?
    ensures var union := MergeBreakpoints(vectors);
            IndexAt(vectors[k], at) == IndexAt(vectors[k], union[IndexAt(union, at).value])
  {
    var union := MergeBreakpoints(vectors);
    var v, u := vectors[k], union[IndexAt(union, at).value];
    UnionAxis(vectors);
    forall t | t in v && t <= at
      ensures t <= u
    {
      assert t in union;
      var i :| 0 <= i < |union| && union[i] == t;
    }
    if IndexAt(v, at).Some? {
      var i := IndexAt(v, at).value;
      assert v[i] in v;
      assert InForce(v, i, u);
      InForceUnique(v, i, IndexAt(v, u).value, u);
    }
  }

  // ---- stored form ----------------------------------------------------------------------

  /** An instant as the date library holds it: Unix seconds and a sub-second part that runs
      past one second exactly for a leap second. */
  datatype DateTime = DateTime(secs: int, nanos: int) {
    predicate Legal() { 0 <= nanos < 2_000_000_000 }
  }

  function ToMillis(t: DateTime): int {
    t.secs * 1000 + t.nanos / 1_000_000
  }

  function FromMillis(ms: int): DateTime {
    DateTime(ms / 1000, (ms % 1000) * 1_000_000)
  }

  /** The write path's precision rule. */
  predicate MillisecondPrecise(t: DateTime) {
    t.nanos < 1_000_000_000 && t.nanos % 1_000_000 == 0
  }

  /** The stored form is exact for precisely the instants the rule admits. */
  lemma StoredExactlyWhenPrecise(t: DateTime)
    requires t.Legal()
    ensures FromMillis(ToMillis(t)) == t <==> MillisecondPrecise(t)
  {
    if t.nanos < 1_000_000_000 {
      assert t.nanos / 1_000_000 < 1000;
      assert ToMillis(t) % 1000 == t.nanos / 1_000_000;
    }
  }

  /** What the rule is for: distinct admitted instants stay distinct and keep their order. */
  lemma StoredOrder(a: DateTime, b: DateTime)
    requires a.Legal() && b.Legal() && MillisecondPrecise(a) && MillisecondPrecise(b)
    ensures ToMillis(a) < ToMillis(b) <==> a.secs < b.secs || (a.secs == b.secs && a.nanos < b.nanos)
  {
    StoredExactlyWhenPrecise(a);
    StoredExactlyWhenPrecise(b);
  }
}
