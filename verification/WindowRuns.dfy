/** Whole runs of one window slot: any reads in any order, mixed with backend failures,
    forgets and invalidations. */
module WindowRuns {
  import opened Wrappers
  import opened Arrays
  import opened Storage
  import opened ForecastWindows

  datatype Op = Read(window: nat, via: BlockReader) | Forget | Invalidate

  /** What an operation turned out to be. */
  datatype Event = Served(window: nat) | Failed(window: nat) | Forgotten | Invalidated

  predicate Answers(op: Op, event: Event) {
    match op
    case Read(w, _) => event == Served(w) || event == Failed(w)
    case Forget => event == Forgotten
    case Invalidate => event == Invalidated
  }

  /** Backend calls one operation costs, given what is cached, and what it leaves cached. */
  function Cost(blockCols: nat, count: nat, cached: Option<Range>, e: Event): nat {
    match e
    case Served(w) => if cached == Some(EnclosingBlock(blockCols, count, w)) then 0 else 1
    case Failed(_) => 1
    case Forgotten | Invalidated => 0
  }

  function Leaves(blockCols: nat, count: nat, cached: Option<Range>, e: Event): Option<Range> {
    match e
    case Served(w) => Some(EnclosingBlock(blockCols, count, w))
    case Failed(_) | Forgotten => None
    case Invalidated => cached
  }

  function Calls(blockCols: nat, count: nat, cached: Option<Range>, run: seq<Event>): nat
    decreases |run|
  {
    if run == [] then 0 else
      Cost(blockCols, count, cached, run[0])
      + Calls(blockCols, count, Leaves(blockCols, count, cached, run[0]), run[1..])
  }

  function CachedAfter(blockCols: nat, count: nat, cached: Option<Range>, run: seq<Event>): Option<Range>
    decreases |run|
  {
    if run == [] then cached else CachedAfter(blockCols, count, Leaves(blockCols, count, cached, run[0]), run[1..])
  }

  lemma {:induction false} RunPush(blockCols: nat, count: nat, cached: Option<Range>, run: seq<Event>, e: Event)
    ensures Calls(blockCols, count, cached, run + [e])
         == Calls(blockCols, count, cached, run) + Cost(blockCols, count, CachedAfter(blockCols, count, cached, run), e)
    ensures CachedAfter(blockCols, count, cached, run + [e])
         == Leaves(blockCols, count, CachedAfter(blockCols, count, cached, run), e)
    decreases |run|
  {
    if run == [] {
      assert run + [e] == [e];
    } else {
      assert (run + [e])[1..] == run[1..] + [e];
      RunPush(blockCols, count, Leaves(blockCols, count, cached, run[0]), run[1..], e);
    }
  }

  predicate Shown(slot: WindowSlot, arr: TypedArray, e: Event, window: seq<Byte>)
    requires Describes(slot.read, slot.count, arr)
  {
    window == if e.Served? && e.window < slot.count then WindowBytes(slot.read, slot.count, arr, e.window) else []
  }

  /** The first operations, each with what it turned out to be and what the slot showed after it. */
  ghost predicate Replayed(slot: WindowSlot, arr: TypedArray, ops: seq<Op>, run: seq<Event>, seen: seq<seq<Byte>>)
    requires Describes(slot.read, slot.count, arr)
  {
    |run| == |seen| <= |ops| && forall k :: 0 <= k < |run| ==> Answers(ops[k], run[k]) && Shown(slot, arr, run[k], seen[k])
  }

  lemma ReplayedPush(slot: WindowSlot, arr: TypedArray, ops: seq<Op>, run: seq<Event>, seen: seq<seq<Byte>>, e: Event, window: seq<Byte>)
    requires Describes(slot.read, slot.count, arr) && Replayed(slot, arr, ops, run, seen)
    requires |run| < |ops| && Answers(ops[|run|], e) && Shown(slot, arr, e, window)
    ensures Replayed(slot, arr, ops, run + [e], seen + [window])
  {}

  /** One operation: what it showed, what it cost, what it left cached. */
  method Perform(slot: WindowSlot, op: Op, ghost arr: TypedArray) returns (ghost e: Event, ghost asked: nat)
    requires slot.Valid(arr) && slot.read.Dense?
    requires op.Read? ==> op.window < slot.count && HonestBlocks(op.via, slot.hash, arr)
    modifies slot
    ensures slot.Valid(arr) && Answers(op, e) && Shown(slot, arr, e, slot.Window())
    ensures asked == Cost(slot.blockCols, slot.count, old(slot.cached), e)
    ensures slot.cached == Leaves(slot.blockCols, slot.count, old(slot.cached), e)
  {
    asked := 0;
    match op {
      case Read(w, via) =>
        var r;
        r, asked := slot.ReadWindow(w, via, arr);
        e := if r.Ok? then Served(w) else Failed(w);
      case Forget =>
        slot.Forget();
        e := Forgotten;
      case Invalidate =>
        slot.filled := false;
        e := Invalidated;
    }
  }

  /** Every successful read shows exactly its window, every other operation leaves the slot
      empty, and the calls made are the ones the cache could not spare. */
  method Replay(slot: WindowSlot, ops: seq<Op>, ghost arr: TypedArray)
    returns (ghost run: seq<Event>, ghost seen: seq<seq<Byte>>, ghost calls: nat)
    requires slot.Valid(arr) && slot.read.Dense?
    requires forall i :: 0 <= i < |ops| && ops[i].Read? ==>
               ops[i].window < slot.count && HonestBlocks(ops[i].via, slot.hash, arr)
    modifies slot
    ensures slot.Valid(arr)
    ensures |run| == |ops| == |seen|
    ensures forall i :: 0 <= i < |ops| ==> Answers(ops[i], run[i])
    ensures forall i :: 0 <= i < |run| ==>
              seen[i] == if run[i].Served? && run[i].window < slot.count
                         then WindowBytes(slot.read, slot.count, arr, run[i].window) else []
    ensures calls == Calls(slot.blockCols, slot.count, old(slot.cached), run)
  {
    run, seen, calls := [], [], 0;
    var i := 0;
    while i < |ops|
      invariant 0 <= i <= |ops| && slot.Valid(arr)
      invariant |run| == i && Replayed(slot, arr, ops, run, seen)
      invariant calls == Calls(slot.blockCols, slot.count, old(slot.cached), run)
      invariant slot.cached == CachedAfter(slot.blockCols, slot.count, old(slot.cached), run)
    {
      ghost var e, asked := Perform(slot, ops[i], arr);
      calls := calls + asked;
      RunPush(slot.blockCols, slot.count, old(slot.cached), run, e);
      ReplayedPush(slot, arr, ops, run, seen, e, slot.Window());
      run, seen := run + [e], seen + [slot.Window()];
      i := i + 1;
    }
  }

  // ---- how many calls a sweep costs -------------------------------------------------------

  function Reads(windows: seq<nat>): seq<Event> {
    seq(|windows|, i requires 0 <= i < |windows| => Served(windows[i]))
  }

  /** The blocks a list of windows falls in, in order. */
  function BlockNumbers(windows: seq<nat>, cols: nat): (r: seq<nat>)
    requires cols > 0
    ensures |r| == |windows| && forall i :: 0 <= i < |r| ==> r[i] == windows[i] / cols
  {
    seq(|windows|, i requires 0 <= i < |windows| => windows[i] / cols)
  }

  /** Calls as a fact about block numbers alone: one per change of block. */
  function Fetches(held: Option<nat>, blocks: seq<nat>): nat
    decreases |blocks|
  {
    if blocks == [] then 0 else
      (if held == Some(blocks[0]) then 0 else 1) + Fetches(Some(blocks[0]), blocks[1..])
  }

  lemma SameBlock(blockCols: nat, count: nat, v: nat, w: nat)
    ensures EnclosingBlock(blockCols, count, v) == EnclosingBlock(blockCols, count, w)
        <==> v / Width(blockCols) == w / Width(blockCols)
  {
    var c := Width(blockCols);
    var a, b := v / c, w / c;
    if a < b {
      MulMonotone(a + 1, b, c);
    } else if b < a {
      MulMonotone(b + 1, a, c);
    }
  }

  /** Successful reads after one of `held` (or from an empty cache) cost one call per change
      of block. */
  lemma {:induction false} ReadsAreFetches(blockCols: nat, count: nat, held: Option<nat>, windows: seq<nat>)
    ensures var cached := if held.None? then None else Some(EnclosingBlock(blockCols, count, held.value));
            var block := if held.None? then None else Some(held.value / Width(blockCols));
            Calls(blockCols, count, cached, Reads(windows)) == Fetches(block, BlockNumbers(windows, Width(blockCols)))
    decreases |windows|
  {
    if windows != [] {
      ReadsAreFetches(blockCols, count, Some(windows[0]), windows[1..]);
      assert Reads(windows)[1..] == Reads(windows[1..]);
      assert BlockNumbers(windows, Width(blockCols))[1..] == BlockNumbers(windows[1..], Width(blockCols));
      if held.Some? {
        SameBlock(blockCols, count, held.value, windows[0]);
      }
    }
  }

  function Distinct(blocks: seq<nat>): set<nat> {
    set b | b in blocks
  }

  function Spared(held: Option<nat>): set<nat> {
    if held.None? then {} else {held.value}
  }

  /** In any order, each distinct block costs at least one call. */
  lemma {:induction false} EveryBlockIsFetched(held: Option<nat>, blocks: seq<nat>)
    ensures Fetches(held, blocks) >= |Distinct(blocks) - Spared(held)|
    decreases |blocks|
  {
    if blocks != [] {
      var b, rest := blocks[0], Distinct(blocks[1..]);
      EveryBlockIsFetched(Some(b), blocks[1..]);
      assert Distinct(blocks) == rest + {b};
      SubsetSize((rest + {b}) - Spared(held), if held == Some(b) then rest - {b} else (rest - {b}) + {b});
    }
  }

  lemma {:induction false} SubsetSize(a: set<nat>, b: set<nat>)
    requires a <= b
    ensures |a| <= |b|
  {
    if a != {} {
      var x :| x in a;
      SubsetSize(a - {x}, b - {x});
    }
  }

  predicate NonDecreasing(s: seq<nat>) {
    forall i, j :: 0 <= i < j < |s| ==> s[i] <= s[j]
  }

  lemma TailOfSweep(s: seq<nat>)
    requires NonDecreasing(s) && s != []
    ensures NonDecreasing(s[1..])
    ensures forall x :: x in Distinct(s[1..]) ==> s[0] <= x
    ensures Distinct(s) == Distinct(s[1..]) + {s[0]}
  {
    forall x | x in Distinct(s[1..])
      ensures s[0] <= x
    {
      var i :| 0 <= i < |s[1..]| && s[1..][i] == x;
    }
  }

  /** A sweep that never steps back fetches each block exactly once: no order does better. */
  lemma {:induction false} SweepFetchesOnce(held: Option<nat>, blocks: seq<nat>)
    requires NonDecreasing(blocks)
    requires held.Some? && blocks != [] ==> held.value <= blocks[0]
    ensures Fetches(held, blocks) == |Distinct(blocks) - Spared(held)|
    decreases |blocks|
  {
    if blocks != [] {
      var b, rest := blocks[0], Distinct(blocks[1..]);
      TailOfSweep(blocks);
      assert blocks[1..] != [] ==> blocks[1] in Distinct(blocks[1..]);
      SweepFetchesOnce(Some(b), blocks[1..]);
      FetchCount(rest, b, held);
    }
  }

  lemma FetchCount(rest: set<nat>, b: nat, held: Option<nat>)
    requires held.Some? ==> held.value <= b && forall x :: x in rest ==> b <= x
    ensures |(rest + {b}) - Spared(held)| == |rest - Spared(Some(b))| + if held == Some(b) then 0 else 1
  {
    if held == Some(b) {
      assert (rest + {b}) - {b} == rest - {b};
    } else {
      assert (rest + {b}) - Spared(held) == (rest - {b}) + {b};
    }
  }

  lemma DivMonotone(a: nat, b: nat, c: nat)
    requires c > 0 && a <= b
    ensures a / c <= b / c
  {
    if b / c < a / c {
      MulMonotone(b / c + 1, a / c, c);
    }
  }

  function UpTo(n: nat): (s: set<nat>)
    ensures |s| == n && forall i: nat :: i in s <==> i < n
  {
    if n == 0 then {} else UpTo(n - 1) + {n - 1}
  }

  /** Sweeping the whole timeline in order from an empty cache makes exactly
      ceil(count / block width) calls. */
  lemma FullSweepCalls(blockCols: nat, count: nat)
    ensures Calls(blockCols, count, None, Reads(seq(count, i => i)))
         == (count + Width(blockCols) - 1) / Width(blockCols)
  {
    ReadsAreFetches(blockCols, count, None, seq(count, i => i));
    SweepFetches(count, Width(blockCols));
  }

  lemma SweepFetches(count: nat, cols: nat)
    requires cols > 0
    ensures Fetches(None, BlockNumbers(seq(count, i => i), cols)) == (count + cols - 1) / cols
  {
    var blocks := BlockNumbers(seq(count, i => i), cols);
    BlocksAscend(count, cols);
    SweepFetchesOnce(None, blocks);
    AllBlocks(count, cols);
    assert Distinct(blocks) - {} == Distinct(blocks);
  }

  lemma BlocksAscend(count: nat, cols: nat)
    requires cols > 0
    ensures NonDecreasing(BlockNumbers(seq(count, i => i), cols))
  {
    var blocks := BlockNumbers(seq(count, i => i), cols);
    forall i, j | 0 <= i < j < |blocks|
      ensures blocks[i] <= blocks[j]
    {
      DivMonotone(i, j, cols);
    }
  }

  lemma AllBlocks(count: nat, cols: nat)
    requires cols > 0
    ensures Distinct(BlockNumbers(seq(count, i => i), cols)) == UpTo((count + cols - 1) / cols)
  {
    var blocks := BlockNumbers(seq(count, i => i), cols);
    var n := (count + cols - 1) / cols;
    forall b | b in Distinct(blocks)
      ensures b < n
    {
      var w :| 0 <= w < |blocks| && blocks[w] == b;
      LastBlock(w, count, cols);
    }
    forall b: nat | b < n
      ensures b in Distinct(blocks)
    {
      FirstWindow(b, count, cols);
      assert blocks[b * cols] == b;
    }
  }

  lemma LastBlock(w: nat, count: nat, cols: nat)
    requires cols > 0 && w < count
    ensures w / cols < (count + cols - 1) / cols
  {
    DivMonotone(w + cols, count + cols - 1, cols);
    BlockHolds(w, cols);
    Distribute(w / cols, 1, cols);
    DivUnique(w + cols, cols, w / cols + 1);
  }

  lemma FirstWindow(b: nat, count: nat, cols: nat)
    requires cols > 0 && b < (count + cols - 1) / cols
    ensures 0 <= b * cols < count && (b * cols) / cols == b
  {
    BlockHolds(count + cols - 1, cols);
    MulMonotone(b + 1, (count + cols - 1) / cols, cols);
    Distribute(b, 1, cols);
    DivUnique(b * cols, cols, b);
  }
}
