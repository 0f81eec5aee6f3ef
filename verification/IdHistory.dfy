/** Every id a run ever handed out, undone or not: when ids are unique for good, and exactly when one
    is handed out again. */
module IdHistory {
  import opened Wrappers
  import opened Arrays
  import opened Storage
  import opened Metadata
  import opened Catalog
  import opened CatalogInvariants
  import opened CatalogRuns

  predicate AllRunnable(steps: seq<Step>) { forall k :: 0 <= k < |steps| ==> Runnable(steps[k]) }

  predicate AllUse(known: set<Features>, steps: seq<Step>) { forall k :: 0 <= k < |steps| ==> Uses(known, steps[k]) }

  /** The ids a step returns to its caller. */
  function Handed(sha: Sha, m: Machine, step: Step): seq<int>
    requires Runnable(step)
  {
    if step.Rollback? then [] else
      IssuedGrows(sha, m, step);
      After(sha, m, step).issued[|m.issued|..]
  }

  /** Every id handed out since `m`, in order. A rollback takes nothing out of it. */
  function Log(sha: Sha, m: Machine, steps: seq<Step>): seq<int>
    requires AllRunnable(steps)
    decreases |steps|
  {
    if steps == [] then [] else
      var n := |steps| - 1;
      Log(sha, m, steps[..n]) + Handed(sha, Run(sha, m, steps[..n]), steps[n])
  }

  // ---- runs in which no rollback takes an id back -----------------------------------------------

  /** The rollback at `k`, if there is one, undoes no id that was handed out. */
  predicate Spares(sha: Sha, m: Machine, steps: seq<Step>, k: nat)
    requires AllRunnable(steps) && k < |steps|
  {
    var before := Run(sha, m, steps[..k]);
    steps[k].Rollback? ==> After(sha, before, Rollback).issued == before.issued
  }

  predicate UndoesNone(sha: Sha, m: Machine, steps: seq<Step>)
    requires AllRunnable(steps)
  {
    forall k :: 0 <= k < |steps| ==> Spares(sha, m, steps, k)
  }

  lemma UndoesNonePrefix(sha: Sha, m: Machine, steps: seq<Step>, n: nat)
    requires AllRunnable(steps) && UndoesNone(sha, m, steps) && n <= |steps|
    ensures UndoesNone(sha, m, steps[..n])
  {
    forall k | 0 <= k < n
      ensures Spares(sha, m, steps[..n], k)
    {
      assert Spares(sha, m, steps, k);
      PrefixOfPrefix(steps, n, k);
    }
  }

  /** Then the log is what the surviving history issued: no id in it twice, none above the mark. */
  lemma {:induction false} NothingUndoneNothingReissued(sha: Sha, known: set<Features>, steps: seq<Step>)
    requires AllRunnable(steps) && AllUse(known, steps) && UndoesNone(sha, FRESH, steps)
    ensures Log(sha, FRESH, steps) == Run(sha, FRESH, steps).issued
    ensures Distinct(Log(sha, FRESH, steps))
    ensures forall id :: id in Log(sha, FRESH, steps) ==> 0 < id <= Run(sha, FRESH, steps).state.highWater
    decreases |steps|
  {
    EveryRunIsSound(sha, known, steps);
    if steps != [] {
      var n := |steps| - 1;
      var before := Run(sha, FRESH, steps[..n]);
      UndoesNonePrefix(sha, FRESH, steps, n);
      NothingUndoneNothingReissued(sha, known, steps[..n]);
      assert Spares(sha, FRESH, steps, n);
      if !steps[n].Rollback? {
        IssuedGrows(sha, before, steps[n]);
      }
    }
  }

  // ---- deleted ids ----------------------------------------------------------------------------------

  /** A deleted id is back after a step exactly when the step is a rollback to a state that held it. */
  lemma ReturnsOnlyByRollback(sha: Sha, known: set<Features>, m: Machine, step: Step, i: int)
    requires Inv(sha, known, m) && Runnable(step) && Uses(known, step)
    requires i in m.issued && i !in m.state.rows
    ensures i in After(sha, m, step).state.rows
            <==> step.Rollback? && m.marks != [] && i in m.marks[|m.marks| - 1].state.rows
  {
    if !step.Rollback? {
      DeletedStaysDeleted(sha, known, m, step, i);
    }
  }

  /** The rollback at `k`, if there is one, neither takes `i` back nor brings its row back. */
  predicate LeavesOut(sha: Sha, m: Machine, steps: seq<Step>, k: nat, i: int)
    requires AllRunnable(steps) && k < |steps|
  {
    steps[k].Rollback? ==>
      var next := After(sha, Run(sha, m, steps[..k]), Rollback);
      i in next.issued && i !in next.state.rows
  }

  /** Over a whole run, a deleted id does not return as long as each rollback leaves it issued and its row
      deleted, whatever other ids the rollbacks undo. */
  lemma {:induction false} DeletedNeverReturns(sha: Sha, known: set<Features>, m: Machine, steps: seq<Step>, i: int)
    requires Inv(sha, known, m) && AllRunnable(steps) && AllUse(known, steps)
    requires i in m.issued && i !in m.state.rows && forall k :: 0 <= k < |steps| ==> LeavesOut(sha, m, steps, k, i)
    ensures Inv(sha, known, Run(sha, m, steps))
    ensures i in Run(sha, m, steps).issued && i !in Run(sha, m, steps).state.rows
    decreases |steps|
  {
    if steps != [] {
      var n := |steps| - 1;
      forall k | 0 <= k < n
        ensures LeavesOut(sha, m, steps[..n], k, i)
      {
        assert LeavesOut(sha, m, steps, k, i);
        PrefixOfPrefix(steps, n, k);
      }
      DeletedNeverReturns(sha, known, m, steps[..n], i);
      var before := Run(sha, m, steps[..n]);
      StepKeeps(sha, known, before, steps[n]);
      assert LeavesOut(sha, m, steps, n, i);
      if !steps[n].Rollback? {
        IssuedGrows(sha, before, steps[n]);
        DeletedStaysDeleted(sha, known, before, steps[n], i);
      }
    }
  }

  // ---- an id names one series ----------------------------------------------------------------------

  lemma SameSeriesOrder(a: Row, b: Row, c: Row)
    ensures SameSeries(a, b) ==> SameSeries(b, a)
    ensures SameSeries(a, b) && SameSeries(b, c) ==> SameSeries(a, c)
  {}

  /** `b` continues `a`: it has issued at least what `a` had, and an id of `a`'s that still resolves is the
      row `a` had, whoever owns it. */
  ghost predicate Continues(a: Mark, b: Mark) {
    && a.issued <= b.issued
    && (forall i :: i in a.issued && i in b.state.rows ==> i in a.state.rows && SameSeries(a.state.rows[i], b.state.rows[i]))
  }

  lemma ContinuesTransitive(a: Mark, b: Mark, c: Mark)
    requires Continues(a, b) && Continues(b, c)
    ensures Continues(a, c)
  {
    forall i | i in a.issued && i in c.state.rows
      ensures i in a.state.rows && SameSeries(a.state.rows[i], c.state.rows[i])
    {
      assert i in b.issued;
      SameSeriesOrder(a.state.rows[i], b.state.rows[i], c.state.rows[i]);
    }
  }

  function Now(m: Machine): Mark { Mark(m.state, m.issued) }

  /** Every step but a rollback continues what it started from. */
  lemma StepContinues(sha: Sha, known: set<Features>, m: Machine, step: Step)
    requires Inv(sha, known, m) && Runnable(step) && Uses(known, step) && !step.Rollback?
    ensures Continues(Now(m), Now(After(sha, m, step)))
  {
    var next := After(sha, m, step);
    StepKeeps(sha, known, m, step);
    IssuedGrows(sha, m, step);
    assert next.issued == m.issued + next.issued[|m.issued|..];
    forall i | i in m.issued && i in next.state.rows
      ensures i in m.state.rows && SameSeries(m.state.rows[i], next.state.rows[i])
    {
      NotAmongNew(next.issued, m.issued, next.issued[|m.issued|..], i);
      RowsAfter(sha, known, m, step, i);
    }
  }

  /** The live state continues what every open level would restore. */
  ghost predicate Stacked(m: Machine) {
    && (forall a, b :: 0 <= a < b < |m.marks| ==> Continues(m.marks[a], m.marks[b]))
    && (forall a :: 0 <= a < |m.marks| ==> Continues(m.marks[a], Now(m)))
  }

  lemma StepKeepsStacked(sha: Sha, known: set<Features>, m: Machine, step: Step)
    requires Inv(sha, known, m) && Runnable(step) && Uses(known, step) && Stacked(m)
    ensures Stacked(After(sha, m, step))
  {
    var next := After(sha, m, step);
    if !step.Rollback? {
      StepContinues(sha, known, m, step);
      forall a | 0 <= a < |m.marks|
        ensures Continues(m.marks[a], Now(next))
      {
        ContinuesTransitive(m.marks[a], Now(m), Now(next));
      }
      OtherMarks(sha, m, step);
    }
  }

  lemma OtherMarks(sha: Sha, m: Machine, step: Step)
    requires Runnable(step) && !step.Rollback?
    ensures After(sha, m, step).marks == if step.Begin? then m.marks + [Now(m)]
                                         else if step.Commit? && m.marks != [] then m.marks[..|m.marks| - 1] else m.marks
  {}

  lemma {:induction false} EveryRunIsStacked(sha: Sha, known: set<Features>, steps: seq<Step>)
    requires AllRunnable(steps) && AllUse(known, steps)
    ensures Stacked(Run(sha, FRESH, steps))
    decreases |steps|
  {
    if steps != [] {
      var n := |steps| - 1;
      EveryRunIsStacked(sha, known, steps[..n]);
      EveryRunIsSound(sha, known, steps[..n]);
      StepKeepsStacked(sha, known, Run(sha, FRESH, steps[..n]), steps[n]);
    }
  }

  /** Wherever `i` resolves or would be restored, it is the series `row`. */
  ghost predicate NamesOnly(m: Machine, i: int, row: Row) {
    && (i in m.state.rows ==> SameSeries(row, m.state.rows[i]))
    && (forall k :: 0 <= k < |m.marks| && i in m.marks[k].issued && i in m.marks[k].state.rows ==> SameSeries(row, m.marks[k].state.rows[i]))
  }

  lemma NamesOnlyStarts(m: Machine, i: int)
    requires Stacked(m) && i in m.state.rows
    ensures NamesOnly(m, i, m.state.rows[i])
  {
    forall k | 0 <= k < |m.marks| && i in m.marks[k].issued && i in m.marks[k].state.rows
      ensures SameSeries(m.state.rows[i], m.marks[k].state.rows[i])
    {
      assert Continues(m.marks[k], Now(m));
      SameSeriesOrder(m.marks[k].state.rows[i], m.state.rows[i], m.state.rows[i]);
    }
  }

  lemma NamesOnlyKeeps(sha: Sha, known: set<Features>, m: Machine, step: Step, i: int, row: Row)
    requires Inv(sha, known, m) && Runnable(step) && Uses(known, step) && NamesOnly(m, i, row)
    requires i in m.issued && i in After(sha, m, step).issued
    ensures NamesOnly(After(sha, m, step), i, row)
  {
    var next := After(sha, m, step);
    if !step.Rollback? {
      StepContinues(sha, known, m, step);
      OtherMarks(sha, m, step);
      if i in next.state.rows {
        SameSeriesOrder(row, m.state.rows[i], next.state.rows[i]);
      }
    }
  }

  /** From the prefix at `j` on, `i` is among the issued ids. */
  ghost predicate StaysIssued(sha: Sha, steps: seq<Step>, j: nat, i: int)
    requires AllRunnable(steps)
  {
    forall k :: j <= k <= |steps| ==> i in Run(sha, FRESH, steps[..k]).issued
  }

  lemma StaysIssuedBefore(sha: Sha, steps: seq<Step>, j: nat, i: int, n: nat)
    requires AllRunnable(steps) && j <= n <= |steps| && StaysIssued(sha, steps, j, i)
    ensures StaysIssued(sha, steps[..n], j, i)
    ensures i in Run(sha, FRESH, steps[..n]).issued && i in Run(sha, FRESH, steps).issued
  {
    WholePrefix(steps);
    forall k | j <= k <= n
      ensures i in Run(sha, FRESH, steps[..n][..k]).issued
    {
      PrefixOfPrefix(steps, n, k);
    }
  }

  lemma {:induction false} StaysNamed(sha: Sha, known: set<Features>, steps: seq<Step>, j: nat, i: int, row: Row)
    requires AllRunnable(steps) && AllUse(known, steps) && j <= |steps| && StaysIssued(sha, steps, j, i)
    requires i in Run(sha, FRESH, steps[..j]).state.rows && row == Run(sha, FRESH, steps[..j]).state.rows[i]
    ensures NamesOnly(Run(sha, FRESH, steps), i, row)
    decreases |steps|
  {
    if j == |steps| {
      WholePrefix(steps);
      EveryRunIsStacked(sha, known, steps);
      NamesOnlyStarts(Run(sha, FRESH, steps), i);
    } else {
      var n := |steps| - 1;
      StaysIssuedBefore(sha, steps, j, i, n);
      PrefixOfPrefix(steps, n, j);
      StaysNamed(sha, known, steps[..n], j, i, row);
      LastStepKeepsName(sha, known, steps, n, i, row);
    }
  }

  lemma LastStepKeepsName(sha: Sha, known: set<Features>, steps: seq<Step>, n: nat, i: int, row: Row)
    requires AllRunnable(steps) && AllUse(known, steps) && n + 1 == |steps|
    requires NamesOnly(Run(sha, FRESH, steps[..n]), i, row)
    requires i in Run(sha, FRESH, steps[..n]).issued && i in Run(sha, FRESH, steps).issued
    ensures NamesOnly(Run(sha, FRESH, steps), i, row)
  {
    EveryRunIsSound(sha, known, steps[..n]);
    NamesOnlyKeeps(sha, known, Run(sha, FRESH, steps[..n]), steps[n], i, row);
  }

  /** An id that stays issued names one series for good: whenever it resolves again, after whatever
      deletions, moves and rollbacks of anything else, it is the same row but for its owner. */
  lemma IdNamesOneSeries(sha: Sha, known: set<Features>, steps: seq<Step>, j: nat, i: int)
    requires AllRunnable(steps) && AllUse(known, steps) && j <= |steps| && StaysIssued(sha, steps, j, i)
    requires i in Run(sha, FRESH, steps[..j]).state.rows
    ensures i in Run(sha, FRESH, steps).state.rows
            ==> SameSeries(Run(sha, FRESH, steps[..j]).state.rows[i], Run(sha, FRESH, steps).state.rows[i])
  {
    StaysNamed(sha, known, steps, j, i, Run(sha, FRESH, steps[..j]).state.rows[i]);
  }

  // ---- exactly when an id is handed out again ------------------------------------------------------

  /** The next `n` ids a state assigns. */
  function NextIds(s: State, n: nat): (r: seq<int>)
    ensures |r| == n
  {
    seq(n, k => s.highWater + 1 + k)
  }

  /** What a step hands out if it succeeds, known before it is called. */
  function WouldHand(m: Machine, step: Step): seq<int> {
    match step
    case Add(rows, _) => NextIds(m.state, |rows|)
    case Derive(views, _) => NextIds(m.state, |views|)
    case Import(rows, _) =>
      var ids := ExplicitIds(Only(rows, false) + Only(rows, true));
      if ids == [] then NextIds(m.state, |rows|) else ids
    case _ => []
  }

  predicate NoIds(ms: seq<TimeSeriesMetadata>) { forall k :: 0 <= k < |ms| ==> ms[k].id.None? }
  predicate AllIds(ms: seq<TimeSeriesMetadata>) { forall k :: 0 <= k < |ms| ==> ms[k].id.Some? }

  lemma NextIdsPush(ids: seq<int>, s: State, n: nat)
    ensures (ids + NextIds(s, n)) + [s.highWater + n + 1] == ids + NextIds(s, n + 1)
  {
    assert NextIds(s, n) + [s.highWater + n + 1] == NextIds(s, n + 1);
  }

  lemma AssignedOne(sha: Sha, b: Batch, m: TimeSeriesMetadata, fault: nat, mode: Mode)
    requires WithinWords(m) && m.id.None? && b.error.None?
    ensures var after := AddOne(sha, b, m, fault, mode, true);
      after.error.None? ==> after.ids == b.ids + [b.state.highWater + 1] && after.state.highWater == b.state.highWater + 1
  {}

  /** `after` handed out the `n` next ids of `b`, or failed. */
  predicate HandsNext(b: Batch, after: Batch, n: nat) {
    after.error.None? ==> after.ids == b.ids + NextIds(b.state, n) && after.state.highWater == b.state.highWater + n
  }

  lemma HandsOneMore(sha: Sha, b: Batch, before: Batch, n: nat, m: TimeSeriesMetadata, fault: nat, mode: Mode)
    requires WithinWords(m) && m.id.None? && HandsNext(b, before, n)
    ensures HandsNext(b, AddOne(sha, before, m, fault, mode, true), n + 1)
  {
    if before.error.None? {
      AssignedOne(sha, before, m, fault, mode);
      NextIdsPush(b.ids, b.state, n);
    }
  }

  lemma {:induction false} AssignedBatch(sha: Sha, b: Batch, ms: seq<TimeSeriesMetadata>, faults: seq<nat>, mode: Mode)
    requires |faults| == |ms| && AllWithinWords(ms) && NoIds(ms)
    ensures HandsNext(b, AddAll(sha, b, ms, faults, mode, true), |ms|)
    decreases |ms|
  {
    if ms != [] {
      var n := |ms| - 1;
      AssignedBatch(sha, b, ms[..n], faults[..n], mode);
      HandsOneMore(sha, b, AddAll(sha, b, ms[..n], faults[..n], mode, true), n, ms[n], faults[n], mode);
    } else {
      assert b.ids + NextIds(b.state, 0) == b.ids;
    }
  }

  lemma {:induction false} ExplicitIdsPush(ms: seq<TimeSeriesMetadata>, last: TimeSeriesMetadata)
    ensures ExplicitIds(ms + [last]) == ExplicitIds(ms) + (if last.id.Some? then [last.id.value] else [])
  {
    if ms == [] {
      assert ms + [last] == [last] && [last][1..] == [];
    } else {
      assert (ms + [last])[1..] == ms[1..] + [last];
      ExplicitIdsPush(ms[1..], last);
    }
  }

  lemma ExplicitOne(sha: Sha, b: Batch, m: TimeSeriesMetadata, fault: nat, mode: Mode)
    requires WithinWords(m) && m.id.Some? && b.error.None?
    ensures var after := AddOne(sha, b, m, fault, mode, true);
      after.error.None? ==> after.ids == b.ids + [m.id.value]
  {}

  predicate HandsListed(b: Batch, after: Batch, ms: seq<TimeSeriesMetadata>) {
    after.error.None? ==> after.ids == b.ids + ExplicitIds(ms)
  }

  lemma HandsListedOne(sha: Sha, b: Batch, before: Batch, ms: seq<TimeSeriesMetadata>, m: TimeSeriesMetadata, fault: nat, mode: Mode)
    requires WithinWords(m) && m.id.Some? && HandsListed(b, before, ms)
    ensures HandsListed(b, AddOne(sha, before, m, fault, mode, true), ms + [m])
  {
    if before.error.None? {
      ExplicitOne(sha, before, m, fault, mode);
      ExplicitIdsPush(ms, m);
      assert (b.ids + ExplicitIds(ms)) + [m.id.value] == b.ids + (ExplicitIds(ms) + [m.id.value]);
    }
  }

  lemma {:induction false} ExplicitBatch(sha: Sha, b: Batch, ms: seq<TimeSeriesMetadata>, faults: seq<nat>, mode: Mode)
    requires |faults| == |ms| && AllWithinWords(ms) && AllIds(ms)
    ensures HandsListed(b, AddAll(sha, b, ms, faults, mode, true), ms)
    decreases |ms|
  {
    if ms != [] {
      var n := |ms| - 1;
      ExplicitBatch(sha, b, ms[..n], faults[..n], mode);
      HandsListedOne(sha, b, AddAll(sha, b, ms[..n], faults[..n], mode, true), ms[..n], ms[n], faults[n], mode);
      assert ms == ms[..n] + [ms[n]];
    } else {
      assert b.ids + [] == b.ids;
    }
  }

  lemma {:induction false} CountExplicit(ms: seq<TimeSeriesMetadata>)
    ensures |ExplicitIds(ms)| <= |ms|
    ensures |ExplicitIds(ms)| == |ms| <==> AllIds(ms)
    ensures ExplicitIds(ms) == [] <==> NoIds(ms)
  {
    if ms != [] {
      CountExplicit(ms[1..]);
      assert ms == [ms[0]] + ms[1..];
      assert AllIds(ms) <==> ms[0].id.Some? && AllIds(ms[1..]);
      assert NoIds(ms) <==> ms[0].id.None? && NoIds(ms[1..]);
    }
  }

  /** A step hands out all of that or nothing. */
  lemma AllOrNothing(sha: Sha, m: Machine, step: Step)
    requires Runnable(step)
    ensures Handed(sha, m, step) == WouldHand(m, step) || Handed(sha, m, step) == []
  {
    var s := m.state;
    match step
    case Add(rows, faults) =>
      AssignedBatch(sha, Start(s, if m.marks == [] then {} else m.cache), WithoutIds(rows), faults, Adding);
    case Derive(views, faults) =>
      AssignedBatch(sha, Start(s, {}), WithoutIds(views), faults, Deriving);
    case Import(rows, faults) =>
      OnlySplits(rows);
      var ordered := Only(rows, false) + Only(rows, true);
      CountExplicit(ordered);
      if ExplicitIds(ordered) == [] {
        AssignedBatch(sha, Start(s, {}), ordered, faults, Importing);
      } else if AllIds(ordered) {
        ExplicitBatch(sha, Start(s, {}), ordered, faults, Importing);
      }
    case _ =>
  }

  predicate Meets(ids: seq<int>, log: seq<int>) { exists k :: 0 <= k < |ids| && ids[k] in log }

  /** A successful add of `n` rows hands out a logged id exactly when some logged id is one of the `n` next
      above the mark; a transform likewise. */
  lemma AddReissuesExactly(sha: Sha, m: Machine, step: Step, log: seq<int>)
    requires Runnable(step) && (step.Add? || step.Derive?) && Handed(sha, m, step) != []
    ensures var n := if step.Add? then |step.rows| else |step.views|;
      Meets(Handed(sha, m, step), log) <==> LogsNext(m.state, n, log)
  {
    AllOrNothing(sha, m, step);
    NextIdsMeet(m.state, if step.Add? then |step.rows| else |step.views|, log);
  }

  predicate LogsNext(s: State, n: nat, log: seq<int>) {
    exists id :: id in log && s.highWater < id <= s.highWater + n
  }

  lemma NextIdsMeet(s: State, n: nat, log: seq<int>)
    ensures Meets(NextIds(s, n), log) <==> LogsNext(s, n, log)
  {
    var ids := NextIds(s, n);
    if id :| id in log && s.highWater < id <= s.highWater + n {
      assert ids[id - s.highWater - 1] == id;
    }
  }

  /** Some listed id is in the log. */
  predicate LogsListed(rows: seq<TimeSeriesMetadata>, log: seq<int>) {
    exists k :: 0 <= k < |rows| && rows[k].id.Some? && rows[k].id.value in log
  }

  lemma ListedIdsMeet(rows: seq<TimeSeriesMetadata>, log: seq<int>)
    ensures Meets(ExplicitIds(Only(rows, false) + Only(rows, true)), log) <==> LogsListed(rows, log)
  {
    var ordered := Only(rows, false) + Only(rows, true);
    var ids := ExplicitIds(ordered);
    SplitMembers(rows);
    ExplicitMeans(ordered);
    if LogsListed(rows, log) {
      var k :| 0 <= k < |rows| && rows[k].id.Some? && rows[k].id.value in log;
      assert rows[k] in rows && rows[k] in ordered;
      var j :| 0 <= j < |ordered| && ordered[j] == rows[k];
      ExplicitIdIsListed(ordered, j);
    }
    if Meets(ids, log) {
      var k :| 0 <= k < |ids| && ids[k] in log;
      var id := ids[k];
      assert id in ids;
      var j :| 0 <= j < |ordered| && ordered[j].id == Some(id);
      assert ordered[j] in ordered && ordered[j] in rows;
      var l :| 0 <= l < |rows| && rows[l] == ordered[j];
    }
  }

  /** A successful import of explicit ids hands out a logged id exactly when it lists one; every id it lists
      is above the mark. One with no ids is an add. */
  lemma ImportReissuesExactly(sha: Sha, m: Machine, rows: seq<TimeSeriesMetadata>, faults: seq<nat>, log: seq<int>)
    requires Runnable(Import(rows, faults)) && Handed(sha, m, Import(rows, faults)) != []
    ensures NoIds(rows) || AllIds(rows)
    ensures Meets(Handed(sha, m, Import(rows, faults)), log)
            <==> if NoIds(rows) then LogsNext(m.state, |rows|, log) else LogsListed(rows, log)
    ensures AllIds(rows) ==> forall k :: 0 <= k < |rows| ==> rows[k].id.value > m.state.highWater
  {
    AllOrNothing(sha, m, Import(rows, faults));
    var ordered := Only(rows, false) + Only(rows, true);
    CountExplicit(ordered);
    OnlySplits(rows);
    OnlyKeeps(rows);
    NextIdsMeet(m.state, |rows|, log);
    ListedIdsMeet(rows, log);
    if AllIds(rows) {
      forall k | 0 <= k < |rows|
        ensures rows[k].id.value > m.state.highWater
      {
        assert rows[k] in ordered;
        var j :| 0 <= j < |ordered| && ordered[j] == rows[k];
        ExplicitIdIsListed(ordered, j);
      }
    }
  }

  /** Views last loses no row. */
  lemma {:induction false} OnlyKeeps(ms: seq<TimeSeriesMetadata>)
    ensures forall x :: x in ms ==> x in Only(ms, false) + Only(ms, true)
    ensures NoIds(ms) <==> NoIds(Only(ms, false) + Only(ms, true))
    ensures AllIds(ms) <==> AllIds(Only(ms, false) + Only(ms, true))
  {
    SplitMembers(ms);
    var ordered := Only(ms, false) + Only(ms, true);
    assert forall k :: 0 <= k < |ms| ==> ms[k] in ms && ms[k] in ordered;
    assert forall k :: 0 <= k < |ordered| ==> ordered[k] in ordered && ordered[k] in ms;
  }

  lemma {:induction false} SplitMembers(ms: seq<TimeSeriesMetadata>)
    ensures forall x :: x in ms <==> x in Only(ms, false) || x in Only(ms, true)
  {
    if ms != [] {
      SplitMembers(ms[1..]);
      assert ms == [ms[0]] + ms[1..];
    }
  }

  lemma {:induction false} ExplicitMeans(ms: seq<TimeSeriesMetadata>)
    ensures forall id :: id in ExplicitIds(ms) ==> exists j :: 0 <= j < |ms| && ms[j].id == Some(id)
  {
    if ms != [] {
      ExplicitMeans(ms[1..]);
      forall id | id in ExplicitIds(ms)
        ensures exists j :: 0 <= j < |ms| && ms[j].id == Some(id)
      {
        if id in ExplicitIds(ms[1..]) {
          var j :| 0 <= j < |ms[1..]| && ms[1..][j].id == Some(id);
          assert ms[j + 1].id == Some(id);
        }
      }
    }
  }

  /** The step succeeds, and its ids, fixed before it is called, meet the log so far. */
  predicate Reissues(sha: Sha, m: Machine, step: Step, log: seq<int>)
    requires Runnable(step)
  {
    Handed(sha, m, step) != [] && Meets(WouldHand(m, step), log)
  }

  /** No step of the run does. */
  predicate NeverReissues(sha: Sha, steps: seq<Step>)
    requires AllRunnable(steps)
    decreases |steps|
  {
    steps == [] ||
    var n := |steps| - 1;
    NeverReissues(sha, steps[..n]) && !Reissues(sha, Run(sha, FRESH, steps[..n]), steps[n], Log(sha, FRESH, steps[..n]))
  }

  lemma LogStep(sha: Sha, known: set<Features>, m: Machine, step: Step, log: seq<int>)
    requires Inv(sha, known, m) && Runnable(step) && Uses(known, step)
    ensures Distinct(log + Handed(sha, m, step)) <==> Distinct(log) && !Reissues(sha, m, step, log)
  {
    StepKeeps(sha, known, m, step);
    HandedDistinct(sha, known, m, step);
    AllOrNothing(sha, m, step);
    DistinctConcat(log, Handed(sha, m, step));
  }

  /** Over every run: the whole log is free of repeats exactly when no step's ids meet the log before it. */
  lemma {:induction false} LogDistinctExactly(sha: Sha, known: set<Features>, steps: seq<Step>)
    requires AllRunnable(steps) && AllUse(known, steps)
    ensures Distinct(Log(sha, FRESH, steps)) <==> NeverReissues(sha, steps)
    decreases |steps|
  {
    if steps != [] {
      var n := |steps| - 1;
      LogDistinctExactly(sha, known, steps[..n]);
      EveryRunIsSound(sha, known, steps[..n]);
      LogStep(sha, known, Run(sha, FRESH, steps[..n]), steps[n], Log(sha, FRESH, steps[..n]));
    }
  }

  lemma HandedDistinct(sha: Sha, known: set<Features>, m: Machine, step: Step)
    requires Runnable(step) && Inv(sha, known, After(sha, m, step))
    ensures Distinct(Handed(sha, m, step))
  {
    if !step.Rollback? {
      IssuedGrows(sha, m, step);
      var all, ids := After(sha, m, step).issued, Handed(sha, m, step);
      assert forall i :: 0 <= i < |ids| ==> ids[i] == all[|m.issued| + i];
    }
  }

  lemma DistinctConcat(a: seq<int>, b: seq<int>)
    requires Distinct(b)
    ensures Distinct(a + b) <==> Distinct(a) && !Meets(b, a)
  {
    var all := a + b;
    if Distinct(all) {
      assert forall i :: 0 <= i < |a| ==> a[i] == all[i];
      forall k | 0 <= k < |b|
        ensures b[k] !in a
      {
        assert all[|a| + k] == b[k];
      }
    }
    if Distinct(a) && !Meets(b, a) {
      assert forall k :: 0 <= k < |b| ==> b[k] !in a;
      assert forall i :: 0 <= i < |a| ==> a[i] in a;
    }
  }
}
