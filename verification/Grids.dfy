/** Regular grids `initial + k * step` (reader.rs, index_on_grid / timestamp_on_grid). */
module Grids {
  import opened Wrappers
  import opened Arrays
  import opened Metadata

  /** The index of `at` on the grid; never clamped. A single-point grid may carry a zero step. */
  function IndexOnGrid(initial: Instant, step: Period, len: nat, at: Instant): Result<nat> {
    if step.IsZero() && len == 1 then
      if at == initial then Ok(0) else Err(InvalidParameter)
    else
      var idx :- step.StepsBetween(initial, at);
      if idx >= len then Err(InvalidParameter) else Ok(idx)
  }

  function TimestampOnGrid(initial: Instant, step: Period, len: nat, index: nat): Result<Instant> {
    if index >= len then Err(InvalidParameter) else Ok(step.AddTo(initial, index))
  }

  lemma IndexInRange(initial: Instant, step: Period, len: nat, at: Instant)
    ensures IndexOnGrid(initial, step, len, at).Ok? ==> IndexOnGrid(initial, step, len, at).value < len
  {}

  /** A grid whose points are distinct: a positive step, or the single-point zero-step grid. */
  predicate Steppable(step: Period, len: nat) {
    step.ms > 0 || (step.ms == 0 && len == 1)
  }

  lemma ExactSteps(initial: Instant, step: Period, k: nat)
    requires step.ms > 0
    ensures step.StepsBetween(initial, initial + k * step.ms) == Ok(k)
  {
    var d := k * step.ms;
    assert d % step.ms == 0 && d / step.ms == k by {
      ModOfMultiple(k, step.ms);
    }
    assert d >= 0;
  }

  /** A whole number of steps is found exactly when the instant is that many steps on; a step that is not
      positive finds none. */
  lemma StepsExactly(start: Instant, step: Period, at: Instant)
    ensures step.StepsBetween(start, at).Ok? <==> step.ms > 0 && exists k: nat :: at == step.AddTo(start, k)
    ensures step.StepsBetween(start, at).Ok? ==> at == step.AddTo(start, step.StepsBetween(start, at).value)
  {
    if step.StepsBetween(start, at).Ok? {
      var k := step.StepsBetween(start, at).value;
      assert at - start == k * step.ms + (at - start) % step.ms;
      assert at == step.AddTo(start, k);
    }
    if step.ms > 0 {
      forall k: nat | at == step.AddTo(start, k)
        ensures step.StepsBetween(start, at) == Ok(k)
      {
        ExactSteps(start, step, k);
      }
    }
  }

  lemma ModOfMultiple(k: nat, m: int)
    requires m > 0
    ensures (k * m) % m == 0 && (k * m) / m == k
  {
    DivUnique(k * m, m, k);
  }

  /** On a steppable grid the two directions are inverse: an index resolves to an instant
      exactly when that instant resolves to the index. */
  lemma GridInverse(initial: Instant, step: Period, len: nat, k: nat, at: Instant)
    requires Steppable(step, len)
    ensures IndexOnGrid(initial, step, len, at) == Ok(k) <==> TimestampOnGrid(initial, step, len, k) == Ok(at)
  {
    if step.ms > 0 {
      ExactSteps(initial, step, k);
      if IndexOnGrid(initial, step, len, at) == Ok(k) {
        assert (at - initial) % step.ms == 0 && (at - initial) / step.ms == k;
        assert at - initial == k * step.ms;
      }
    }
  }

  /** Off the steppable grids no index survives the round trip, though every index in range
      still resolves to an instant. */
  lemma GridInverseExactly(initial: Instant, step: Period, len: nat, k: nat)
    requires k < len
    ensures TimestampOnGrid(initial, step, len, k).Ok?
    ensures IndexOnGrid(initial, step, len, TimestampOnGrid(initial, step, len, k).value) == Ok(k) <==> Steppable(step, len)
  {
    if Steppable(step, len) {
      GridInverse(initial, step, len, k, step.AddTo(initial, k));
    }
  }
}
