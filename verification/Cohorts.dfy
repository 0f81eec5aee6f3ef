/** The one spelling a reader's shared axis can carry (reader.rs, cohort_time_reference). */
module Cohorts {
  import opened Wrappers
  import opened Metadata

  function References(rows: seq<TimeSeriesMetadata>): set<Option<TimeReference>> {
    set i | 0 <= i < |rows| :: rows[i].timeReference
  }

  /** What the cohort's spelling is, as a fact about which references occur: agreement gives
      that reference, zoneless tolerates no company, any other mix is spelled as UTC. */
  ghost function CohortSpelling(refs: set<Option<TimeReference>>): Result<Option<TimeReference>> {
    if refs == {} then Ok(None)
    else if exists x :: refs == {x} then
      var x :| refs == {x};
      Ok(x)
    else if Some(Zoneless) in refs then Err(InvalidParameter)
    else Ok(Some(Utc))
  }

  method CohortTimeReference(rows: seq<TimeSeriesMetadata>) returns (r: Result<Option<TimeReference>>)
    ensures r == CohortSpelling(References(rows))
  {
    var zoneless, zoned, uniform := false, false, true;
    var first: Option<Option<TimeReference>> := None;
    var i := 0;
    while i < |rows|
      invariant 0 <= i <= |rows|
      invariant zoneless <==> Some(Zoneless) in References(rows[..i])
      invariant zoned <==> exists x :: x in References(rows[..i]) && x != Some(Zoneless)
      invariant first == if i == 0 then None else Some(rows[0].timeReference)
      invariant uniform <==> forall k :: 0 <= k < i ==> rows[k].timeReference == rows[0].timeReference
    {
      assert References(rows[..i + 1]) == References(rows[..i]) + {rows[i].timeReference} by {
        assert rows[..i + 1] == rows[..i] + [rows[i]];
      }
      if rows[i].timeReference == Some(Zoneless) {
        zoneless := true;
      } else {
        zoned := true;
      }
      match first {
        case None => first := Some(rows[i].timeReference);
        case Some(f) => uniform := uniform && f == rows[i].timeReference;
      }
      i := i + 1;
    }
    assert rows[..i] == rows;
    ghost var refs := References(rows);
    if rows != [] {
      assert rows[0].timeReference in refs;
      if uniform {
        assert refs == {rows[0].timeReference};
      }
    }
    if zoneless && zoned {
      ghost var x :| x in refs && x != Some(Zoneless);
      assert forall y :: refs != {y};
      return Err(InvalidParameter);
    }
    if uniform {
      return Ok(if first.Some? then first.value else None);
    }
    ghost var k :| 0 <= k < |rows| && rows[k].timeReference != rows[0].timeReference;
    assert rows[k].timeReference in refs;
    assert forall y :: refs != {y};
    return Ok(Some(Utc));
  }
}
