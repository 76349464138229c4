/** The fail-fast discipline of the precondition layer, stated once: a list of
    steps is run in order and the outcome is that of the first step that fails. */
module FailFast {
  import opened Wrappers

  /** Step `i` is the first failing one of `steps`. */
  ghost predicate FailsFirstAt<E>(steps: seq<Outcome<E>>, i: int) {
    && 0 <= i < |steps|
    && steps[i].Fail?
    && forall j | 0 <= j < i :: steps[j].Pass?
  }

  /** The outcome of running `steps` in order, stopping at the first failure. */
  function FirstFailure<E>(steps: seq<Outcome<E>>): (r: Outcome<E>)
    ensures r.Pass? <==> forall i | 0 <= i < |steps| :: steps[i].Pass?
    ensures r.Fail? ==> exists i :: FailsFirstAt(steps, i) && r == steps[i]
  {
    if |steps| == 0 then Pass
    else if steps[0].Fail? then
      assert FailsFirstAt(steps, 0);
      steps[0]
    else
      var r := FirstFailure(steps[1..]);
      assert r.Fail? ==> exists i :: FailsFirstAt(steps, i) && r == steps[i] by {
        if r.Fail? {
          var i :| FailsFirstAt(steps[1..], i) && r == steps[1..][i];
          assert FailsFirstAt(steps, i + 1);
        }
      }
      r
  }

  /** At most one step is the first failing one. */
  lemma FirstFailingIndexUnique<E>(steps: seq<Outcome<E>>, i: int, j: int)
    requires FailsFirstAt(steps, i) && FailsFirstAt(steps, j)
    ensures i == j
  {
  }

  /** When step `i` is the first to fail, its error is the one reported. */
  lemma FirstFailureAt<E>(steps: seq<Outcome<E>>, i: int)
    requires FailsFirstAt(steps, i)
    ensures FirstFailure(steps) == steps[i]
  {
    var r := FirstFailure(steps);
    assert r.Fail?;
    var k :| FailsFirstAt(steps, k) && r == steps[k];
    FirstFailingIndexUnique(steps, i, k);
  }
}
