// Running a step function along a sequence, with a state and early failure.
module Runs {
  import opened Wrappers

  /** The outputs of every step and the state after the last, or `None` from the first step that fails. */
  function RunSteps<A, S, R>(step: (A, S) -> Option<(R, S)>, inputs: seq<A>, state: S): Option<(seq<R>, S)>
    decreases |inputs|
  {
    if inputs == [] then Some(([], state))
    else
      var first := step(inputs[0], state);
      if first.None? then None
      else
        var rest := RunSteps(step, inputs[1..], first.value.1);
        if rest.None? then None else Some(([first.value.0] + rest.value.0, rest.value.1))
  }

  lemma {:induction false} RunStepsAppend<A, S, R>(step: (A, S) -> Option<(R, S)>, a: seq<A>, b: seq<A>, state: S)
    ensures RunSteps(step, a + b, state)
            == var first := RunSteps(step, a, state);
               if first.None? then None
               else
                 var rest := RunSteps(step, b, first.value.1);
                 if rest.None? then None else Some((first.value.0 + rest.value.0, rest.value.1))
    decreases |a|
  {
    if a == [] {
      assert a + b == b;
      var rest := RunSteps(step, b, state);
      assert rest.Some? ==> [] + rest.value.0 == rest.value.0;
    } else {
      assert (a + b)[1..] == a[1..] + b;
      var first := step(a[0], state);
      if first.Some? {
        RunStepsAppend(step, a[1..], b, first.value.1);
        var mid := RunSteps(step, a[1..], first.value.1);
        if mid.Some? {
          var rest := RunSteps(step, b, mid.value.1);
          if rest.Some? {
            assert [first.value.0] + (mid.value.0 + rest.value.0) == [first.value.0] + mid.value.0 + rest.value.0;
          }
        }
      }
    }
  }

  lemma {:induction false} RunStepsSnoc<A, S, R>(step: (A, S) -> Option<(R, S)>, a: seq<A>, last: A, state: S)
    ensures RunSteps(step, a + [last], state)
            == var first := RunSteps(step, a, state);
               if first.None? then None
               else
                 var next := step(last, first.value.1);
                 if next.None? then None else Some((first.value.0 + [next.value.0], next.value.1))
  {
    RunStepsAppend(step, a, [last], state);
    var first := RunSteps(step, a, state);
    if first.Some? {
      var next := step(last, first.value.1);
      var none: seq<A> := [last][1..];
      assert none == [] && [last][0] == last;
      assert next.Some? ==> RunSteps(step, none, next.value.1) == Some(([], next.value.1));
      assert next.Some? ==> [next.value.0] + [] == [next.value.0];
      assert next.Some? ==> RunSteps(step, [last], first.value.1) == Some(([next.value.0], next.value.1));
    }
  }

  /** One iteration of a loop that keeps the run of the inputs read so far. */
  lemma {:induction false} RunStepsNext<A, S, R>(step: (A, S) -> Option<(R, S)>, inputs: seq<A>, i: nat, state: S,
                                                 outputs: seq<R>, now: S)
    requires i < |inputs|
    requires RunSteps(step, inputs[..i], state) == Some((outputs, now))
    ensures step(inputs[i], now).None? ==> RunSteps(step, inputs, state).None?
    ensures step(inputs[i], now).Some? ==>
              RunSteps(step, inputs[..i + 1], state)
              == Some((outputs + [step(inputs[i], now).value.0], step(inputs[i], now).value.1))
  {
    assert inputs[..i + 1] == inputs[..i] + [inputs[i]];
    assert inputs == inputs[..i + 1] + inputs[i + 1..];
    RunStepsSnoc(step, inputs[..i], inputs[i], state);
    RunStepsAppend(step, inputs[..i + 1], inputs[i + 1..], state);
  }

  lemma {:induction false} RunStepsLength<A, S, R>(step: (A, S) -> Option<(R, S)>, inputs: seq<A>, state: S)
    ensures RunSteps(step, inputs, state).Some? ==> |RunSteps(step, inputs, state).value.0| == |inputs|
    decreases |inputs|
  {
    if inputs != [] {
      var first := step(inputs[0], state);
      if first.Some? {
        RunStepsLength(step, inputs[1..], first.value.1);
      }
    }
  }

  lemma {:induction false} RunStepsCons<A, S, R>(step: (A, S) -> Option<(R, S)>, first: A, rest: seq<A>, state: S,
                              output: R, mid: S, outputs: seq<R>, end: S)
    requires step(first, state) == Some((output, mid))
    requires RunSteps(step, rest, mid) == Some((outputs, end))
    ensures RunSteps(step, [first] + rest, state) == Some(([output] + outputs, end))
  {
    assert ([first] + rest)[1..] == rest;
  }

  /** Each output comes from a step on its own input, in some state. */
  lemma {:induction false} RunStepsAt<A, S, R>(step: (A, S) -> Option<(R, S)>, inputs: seq<A>, state: S,
                                               i: nat) returns (at: S)
    requires RunSteps(step, inputs, state).Some? && i < |inputs|
    ensures |RunSteps(step, inputs, state).value.0| == |inputs|
    ensures step(inputs[i], at).Some?
    ensures RunSteps(step, inputs, state).value.0[i] == step(inputs[i], at).value.0
    decreases |inputs|
  {
    RunStepsLength(step, inputs, state);
    if i == 0 {
      at := state;
    } else {
      at := RunStepsAt(step, inputs[1..], step(inputs[0], state).value.1, i - 1);
    }
  }
}
