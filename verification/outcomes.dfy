/** Success/failure carriers shared by the whole model, and the fail-fast
    fold behind the script's loops over hub names and over ports. */
module Outcomes {

  datatype Option<+T> = None | Some(value: T)

  /** A computation that yields a value or raises an error. */
  datatype Result<+T, +E> = Ok(value: T) | Err(error: E)

  /** A check that passes or fails with an error; it carries no value. */
  datatype Outcome<+E> = Pass | Fail(error: E)

  /** Where a fail-fast run over a sequence of checks stopped. */
  datatype Stop<+E> = Completed | StoppedAt(index: nat, error: E)

  /** Runs `check` on the elements of `xs` in order and stops at the first
      failure, the way a `for` loop whose body raises does. */
  function FirstFailure<T, E>(xs: seq<T>, check: T -> Outcome<E>): (r: Stop<E>)
    ensures r.Completed? <==> forall i :: 0 <= i < |xs| ==> check(xs[i]).Pass?
    ensures r.StoppedAt? ==>
              && r.index < |xs|
              && check(xs[r.index]) == Fail(r.error)
              && forall j :: 0 <= j < r.index ==> check(xs[j]).Pass?
    decreases |xs|
  {
    if |xs| == 0 then Completed
    else if check(xs[0]).Fail? then StoppedAt(0, check(xs[0]).error)
    else
      match FirstFailure(xs[1..], check)
      case Completed => Completed
      case StoppedAt(i, e) => StoppedAt(i + 1, e)
  }

  /** The run stops at the first failing element, with that element's
      error. */
  lemma {:induction false} FirstFailureAt<T, E>(xs: seq<T>, check: T -> Outcome<E>, i: nat)
    requires i < |xs| && check(xs[i]).Fail?
    requires forall j :: 0 <= j < i ==> check(xs[j]).Pass?
    ensures FirstFailure(xs, check) == StoppedAt(i, check(xs[i]).error)
    decreases i
  {
    if i > 0 {
      assert check(xs[0]).Pass?;
      assert forall j :: 0 <= j < i - 1 ==> xs[1..][j] == xs[j + 1];
      FirstFailureAt(xs[1..], check, i - 1);
    }
  }

  /** No element of `xs` satisfies `bad`. */
  predicate NoneOf<T>(xs: seq<T>, bad: T -> bool) {
    forall i :: 0 <= i < |xs| ==> !bad(xs[i])
  }

  /** `NoneOf` read from the last element back. */
  lemma NoneOfSnoc<T>(xs: seq<T>, bad: T -> bool)
    requires |xs| > 0
    ensures NoneOf(xs, bad) <==> NoneOf(xs[..|xs| - 1], bad) && !bad(xs[|xs| - 1])
  {
    var init := xs[..|xs| - 1];
    assert forall j :: 0 <= j < |init| ==> init[j] == xs[j];
  }
}
