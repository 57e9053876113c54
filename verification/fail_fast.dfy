/** The abort-all loop shared by the fetch, analyse and publish stages: walk the
    inputs in order, hand each one and its index to an external step, and stop at
    the first step that fails (main.go:136-158, 165-211, 231-250). */
module FailFast {
  import opened Wrappers

  /** The outputs of every step, in input order, or the error of the first failing step. */
  function Traverse<A, B, E>(xs: seq<A>, step: (nat, A) -> Result<B, E>): Result<seq<B>, E>
    decreases |xs|
  {
    if xs == [] then Success([])
    else
      var n := |xs| - 1;
      match Traverse(xs[..n], step)
      case Failure(e) => Failure(e)
      case Success(done) =>
        match step(n, xs[n])
        case Failure(e) => Failure(e)
        case Success(y) => Success(done + [y])
  }

  /** The index of the first input whose step fails, or |xs| when none does. */
  function FirstFailure<A, B, E>(xs: seq<A>, step: (nat, A) -> Result<B, E>): (k: nat)
    ensures k <= |xs|
    decreases |xs|
  {
    if xs == [] then 0
    else
      var n := |xs| - 1;
      var k := FirstFailure(xs[..n], step);
      if k < n then k
      else if step(n, xs[n]).Failure? then n
      else |xs|
  }

  /** How many steps are taken: all of them, or up to and including the first failing one. */
  function Attempts<A, B, E>(xs: seq<A>, step: (nat, A) -> Result<B, E>): nat {
    var k := FirstFailure(xs, step);
    if k < |xs| then k + 1 else |xs|
  }

  /** FirstFailure finds the first failing step: every step before it succeeds. */
  lemma {:induction false} FirstFailureIsFirst<A, B, E>(xs: seq<A>, step: (nat, A) -> Result<B, E>)
    ensures forall i :: 0 <= i < FirstFailure(xs, step) ==> step(i, xs[i]).Success?
    ensures FirstFailure(xs, step) < |xs| ==> step(FirstFailure(xs, step), xs[FirstFailure(xs, step)]).Failure?
    decreases |xs|
  {
    if xs != [] {
      var n := |xs| - 1;
      FirstFailureIsFirst(xs[..n], step);
      assert forall i :: 0 <= i < n ==> xs[..n][i] == xs[i];
    }
  }

  /** The traversal fails exactly where the first failing step is, with that step's error;
      otherwise it returns one output per input, each the output of its own step. */
  lemma {:induction false} TraverseMeaning<A, B, E>(xs: seq<A>, step: (nat, A) -> Result<B, E>)
    ensures var k := FirstFailure(xs, step);
      match Traverse(xs, step)
      case Success(ys) =>
        && k == |xs| && |ys| == |xs|
        && forall i :: 0 <= i < |xs| ==> step(i, xs[i]) == Success(ys[i])
      case Failure(e) =>
        k < |xs| && step(k, xs[k]) == Failure(e)
    decreases |xs|
  {
    if xs != [] {
      var n := |xs| - 1;
      TraverseMeaning(xs[..n], step);
      assert forall i :: 0 <= i < n ==> xs[..n][i] == xs[i];
    }
  }

  /** A traversal succeeds exactly when every step succeeds. */
  lemma {:induction false} TraverseSucceedsIff<A, B, E>(xs: seq<A>, step: (nat, A) -> Result<B, E>)
    ensures Traverse(xs, step).Success? <==> forall i :: 0 <= i < |xs| ==> step(i, xs[i]).Success?
  {
    TraverseMeaning(xs, step);
    FirstFailureIsFirst(xs, step);
  }

  /** Once a prefix has failed, nothing after it is looked at: appending inputs changes
      neither the result nor the failing index. */
  lemma {:induction false} FailureIgnoresRest<A, B, E>(xs: seq<A>, ys: seq<A>, step: (nat, A) -> Result<B, E>)
    requires FirstFailure(xs, step) < |xs|
    ensures Traverse(xs + ys, step) == Traverse(xs, step)
    ensures FirstFailure(xs + ys, step) == FirstFailure(xs, step)
    decreases |ys|
  {
    TraverseMeaning(xs, step);
    if ys != [] {
      var m := |ys| - 1;
      FailureIgnoresRest(xs, ys[..m], step);
      assert (xs + ys)[..|xs + ys| - 1] == xs + ys[..m];
    } else {
      assert xs + ys == xs;
    }
  }

  /** One more successful step extends a successful traversal by that step's output. */
  lemma StepSucceeds<A, B, E>(xs: seq<A>, i: nat, step: (nat, A) -> Result<B, E>, done: seq<B>, y: B)
    requires i < |xs|
    requires Traverse(xs[..i], step) == Success(done) && FirstFailure(xs[..i], step) == i
    requires step(i, xs[i]) == Success(y)
    ensures Traverse(xs[..i + 1], step) == Success(done + [y])
    ensures FirstFailure(xs[..i + 1], step) == i + 1
  {
    assert xs[..i + 1][..i] == xs[..i];
  }

  /** A prefix that has already failed decides the traversal of the whole input. */
  lemma {:induction false} FailedPrefixDecides<A, B, E>(xs: seq<A>, j: nat, step: (nat, A) -> Result<B, E>)
    requires j <= |xs|
    requires FirstFailure(xs[..j], step) < j
    ensures Traverse(xs, step) == Traverse(xs[..j], step)
    ensures FirstFailure(xs, step) == FirstFailure(xs[..j], step)
    decreases |xs|
  {
    if j == |xs| {
      assert xs[..j] == xs;
    } else {
      var n := |xs| - 1;
      var prefix := xs[..n];
      assert prefix[..j] == xs[..j];
      FailedPrefixDecides(prefix, j, step);
      TraverseMeaning(prefix, step);
    }
  }

  /** A failing step after a successful prefix decides the whole traversal. */
  lemma StepFails<A, B, E>(xs: seq<A>, i: nat, step: (nat, A) -> Result<B, E>, e: E)
    requires i < |xs|
    requires FirstFailure(xs[..i], step) == i
    requires step(i, xs[i]) == Failure(e)
    ensures Traverse(xs, step) == Failure(e)
    ensures FirstFailure(xs, step) == i && Attempts(xs, step) == i + 1
  {
    var head := xs[..i + 1];
    assert head[..i] == xs[..i];
    assert head[i] == xs[i];
    TraverseMeaning(xs[..i], step);
    assert Traverse(xs[..i], step).Success?;
    assert FirstFailure(head, step) == i;
    assert Traverse(head, step) == Failure(e);
    FailedPrefixDecides(xs, i + 1, step);
  }

  /** The first failing step is the one after a run of successes that ends in a failure. */
  lemma FirstFailureAt<A, B, E>(xs: seq<A>, step: (nat, A) -> Result<B, E>, k: nat)
    requires k < |xs|
    requires forall i :: 0 <= i < k ==> step(i, xs[i]).Success?
    requires step(k, xs[k]).Failure?
    ensures FirstFailure(xs, step) == k
    ensures Traverse(xs, step) == Failure(step(k, xs[k]).error)
  {
    FirstFailureIsFirst(xs, step);
    TraverseMeaning(xs, step);
  }
}
