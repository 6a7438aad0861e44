/** A Python `for` loop whose body may raise: the body runs on each item in
    turn, and the first exception ends the loop and becomes the outcome. */
module Fold {
  import opened Wrappers

  function FoldResult<S, X>(step: (S, X) -> Result<S>, s: S, xs: seq<X>): Result<S> {
    if xs == [] then Ok(s)
    else
      var r :- FoldResult(step, s, xs[..|xs| - 1]);
      step(r, xs[|xs| - 1])
  }

  /** One more item: the body runs on the state the earlier items left. */
  lemma {:induction false} FoldNext<S, X>(step: (S, X) -> Result<S>, s: S, xs: seq<X>, n: nat)
    requires n < |xs| && FoldResult(step, s, xs[..n]).Ok?
    ensures FoldResult(step, s, xs[..n + 1]) == step(FoldResult(step, s, xs[..n]).value, xs[n])
  {
    assert xs[..n + 1][..n] == xs[..n];
  }

  /** Once the loop has raised, the later items change nothing. */
  lemma {:induction false} FoldFails<S, X>(step: (S, X) -> Result<S>, s: S, xs: seq<X>, n: nat)
    requires n <= |xs| && FoldResult(step, s, xs[..n]).Err?
    ensures FoldResult(step, s, xs) == FoldResult(step, s, xs[..n])
    decreases |xs| - n
  {
    if n < |xs| {
      assert xs[..|xs| - 1][..n] == xs[..n];
      FoldFails(step, s, xs[..|xs| - 1], n);
    } else {
      assert xs[..n] == xs;
    }
  }

  /** A body that, when it succeeds, appends exactly one entry to the log
      kept in the first half of the state. */
  ghost predicate AppendsOne<L(!new), B(!new), X(!new)>(step: ((seq<L>, B), X) -> Result<(seq<L>, B)>) {
    forall t, x :: step(t, x).Ok? ==> |step(t, x).value.0| == |t.0| + 1 && step(t, x).value.0[..|t.0|] == t.0
  }

  /** With such a body, a successful loop logs one entry per item, and the
      log after the first `n` items is the first part of the final log. */
  lemma {:induction false} FoldLogs<L(!new), B(!new), X(!new)>(step: ((seq<L>, B), X) -> Result<(seq<L>, B)>, s: (seq<L>, B), xs: seq<X>, n: nat)
    requires AppendsOne(step) && FoldResult(step, s, xs).Ok? && n <= |xs|
    ensures FoldResult(step, s, xs[..n]).Ok?
    ensures |FoldResult(step, s, xs).value.0| == |s.0| + |xs|
    ensures FoldResult(step, s, xs[..n]).value.0 == FoldResult(step, s, xs).value.0[..|s.0| + n]
  {
    if xs == [] {
      assert xs[..n] == xs;
    } else {
      var prefix := xs[..|xs| - 1];
      var before := FoldResult(step, s, prefix);
      assert before.Ok?;
      var after := step(before.value, xs[|xs| - 1]);
      assert FoldResult(step, s, xs) == after;
      if n == |xs| {
        FoldLogs(step, s, prefix, |prefix|);
        assert xs[..n] == xs;
      } else {
        FoldLogs(step, s, prefix, n);
        assert prefix[..n] == xs[..n];
        assert after.value.0[..|before.value.0|] == before.value.0;
        assert after.value.0[..|s.0| + n] == before.value.0[..|s.0| + n];
      }
    }
  }

  /** A loop body that cannot raise, over a summary of the state. */
  function FoldLeft<A, X>(f: (A, X) -> A, a: A, xs: seq<X>): A {
    if xs == [] then a else f(FoldLeft(f, a, xs[..|xs| - 1]), xs[|xs| - 1])
  }

  /** Folding over two lists one after the other is folding over their
      concatenation. */
  lemma {:induction false} FoldLeftConcat<A, X>(f: (A, X) -> A, a: A, xs: seq<X>, ys: seq<X>)
    ensures FoldLeft(f, a, xs + ys) == FoldLeft(f, FoldLeft(f, a, xs), ys)
  {
    if ys == [] {
      assert xs + ys == xs;
    } else {
      FoldLeftConcat(f, a, xs, ys[..|ys| - 1]);
      assert (xs + ys)[..|xs + ys| - 1] == xs + ys[..|ys| - 1];
    }
  }

  /** Simulation: when every successful run of the body keeps `inv` and
      moves the summary `abs` of the state by `f`, a successful loop keeps
      `inv` and its summary is the fold of `f` over the items. */
  lemma {:induction false} FoldSimulates<S, X, A>(step: (S, X) -> Result<S>, inv: S -> bool, abs: S -> A,
                                                  f: (A, X) -> A, s: S, xs: seq<X>)
    requires inv(s)
    requires forall t, x :: inv(t) && step(t, x).Ok? ==> inv(step(t, x).value) && abs(step(t, x).value) == f(abs(t), x)
    ensures FoldResult(step, s, xs).Ok? ==>
      inv(FoldResult(step, s, xs).value) && abs(FoldResult(step, s, xs).value) == FoldLeft(f, abs(s), xs)
  {
    if xs != [] {
      FoldSimulates(step, inv, abs, f, s, xs[..|xs| - 1]);
    }
  }

  /** A loop whose body succeeds on every item from every state succeeds. */
  lemma {:induction false} FoldAllOk<S, X>(step: (S, X) -> Result<S>, s: S, xs: seq<X>)
    requires forall t, i :: 0 <= i < |xs| ==> step(t, xs[i]).Ok?
    ensures FoldResult(step, s, xs).Ok?
  {
    if xs != [] {
      FoldAllOk(step, s, xs[..|xs| - 1]);
    }
  }
}
