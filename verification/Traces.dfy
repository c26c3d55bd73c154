/** Runs of a machine that takes one input at a time: its state after a run, its output at each input, and how runs are put
    together. */
module Traces {

  function After<M, T, O>(step: (M, T) -> (M, O), m: M, inputs: seq<T>): M {
    if |inputs| == 0 then m else step(After(step, m, inputs[..|inputs| - 1]), inputs[|inputs| - 1]).0
  }

  function OutputAt<M, T, O>(step: (M, T) -> (M, O), m: M, inputs: seq<T>, i: nat): O
    requires i < |inputs|
  {
    step(After(step, m, inputs[..i]), inputs[i]).1
  }

  /** At input `i` something of the kind `p` happens. */
  predicate HappensAt<M, T, O>(step: (M, T) -> (M, O), m: M, inputs: seq<T>, p: (T, O) -> bool, i: nat)
    requires i < |inputs|
  {
    p(inputs[i], OutputAt(step, m, inputs, i))
  }

  function Count<M, T, O>(step: (M, T) -> (M, O), m: M, inputs: seq<T>, p: (T, O) -> bool): nat {
    if |inputs| == 0 then 0
    else
      var last := |inputs| - 1;
      Count(step, m, inputs[..last], p) + if HappensAt(step, m, inputs, p, last) then 1 else 0
  }

  lemma AfterOne<M, T, O>(step: (M, T) -> (M, O), m: M, inputs: seq<T>, i: nat)
    requires i < |inputs|
    ensures After(step, m, inputs[..i + 1]) == step(After(step, m, inputs[..i]), inputs[i]).0
  {
    assert inputs[..i + 1][..i] == inputs[..i];
  }

  lemma {:induction false} AfterConcat<M, T, O>(step: (M, T) -> (M, O), m: M, a: seq<T>, b: seq<T>)
    ensures After(step, m, a + b) == After(step, After(step, m, a), b)
    decreases |b|
  {
    if |b| == 0 {
      assert a + b == a;
    } else {
      assert (a + b)[..|a + b| - 1] == a + b[..|b| - 1];
      AfterConcat(step, m, a, b[..|b| - 1]);
    }
  }

  lemma OutputConcat<M, T, O>(step: (M, T) -> (M, O), m: M, a: seq<T>, b: seq<T>, i: nat)
    requires i < |b|
    ensures OutputAt(step, m, a + b, |a| + i) == OutputAt(step, After(step, m, a), b, i)
  {
    assert (a + b)[..|a| + i] == a + b[..i];
    AfterConcat(step, m, a, b[..i]);
  }

  lemma OutputPrefix<M, T, O>(step: (M, T) -> (M, O), m: M, a: seq<T>, b: seq<T>, i: nat)
    requires i < |a|
    ensures OutputAt(step, m, a + b, i) == OutputAt(step, m, a, i)
  {
    assert (a + b)[..i] == a[..i];
  }

  lemma {:induction false} CountConcat<M, T, O>(step: (M, T) -> (M, O), m: M, a: seq<T>, b: seq<T>, p: (T, O) -> bool)
    ensures Count(step, m, a + b, p) == Count(step, m, a, p) + Count(step, After(step, m, a), b, p)
    decreases |b|
  {
    if |b| == 0 {
      assert a + b == a;
    } else {
      assert (a + b)[..|a + b| - 1] == a + b[..|b| - 1];
      CountConcat(step, m, a, b[..|b| - 1], p);
      OutputConcat(step, m, a, b, |b| - 1);
    }
  }

  /** Nothing of the kind `p` happens at the inputs from `i` to before `j`. */
  ghost predicate Never<M, T, O>(step: (M, T) -> (M, O), m: M, inputs: seq<T>, p: (T, O) -> bool, i: nat, j: nat)
    requires i <= j <= |inputs|
  {
    forall k: nat :: i <= k < j ==> !HappensAt(step, m, inputs, p, k)
  }

  lemma {:induction false} NeverCountsNothing<M, T, O>(step: (M, T) -> (M, O), m: M, inputs: seq<T>, p: (T, O) -> bool)
    requires Never(step, m, inputs, p, 0, |inputs|)
    ensures Count(step, m, inputs, p) == 0
  {
    if |inputs| > 0 {
      var before, last := inputs[..|inputs| - 1], inputs[|inputs| - 1];
      assert inputs == before + [last];
      forall k: nat | k < |before|
        ensures !HappensAt(step, m, before, p, k)
      {
        OutputPrefix(step, m, before, [last], k);
        assert !HappensAt(step, m, inputs, p, k);
      }
      NeverCountsNothing(step, m, before, p);
      assert !HappensAt(step, m, inputs, p, |inputs| - 1);
    }
  }

  /** Only what is of the kind `p` changes the part `f` of the state. */
  ghost predicate OnlyChanges<M(!new), T(!new), O, S>(step: (M, T) -> (M, O), p: (T, O) -> bool, f: M -> S) {
    forall m: M, t: T :: !p(t, step(m, t).1) ==> f(step(m, t).0) == f(m)
  }

  /** A part of the state stays as it is while nothing happens that changes it. */
  lemma {:induction false} PartStays<M(!new), T(!new), O, S>(
      step: (M, T) -> (M, O), m: M, inputs: seq<T>, p: (T, O) -> bool, f: M -> S, i: nat, j: nat)
    requires i <= j <= |inputs| && OnlyChanges(step, p, f) && Never(step, m, inputs, p, i, j)
    ensures f(After(step, m, inputs[..j])) == f(After(step, m, inputs[..i]))
    decreases j
  {
    if i < j {
      PartStays(step, m, inputs, p, f, i, j - 1);
      AfterOne(step, m, inputs, j - 1);
      assert !HappensAt(step, m, inputs, p, j - 1);
    }
  }

  /** The run on `inputs` ends with something of the kind `last`, and nothing of the kind `p` happens in it before. */
  ghost predicate LeadsTo<M, T, O>(step: (M, T) -> (M, O), m: M, inputs: seq<T>, p: (T, O) -> bool, last: (T, O) -> bool) {
    |inputs| > 0 && HappensAt(step, m, inputs, last, |inputs| - 1) && Never(step, m, inputs, p, 0, |inputs| - 1)
  }

  /** The state in which the last thing happens has kept its part. */
  lemma LeadsKeepPart<M(!new), T(!new), O, S>(
      step: (M, T) -> (M, O), m: M, inputs: seq<T>, p: (T, O) -> bool, last: (T, O) -> bool, f: M -> S)
    requires LeadsTo(step, m, inputs, p, last) && OnlyChanges(step, p, f)
    ensures var at, t := After(step, m, inputs[..|inputs| - 1]), inputs[|inputs| - 1]; f(at) == f(m) && last(t, step(at, t).1)
  {
    PartStays(step, m, inputs, p, f, 0, |inputs| - 1);
    assert inputs[..0] == [];
  }

  /** A quiet approach and one more input lead to what that input makes happen. */
  lemma ApproachLeads<M, T, O>(step: (M, T) -> (M, O), m: M, approach: seq<T>, t: T, p: (T, O) -> bool, last: (T, O) -> bool)
    requires Never(step, m, approach, p, 0, |approach|) && last(t, step(After(step, m, approach), t).1)
    ensures LeadsTo(step, m, approach + [t], p, last)
  {
    var inputs := approach + [t];
    assert inputs[..|approach|] == approach;
    forall k: nat | k < |approach|
      ensures !HappensAt(step, m, inputs, p, k)
    {
      OutputPrefix(step, m, approach, [t], k);
      assert !HappensAt(step, m, approach, p, k);
    }
  }

  /** A run after another happens as it does from the state the other ends in. */
  lemma HappensConcat<M, T, O>(step: (M, T) -> (M, O), m: M, a: seq<T>, b: seq<T>, p: (T, O) -> bool, i: nat)
    requires i < |b|
    ensures HappensAt(step, m, a + b, p, |a| + i) == HappensAt(step, After(step, m, a), b, p, i)
  {
    OutputConcat(step, m, a, b, i);
  }
}
