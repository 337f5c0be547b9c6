/** Runs of a step system: a partial step function applied to one label after the other. */
module Runs {
  import opened Wrappers

  /** The state after a list of labels, or `None` when one of its steps is not enabled. */
  function Run<S, L>(step: (S, L) -> Option<S>, s: S, labels: seq<L>): Option<S>
    decreases |labels|
  {
    if labels == [] then Some(s)
    else
      match step(s, labels[0])
      case None => None
      case Some(next) => Run(step, next, labels[1..])
  }

  lemma {:induction false} RunConcat<S, L>(step: (S, L) -> Option<S>, s: S, a: seq<L>, b: seq<L>)
    requires Run(step, s, a).Some?
    ensures Run(step, s, a + b) == Run(step, Run(step, s, a).value, b)
    decreases |a|
  {
    if a == [] {
      assert a + b == b;
    } else {
      RunConcat(step, step(s, a[0]).value, a[1..], b);
      assert (a + b)[0] == a[0] && (a + b)[1..] == a[1..] + b;
    }
  }

  lemma RunOfOne<S, L>(step: (S, L) -> Option<S>, s: S, l: L)
    ensures Run(step, s, [l]) == step(s, l)
  {
  }

  /** Two runs in a row. */
  lemma RunThen<S, L>(step: (S, L) -> Option<S>, s: S, a: seq<L>, t: S, b: seq<L>, u: S)
    requires Run(step, s, a) == Some(t) && Run(step, t, b) == Some(u)
    ensures Run(step, s, a + b) == Some(u)
  {
    RunConcat(step, s, a, b);
  }

  /** One step and then a run. */
  lemma StepThen<S, L>(step: (S, L) -> Option<S>, s: S, l: L, t: S, b: seq<L>, u: S)
    requires step(s, l) == Some(t) && Run(step, t, b) == Some(u)
    ensures Run(step, s, [l] + b) == Some(u)
  {
    assert ([l] + b)[1..] == b;
  }

  /** One step and then a run that cannot be made. */
  lemma StepFails<S, L>(step: (S, L) -> Option<S>, s: S, l: L, t: S, b: seq<L>)
    requires step(s, l) == Some(t) && Run(step, t, b) == None
    ensures Run(step, s, [l] + b) == None
  {
    assert ([l] + b)[1..] == b;
  }

  lemma RunOfFour<S, L>(step: (S, L) -> Option<S>, s: S, a: L, s1: S, b: L, s2: S, c: L, s3: S, d: L, s4: S)
    requires step(s, a) == Some(s1) && step(s1, b) == Some(s2) && step(s2, c) == Some(s3) && step(s3, d) == Some(s4)
    ensures Run(step, s, [a, b, c, d]) == Some(s4)
  {
    RunOfOne(step, s3, d);
    StepThen(step, s2, c, s3, [d], s4);
    StepThen(step, s1, b, s2, [c] + [d], s4);
    StepThen(step, s, a, s1, [b] + ([c] + [d]), s4);
    assert [a] + ([b] + ([c] + [d])) == [a, b, c, d];
  }

  /** What every allowed step keeps, every run of allowed steps keeps. */
  lemma {:induction false} RunKeeps<S, L>(
    step: (S, L) -> Option<S>, allowed: L -> bool, inv: S -> bool, s: S, labels: seq<L>)
    requires forall t, l :: inv(t) && allowed(l) && step(t, l).Some? ==> inv(step(t, l).value)
    requires inv(s) && Run(step, s, labels).Some? && forall l :: l in labels ==> allowed(l)
    ensures inv(Run(step, s, labels).value)
    decreases |labels|
  {
    if labels != [] {
      assert labels[0] in labels;
      RunKeeps(step, allowed, inv, step(s, labels[0]).value, labels[1..]);
    }
  }

  /** Where every step lowers a rank, runs are no longer than the rank. */
  lemma {:induction false} RunLowers<S, L>(
    step: (S, L) -> Option<S>, inv: S -> bool, rank: S -> nat, s: S, labels: seq<L>)
    requires forall t, l :: inv(t) && step(t, l).Some? ==> inv(step(t, l).value) && rank(step(t, l).value) < rank(t)
    requires inv(s) && Run(step, s, labels).Some?
    ensures |labels| + rank(Run(step, s, labels).value) <= rank(s)
    decreases |labels|
  {
    if labels != [] { RunLowers(step, inv, rank, step(s, labels[0]).value, labels[1..]); }
  }

  /** Where a function of states carries every allowed step along, it carries runs of them along. */
  lemma {:induction false} RunMaps<S, L>(
    step: (S, L) -> Option<S>, allowed: L -> bool, f: S -> S, s: S, labels: seq<L>)
    requires forall t, l :: allowed(l) ==> step(f(t), l) == MapOption(f, step(t, l))
    requires forall l :: l in labels ==> allowed(l)
    ensures Run(step, f(s), labels) == MapOption(f, Run(step, s, labels))
    decreases |labels|
  {
    if labels != [] {
      assert allowed(labels[0]);
      if step(s, labels[0]).Some? { RunMaps(step, allowed, f, step(s, labels[0]).value, labels[1..]); }
    }
  }

  function MapOption<S>(f: S -> S, s: Option<S>): Option<S> {
    match s
    case None => None
    case Some(t) => Some(f(t))
  }

  /** How many labels of a run are of a kind. */
  function Count<L>(kind: L -> bool, labels: seq<L>): nat {
    if labels == [] then 0 else (if kind(labels[0]) then 1 else 0) + Count(kind, labels[1..])
  }

  /** Where every step of a kind lowers a rank and no other step raises it, until something is done for good, a run in
      which it is not done has no more steps of the kind than the rank. */
  lemma {:induction false} RunCounts<S, L>(
    step: (S, L) -> Option<S>, inv: S -> bool, done: S -> bool, kind: L -> bool, rank: S -> nat, s: S, labels: seq<L>)
    requires forall t, l :: inv(t) && step(t, l).Some? ==> inv(step(t, l).value)
    requires forall t, l :: inv(t) && done(t) && step(t, l).Some? ==> done(step(t, l).value)
    requires forall t, l :: inv(t) && !done(t) && step(t, l).Some? && !done(step(t, l).value) ==>
                              (if kind(l) then 1 else 0) + rank(step(t, l).value) <= rank(t)
    requires inv(s) && Run(step, s, labels).Some?
    ensures inv(Run(step, s, labels).value)
    ensures done(s) ==> done(Run(step, s, labels).value)
    ensures done(Run(step, s, labels).value) || Count(kind, labels) + rank(Run(step, s, labels).value) <= rank(s)
    decreases |labels|
  {
    if labels != [] { RunCounts(step, inv, done, kind, rank, step(s, labels[0]).value, labels[1..]); }
  }
}
