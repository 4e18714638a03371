/** What the retries of the lock-free list are for: pushes succeed, every execution can be completed, and
    failures are what was counted. */
module ListProgress {
  import opened LockFreeList

  /** A failing compare-exchange leaves the value it found as the expected one, in next, and nothing else. */
  lemma {:induction false} FailureUpdates(s: State, i: nat, k: nat)
    requires Enabled(s, CasFail(i, k))
    ensures var t := Apply(s, CasFail(i, k));
      && |t.next| == |s.next| && t.next[i] == s.list[k].head && t.list == s.list && t.consumers == s.consumers
      && forall j :: 0 <= j < |s.next| && j != i ==> t.next[j] == s.next[j] && t.producers[j] == s.producers[j]
  {
  }

  /** So the retry succeeds, unless another thread stores in between. */
  lemma {:induction false} RetrySucceeds(s: State, i: nat)
    requires s.list != [] && Enabled(s, CasFail(i, |s.list| - 1))
    ensures Enabled(Apply(s, CasFail(i, |s.list| - 1)), CasOk(i))
  {
  }

  /** How often producer i found another value than it expected. */
  ghost function RealFailures(s: State, steps: seq<Step>, i: nat): nat
    decreases |steps|
  {
    if steps == [] || !Enabled(s, steps[0]) then 0
    else
      var differs := steps[0].CasFail? && steps[0].i == i && s.list[steps[0].k].head != s.next[i];
      (if differs then 1 else 0) + RealFailures(Apply(s, steps[0]), steps[1..], i)
  }

  lemma {:induction false} FailuresCounted(s: State, steps: seq<Step>, t: State, i: nat)
    requires Run(s, steps, t) && i < |s.producers|
    ensures |t.producers| == |s.producers|
    ensures t.producers[i].failures == s.producers[i].failures + RealFailures(s, steps, i)
    decreases |steps|
  {
    if steps != [] {
      FailuresCounted(Apply(s, steps[0]), steps[1..], t, i);
    }
  }

  /** No producer finds another value than expected more than n - 1 + m times. */
  lemma {:induction false} FewRealFailures(n: nat, m: nat, steps: seq<Step>, t: State, i: nat)
    requires Run(Initial(n, m), steps, t) && i < n
    ensures RealFailures(Initial(n, m), steps, i) <= n - 1 + m
  {
    FailuresCounted(Initial(n, m), steps, t, i);
    FewFailures(n, m, steps, t, i);
  }

  lemma {:induction false} FirstFailure(s: State, step: Step, rest: seq<Step>, t: State, i: nat)
    requires Enabled(s, step) && Run(Apply(s, step), rest, t)
    ensures Run(s, [step] + rest, t)
    ensures RealFailures(s, [step] + rest, i) == RealFailures(s, [step], i) + RealFailures(Apply(s, step), rest, i)
  {
    assert ([step] + rest)[1..] == rest && [step][1..] == [];
  }

  /** Such failures happen: two producers load the empty list, one pushes, and the other finds its node. */
  lemma {:induction false} FailureHappens() returns (steps: seq<Step>, t: State)
    ensures Run(Initial(2, 0), steps, t) && RealFailures(Initial(2, 0), steps, 1) == 1
  {
    var s0 := Initial(2, 0);
    var s1 := Apply(s0, Load(0, 0));
    var s2 := Apply(s1, Load(1, 0));
    var s3 := Apply(s2, CasOk(0));
    t := Apply(s3, CasFail(1, 1));
    assert RealFailures(t, [], 1) == 0;
    FirstFailure(s3, CasFail(1, 1), [], t, 1);
    assert [CasFail(1, 1)] + [] == [CasFail(1, 1)];
    steps := [CasFail(1, 1)];
    assert RealFailures(s3, steps, 1) == 1;
    FirstFailure(s2, CasOk(0), steps, t, 1);
    steps := [CasOk(0)] + steps;
    FirstFailure(s1, Load(1, 0), steps, t, 1);
    steps := [Load(1, 0)] + steps;
    FirstFailure(s0, Load(0, 0), steps, t, 1);
    steps := [Load(0, 0)] + steps;
  }

  /** Some run of the threads leads from s to t. */
  ghost predicate Leads(s: State, t: State) { exists steps: seq<Step> :: Run(s, steps, t) }

  lemma {:induction false} LeadsFrom(s: State, step: Step, t: State)
    requires Enabled(s, step) && Leads(Apply(s, step), t)
    ensures Leads(s, t)
  {
    var steps: seq<Step> :| Run(Apply(s, step), steps, t);
    assert ([step] + steps)[1..] == steps;
    assert Run(s, [step] + steps, t);
  }

  /** What holds between any two steps. */
  ghost predicate Sound(s: State) { exists a :: Refines(s, a) && FailuresBounded(s) }

  lemma {:induction false} InitialSound(n: nat, m: nat)
    ensures Sound(Initial(n, m))
  {
    InitialRefines(n, m);
    assert PushedSet(Initial(n, m)) == {} && TakenSet(Initial(n, m)) == {};
  }

  lemma {:induction false} StepSound(s: State, step: Step)
    requires Sound(s) && Enabled(s, step)
    ensures Sound(Apply(s, step))
  {
    var a :| Refines(s, a) && FailuresBounded(s);
    StepRefines(s, a, step);
    StepBounded(s, a, step);
  }

  lemma {:induction false} RunSound(s: State, steps: seq<Step>, t: State)
    requires Sound(s) && Run(s, steps, t)
    ensures Sound(t)
    decreases |steps|
  {
    if steps != [] {
      StepSound(s, steps[0]);
      RunSound(Apply(s, steps[0]), steps[1..], t);
    }
  }

  /** How many stores to the list and deletions are still to come, at most. */
  ghost function StoresLeft(s: State): int { |s.producers| + |s.consumers| + 1 - |s.list| }

  ghost function Undeleted(s: State): int { |s.next| - |DeletedSet(s.next)| }

  lemma {:induction false} LeftBounds(s: State)
    requires Sound(s)
    ensures 0 <= StoresLeft(s) && 0 <= Undeleted(s)
  {
    SubsetOfRange(PushedSet(s), |s.producers|);
    SubsetOfRange(TakenSet(s), |s.consumers|);
    SubsetOfRange(DeletedSet(s.next), |s.next|);
  }

  /** A producer that has not pushed yet can do so: it loads, and retries once at most. */
  lemma {:induction false} Push(s: State, i: nat) returns (t: State)
    requires Sound(s) && i < |s.producers| && !s.producers[i].pc.Pushed?
    ensures Sound(t) && StoresLeft(t) == StoresLeft(s) - 1
    ensures forall u :: Leads(t, u) ==> Leads(s, u)
    decreases if s.producers[i].pc.Starting? then 1 else 0
  {
    if s.producers[i].pc.Starting? {
      var step := Load(i, |s.list| - 1);
      StepSound(s, step);
      t := Push(Apply(s, step), i);
      FromStep(s, step, t);
    } else if s.next[i] != Newest(s).head {
      var step := CasFail(i, |s.list| - 1);
      StepSound(s, step);
      RetrySucceeds(s, i);
      StepSound(Apply(s, step), CasOk(i));
      t := Apply(Apply(s, step), CasOk(i));
      FromStep(Apply(s, step), CasOk(i), t);
      FromStep(s, step, t);
    } else {
      StepSound(s, CasOk(i));
      t := Apply(s, CasOk(i));
      FromStep(s, CasOk(i), t);
    }
  }

  lemma {:induction false} FromStep(s: State, step: Step, t: State)
    requires Enabled(s, step) && (t == Apply(s, step) || forall u :: Leads(t, u) ==> Leads(Apply(s, step), u))
    ensures forall u :: Leads(t, u) ==> Leads(s, u)
  {
    forall u | Leads(t, u) ensures Leads(s, u) {
      LeadsFrom(s, step, u);
    }
  }

  lemma {:induction false} Take(s: State, j: nat) returns (t: State)
    requires Sound(s) && j < |s.consumers| && s.consumers[j].Waiting?
    ensures Sound(t) && StoresLeft(t) == StoresLeft(s) - 1
    ensures forall u :: Leads(t, u) ==> Leads(s, u)
  {
    StepSound(s, Exchange(j));
    t := Apply(s, Exchange(j));
    FromStep(s, Exchange(j), t);
  }

  lemma {:induction false} DeleteNext(s: State, j: nat) returns (t: State)
    requires Sound(s) && j < |s.consumers| && s.consumers[j].Deleting? && !s.consumers[j].head.Null?
    ensures Sound(t) && StoresLeft(t) == StoresLeft(s) && Undeleted(t) < Undeleted(s)
    ensures forall u :: Leads(t, u) ==> Leads(s, u)
  {
    var a :| Refines(s, a) && FailuresBounded(s);
    assert ConsumerRefines(s, a, j);
    var i := s.consumers[j].head.i;
    DeleteSafe(s, a, j);
    StepSound(s, Delete(j));
    t := Apply(s, Delete(j));
    assert DeletedSet(t.next) == DeletedSet(s.next) + {i};
    FromStep(s, Delete(j), t);
  }

  /** From every state between steps, the threads can all come to their end. */
  lemma {:induction false} Completes(s: State) returns (t: State)
    requires Sound(s)
    ensures Leads(s, t) && Joined(t)
    decreases StoresLeft(s), Undeleted(s)
  {
    LeftBounds(s);
    if i: nat :| i < |s.producers| && !s.producers[i].pc.Pushed? {
      var next := Push(s, i);
      t := Completes(next);
    } else if j: nat :| j < |s.consumers| && s.consumers[j].Waiting? {
      var next := Take(s, j);
      t := Completes(next);
    } else if j: nat :| j < |s.consumers| && !s.consumers[j].head.Null? {
      var next := DeleteNext(s, j);
      t := Completes(next);
    } else {
      t := s;
      assert Run(s, [], s);
    }
  }

  /** Whatever the threads did so far, the program can still come to its final assertion. */
  lemma {:induction false} EveryRunCompletes(n: nat, m: nat, steps: seq<Step>, s: State) returns (t: State)
    requires Run(Initial(n, m), steps, s)
    ensures Leads(s, t) && Joined(t)
  {
    InitialSound(n, m);
    RunSound(Initial(n, m), steps, s);
    t := Completes(s);
  }
}
