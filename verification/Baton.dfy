/**
 The controller/worker handshake of class Thread in src/epoll_states.cxx: start, run, pause and
 step, with one mutex, one flag and one condition variable used in both directions. Waits are
 the predicate loops of std::condition_variable, spurious wake-ups included.

 Call 0 of the controller is start(), call j > 0 is the j-th step(). Pause 0 of the worker is
 the one in run(), pause j > 0 the j-th pause of the test function, with state script[j - 1].
 */
module Baton {

  datatype StateType = Yielding | Blocking | Failed | Finished

  datatype Owner = Free | Controller | Worker

  /** Active: outside the handshake, running its own code. Stored: m_state is set, the lock not
      yet taken. Locked: the lock was taken. Checking: at the predicate of wait, with the lock.
      Sleeping: blocked in wait. Woken: leaving the wait, needs the lock. */
  datatype Pc = NotStarted | Active | Stored | Locked | Checking | Sleeping | Woken | Exited

  datatype State = State(
    script: seq<StateType>,       // the states of the test function's pauses
    owner: Owner, paused: bool, mstate: StateType,
    c: Pc, calls: nat,            // the controller, and the calls it began
    w: Pc, pauses: nat,           // the worker, and the pauses it began
    returned: seq<StateType>)     // what the step() calls returned

  function Initial(script: seq<StateType>): State {
    State(script, Free, false, Yielding, Active, 0, NotStarted, 0, [])
  }

  /** The state given to pause p. */
  function Given(script: seq<StateType>, p: nat): StateType
    requires p <= |script|
  {
    if p == 0 then Yielding else script[p - 1]
  }

  datatype Step =
    | CallLock                    // start() or step() takes the lock
    | Call                        // starts the thread, or clears m_paused and notifies
    | Store                       // m_state = state
    | PauseLock
    | Pause                       // m_paused = true and notifies
    | Exit                        // the test function returns
    | Check(who: Owner)           // evaluates the predicate: goes on, or sleeps
    | Reacquire(who: Owner)
    | Spurious(who: Owner)

  predicate Enabled(s: State, step: Step) {
    match step
    case CallLock => s.c.Active? && s.owner.Free?
    case Call => s.c.Locked?
    case Store => s.w.Active? && s.pauses <= |s.script|
    case PauseLock => s.w.Stored? && s.owner.Free?
    case Pause => s.w.Locked?
    case Exit => s.w.Active? && s.pauses == |s.script| + 1
    case Check(who) => (who.Controller? && s.c.Checking?) || (who.Worker? && s.w.Checking?)
    case Reacquire(who) => s.owner.Free? && ((who.Controller? && s.c.Woken?) || (who.Worker? && s.w.Woken?))
    case Spurious(who) => (who.Controller? && s.c.Sleeping?) || (who.Worker? && s.w.Sleeping?)
  }

  /** notify_one: the other thread is the only one that can be asleep. */
  function Notified(pc: Pc): Pc { if pc.Sleeping? then Woken else pc }

  function Apply(s: State, step: Step): State
    requires Enabled(s, step)
  {
    match step
    case CallLock => s.(c := Locked, owner := Controller, calls := s.calls + 1)
    case Call =>
      if s.calls == 1 then s.(c := Checking, w := Active)
      else s.(c := Checking, paused := false, w := Notified(s.w))
    case Store => s.(w := Stored, mstate := Given(s.script, s.pauses), pauses := s.pauses + 1)
    case PauseLock => s.(w := Locked, owner := Worker)
    case Pause => s.(w := Checking, paused := true, c := Notified(s.c))
    case Exit => s.(w := Exited)
    case Check(who) =>
      if who.Controller? then
        if !s.paused then s.(c := Sleeping, owner := Free)
        else s.(c := Active, owner := Free,
                returned := if s.calls == 1 then s.returned else s.returned + [s.mstate])
      else
        if s.paused then s.(w := Sleeping, owner := Free)
        else s.(w := Active, owner := Free)
    case Reacquire(who) =>
      if who.Controller? then s.(c := Checking, owner := Controller) else s.(w := Checking, owner := Worker)
    case Spurious(who) => if who.Controller? then s.(c := Woken) else s.(w := Woken)
  }

  predicate InWait(pc: Pc) { pc.Checking? || pc.Sleeping? || pc.Woken? }

  ghost predicate Inv(s: State) {
    && (s.owner.Controller? <==> s.c.Locked? || s.c.Checking?)
    && (s.owner.Worker? <==> s.w.Locked? || s.w.Checking?)
    && !s.c.NotStarted? && !s.c.Stored? && !s.c.Exited?
    && s.pauses <= |s.script| + 1
    && (s.c.Sleeping? ==> !s.paused) && (s.w.Sleeping? ==> s.paused)
    && |s.returned| == (if s.calls <= 1 then 0 else if s.c.Active? then s.calls - 1 else s.calls - 2)
    && |s.returned| <= |s.script| && s.returned == s.script[..|s.returned|]
    && Turn(s)
  }

  /** Whose turn it is. */
  ghost predicate Turn(s: State)
    requires s.pauses <= |s.script| + 1
  {
    if s.w.NotStarted? then
      !s.paused && s.pauses == 0 && ((s.c.Active? && s.calls == 0) || (s.c.Locked? && s.calls == 1))
    else if s.paused then
      // The worker is in pause() and stays there.
      && InWait(s.w) && 1 <= s.pauses && s.mstate == Given(s.script, s.pauses - 1)
      && (if s.c.Locked? then s.calls == s.pauses + 1 else s.calls == s.pauses)
    else if InWait(s.w) then
      // The worker may leave pause().
      InWait(s.c) && s.calls == s.pauses + 1 && 1 <= s.pauses
    else
      // The worker runs; the controller is in the call that let it.
      && InWait(s.c)
      && s.calls == (if s.w.Active? || s.w.Exited? then s.pauses + 1 else s.pauses)
      && (s.w.Exited? ==> s.pauses == |s.script| + 1)
      && (s.w.Stored? || s.w.Locked? ==> 1 <= s.pauses && s.mstate == Given(s.script, s.pauses - 1))
  }

  lemma {:induction false} InitialInv(script: seq<StateType>)
    ensures Inv(Initial(script))
  {
  }

  lemma {:induction false} StepInv(s: State, step: Step)
    requires Inv(s) && Enabled(s, step)
    ensures Inv(Apply(s, step)) && Apply(s, step).script == s.script
  {
  }

  ghost predicate Run(s: State, steps: seq<Step>, t: State)
    decreases |steps|
  {
    if steps == [] then s == t else Enabled(s, steps[0]) && Run(Apply(s, steps[0]), steps[1..], t)
  }

  lemma {:induction false} RunInv(s: State, steps: seq<Step>, t: State)
    requires Inv(s) && Run(s, steps, t)
    ensures Inv(t) && t.script == s.script
    decreases |steps|
  {
    if steps != [] {
      StepInv(s, steps[0]);
      RunInv(Apply(s, steps[0]), steps[1..], t);
    }
  }

  /** Controller code and worker code never run at the same time: while the controller is outside
      start() and step(), the worker waits in pause() (or is not started), and m_state is what that
      pause was given. */
  lemma {:induction false} Alternation(script: seq<StateType>, steps: seq<Step>, t: State)
    requires Run(Initial(script), steps, t)
    ensures t.c.Active? && t.calls > 0 ==> InWait(t.w) && t.paused
    ensures t.c.Active? && t.calls > 0 ==> t.calls - 1 <= |script| && t.mstate == Given(script, t.calls - 1)
    ensures t.w.Active? || t.w.Stored? ==> InWait(t.c) && !t.paused
  {
    InitialInv(script);
    RunInv(Initial(script), steps, t);
  }

  /** The k-th step() returns the state given to the worker's k-th pause after the first. */
  lemma {:induction false} StepReturnsNextPause(script: seq<StateType>, steps: seq<Step>, t: State)
    requires Run(Initial(script), steps, t)
    ensures t.returned <= script
    ensures t.c.Active? && t.calls > 0 ==> |t.returned| == t.calls - 1
  {
    InitialInv(script);
    RunInv(Initial(script), steps, t);
  }

  /** Nobody waits for a wake-up that will not come: when the threads can only go on by a spurious
      wake-up, the worker's test function has returned inside a step(). That is exactly the
      step() that asks for more pauses than the test function has. */
  lemma {:induction false} NoLostWakeup(script: seq<StateType>, steps: seq<Step>, t: State)
    requires Run(Initial(script), steps, t)
    ensures !(t.c.Sleeping? && t.w.Sleeping?)
    ensures (forall step :: Enabled(t, step) ==> step.Spurious?) <==> t.c.Sleeping? && t.w.Exited?
    ensures t.w.Exited? ==> t.calls == |script| + 2
    ensures t.c.Active? ==> t.calls <= |script| + 1
  {
    InitialInv(script);
    RunInv(Initial(script), steps, t);
    assert Enabled(t, CallLock) || Enabled(t, Call) || Enabled(t, Store) || Enabled(t, PauseLock) || Enabled(t, Pause)
      || Enabled(t, Exit) || Enabled(t, Check(Controller)) || Enabled(t, Check(Worker))
      || Enabled(t, Reacquire(Controller)) || Enabled(t, Reacquire(Worker)) || (t.c.Sleeping? && t.w.Exited?);
  }

  /** Some run of the two threads leads from s to t. */
  ghost predicate Leads(s: State, t: State) { exists steps: seq<Step> :: Run(s, steps, t) }

  lemma {:induction false} LeadsFrom(s: State, step: Step, t: State)
    requires Enabled(s, step) && Leads(Apply(s, step), t)
    ensures Leads(s, t)
  {
    var steps: seq<Step> :| Run(Apply(s, step), steps, t);
    assert ([step] + steps)[1..] == steps;
    assert Run(s, [step] + steps, t);
  }

  /** Between two calls of the controller: the worker sleeps in its p-th pause, and p - 1 calls of step()
      have returned what it was given. */
  function Resting(script: seq<StateType>, p: nat): State
    requires 1 <= p <= |script| + 1
  {
    State(script, Free, true, Given(script, p - 1), Active, p, Sleeping, p, script[..p - 1])
  }

  /** The worker, active with p pauses behind it, comes to its next pause and wakes the controller. */
  lemma {:induction false} ToPause(s: State, p: nat, t: State)
    requires p <= |s.script| && s.pauses == p && s.calls == p + 1
    requires s.w.Active? && s.c.Sleeping? && s.owner.Free? && !s.paused
    requires s.returned == s.script[..if p == 0 then 0 else p - 1] && Leads(Resting(s.script, p + 1), t)
    ensures Leads(s, t)
  {
    var given := s.(mstate := Given(s.script, p), pauses := p + 1);
    var paused := given.(w := Checking, owner := Worker, paused := true, c := Woken);
    var asleep := paused.(w := Sleeping, owner := Free);
    assert p > 0 ==> s.script[..p] == s.script[..p - 1] + [s.script[p - 1]];
    LeadsFrom(asleep.(c := Checking, owner := Controller), Check(Controller), t);
    LeadsFrom(asleep, Reacquire(Controller), t);
    LeadsFrom(paused, Check(Worker), t);
    LeadsFrom(given.(w := Locked, owner := Worker), Pause, t);
    LeadsFrom(given.(w := Stored), PauseLock, t);
    LeadsFrom(s, Store, t);
  }

  /** The controller calls step(), and the worker leaves its p-th pause. */
  lemma {:induction false} ToWorker(script: seq<StateType>, p: nat, t: State)
    requires 1 <= p <= |script| + 1
    requires Leads(Resting(script, p).(calls := p + 1, c := Sleeping, w := Active, paused := false), t)
    ensures Leads(Resting(script, p), t)
  {
    var s := Resting(script, p);
    var called := s.(calls := p + 1, c := Checking, owner := Controller, w := Woken, paused := false);
    var waits := called.(c := Sleeping, owner := Free);
    LeadsFrom(waits.(w := Checking, owner := Worker), Check(Worker), t);
    LeadsFrom(waits, Reacquire(Worker), t);
    LeadsFrom(called, Check(Controller), t);
    LeadsFrom(s.(calls := p + 1, c := Locked, owner := Controller), Call, t);
    LeadsFrom(s, CallLock, t);
  }

  /** start() returns, and every step() after it while there are pauses left: p - 1 of them. */
  lemma {:induction false} CallsReturn(script: seq<StateType>, p: nat, t: State)
    requires 1 <= p <= |script| + 1 && Leads(Resting(script, p), t)
    ensures Leads(Initial(script), t)
    decreases p
  {
    if p == 1 {
      var s := Initial(script);
      var started := s.(calls := 1, c := Checking, owner := Controller, w := Active);
      ToPause(started.(c := Sleeping, owner := Free), 0, t);
      LeadsFrom(started, Check(Controller), t);
      LeadsFrom(s.(calls := 1, c := Locked, owner := Controller), Call, t);
      LeadsFrom(s, CallLock, t);
    } else {
      ToPause(Resting(script, p - 1).(calls := p, c := Sleeping, w := Active, paused := false), p - 1, t);
      ToWorker(script, p - 1, t);
      CallsReturn(script, p - 1, t);
    }
  }

  /** For every test function there is an execution in which each pause is answered by a step(). */
  lemma {:induction false} AllStepsReturn(script: seq<StateType>) returns (t: State)
    ensures Leads(Initial(script), t) && t.c.Active? && t.calls == |script| + 1 && t.returned == script
  {
    t := Resting(script, |script| + 1);
    assert Run(t, [], t);
    assert script[..|script|] == script;
    CallsReturn(script, |script| + 1, t);
  }

  /** And one with a step() too many, which waits for ever. */
  lemma {:induction false} StepTooMany(script: seq<StateType>) returns (t: State)
    ensures Leads(Initial(script), t) && t.c.Sleeping? && t.w.Exited? && t.returned == script
  {
    var p := |script| + 1;
    var s := Resting(script, p).(calls := p + 1, c := Sleeping, w := Active, paused := false);
    t := s.(w := Exited);
    assert Run(t, [], t);
    assert script[..|script|] == script;
    LeadsFrom(s, Exit, t);
    ToWorker(script, p, t);
    CallsReturn(script, p, t);
  }

  /** With a test function that never pauses, the first step() waits for ever. */
  lemma {:induction false} StepWithoutPause() returns (steps: seq<Step>, t: State)
    ensures Run(Initial([]), steps, t) && t.c.Sleeping? && t.w.Exited?
  {
    t := StepTooMany([]);
    steps :| Run(Initial([]), steps, t);
  }
}
