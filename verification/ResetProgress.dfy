/** The handshake goes on: the producer rewinds whenever everything was read, and from every state of
    every execution the block can be emptied, rewound and written again. */
module ResetProgress {
  import opened ResetHandshake
  import opened ResetInvariant
  import opened ResetTheorems
  import opened ReadPass

  /** A Poll rewinds exactly when the loaded total is everything that was written, with something in the
      block; otherwise the producer stays where it is. */
  lemma {:induction false} PollRewinds(s: State, k: nat)
    requires Reachable(s) && Enabled(s, Poll(k))
    ensures var t := Apply(s, Poll(k));
      && t.written == s.written && t.cpc == s.cpc && t.gptr == s.gptr && t.copied == s.copied && t.totals == s.totals
      && if s.pptr > 0 && s.totals[k].total == |s.written| then
           && t.pptr == 0 && t.ppc.Rewound? && t.totalReset == |s.written|
           && |t.pptrs| == |s.pptrs| + 1 && s.pptrs <= t.pptrs
           && t.pptrs[|s.pptrs|].off == 0 && t.pptrs[|s.pptrs|].base == |s.written|
         else
           t.pptr == s.pptr && t.ppc.Producing? && t.totalReset == s.totalReset && t.pptrs == s.pptrs
  {
    ReachableInv(s);
  }

  lemma {:induction false} RunAppend(s: State, a: seq<Step>, t: State, b: seq<Step>, u: State)
    requires Run(s, a, t) && Run(t, b, u)
    ensures Run(s, a + b, u)
    decreases |a|
  {
    if a == [] {
      assert a + b == b;
    } else {
      RunAppend(Apply(s, a[0]), a[1..], t, b, u);
      assert (a + b)[1..] == a[1..] + b;
    }
  }

  lemma {:induction false} LeadsReachable(s: State, t: State)
    requires Reachable(s) && Leads(s, t)
    ensures Reachable(t)
  {
    var o: State, a: seq<Step> :| IsInitial(o) && Run(o, a, s);
    var b: seq<Step> :| Run(s, b, t);
    RunAppend(o, a, s, b, t);
  }

  lemma {:induction false} LeadsTransitive(s: State, t: State, u: State)
    requires Leads(s, t) && Leads(t, u)
    ensures Leads(s, u)
  {
    var a: seq<Step> :| Run(s, a, t);
    var b: seq<Step> :| Run(t, b, u);
    RunAppend(s, a, t, b, u);
  }

  /** One step, as a run. */
  lemma {:induction false} One(s: State, step: Step)
    requires Reachable(s) && Enabled(s, step)
    ensures Reachable(Apply(s, step)) && Leads(s, Apply(s, step))
  {
    ReachableStep(s, step);
    assert Run(Apply(s, step), [], Apply(s, step));
    LeadsFrom(s, step, Apply(s, step));
  }

  lemma {:induction false} LeadsSelf(s: State)
    ensures Leads(s, s)
  {
    assert Run(s, [], s);
  }

  /** A moment after all stores of m_resetting. */
  lemma {:induction false} LaterMoment(s: State) returns (at: real)
    requires Reachable(s)
    ensures at !in s.flags && s.cview.r < at && s.pview.r < at
  {
    ReachableInv(s);
    at := (if s.cview.r < s.pview.r then s.pview.r else s.cview.r) + 1.0;
    if at <= s.lastReset {
      at := s.lastReset + 1.0;
    }
    forall x | x in s.flags ensures x == s.lastReset || x <= s.cview.r {
      assert FlagOk(s, x);
    }
  }

  /** Detection before the announcement: the consumer sees the rewound pptr and clears m_resetting before
      the producer has set it, and the producer's store can still land before or after that. */
  lemma {:induction false} EarlyDetection() returns (s: State)
    ensures Reachable(s) && s.ppc.Rewound? && s.cpc.Idle? && s.gptr == 0 && s.readBase == s.totalReset == 1
    ensures s.cview.r == 1.0 && forall at: real :: 0.0 < at && at != 1.0 ==> Enabled(s, RaiseFlag(at))
  {
    var v := View(0.0, 0, 0, 1);
    s := Initial(1, false, ['A'], []);
    InitialReachable(s);
    s := RaceRewinds(s, v);
    s := EarlyLoads(s, v);
    s := EarlyClears(s);
  }

  lemma {:induction false} EarlyLoads(s: State, v: View) returns (t: State)
    requires Reachable(s) && v == View(0.0, 0, 0, 1) && s.cpc.Idle? && s.cview == v && s.gptr == 1
    requires s.flags == map[0.0 := FlagStore(false, v)]
    requires s.pptrs == [PptrStore(1, 0, v), PptrStore(0, 1, View(0.0, 1, 0, 0))]
    ensures Reachable(t) && t == s.(cview := View(0.0, 1, 0, 1), cpc := Decided(true, 1, 1))
  {
    ReachableSteps(s, LoadFlag(0.0), LoadPptr(1));
    t := Apply(Apply(s, LoadFlag(0.0)), LoadPptr(1));
  }

  lemma {:induction false} EarlyClears(s: State) returns (t: State)
    requires Reachable(s) && s.cpc == Decided(true, 1, 1) && s.cview == View(0.0, 1, 0, 1)
    requires |s.pptrs| == 2 && s.pptrs[1].off == 0 && s.pptrs[1].base == 1 && s.flags.Keys == {0.0}
    ensures Reachable(t) && t.cpc.Idle? && t.gptr == 0 && t.readBase == 1 && t.cview.r == 1.0 && t.flags.Keys == {0.0, 1.0}
    ensures t.ppc == s.ppc && t.pview == s.pview && t.totalReset == s.totalReset
  {
    ReachableSteps(s, Clear(1.0), Begin(0));
    t := Apply(Apply(s, Clear(1.0)), Begin(0));
  }

  //
  // The consumer can always come to the end of its pass
  //

  lemma {:induction false} FinishCopy(s: State) returns (t: State)
    requires Reachable(s) && s.cpc.Copying?
    ensures Reachable(t) && Leads(s, t) && t.cpc.Idle? && ProducerSame(s, t)
  {
    ReachableInv(s);
    var u := CopyLoop(s, s.cpc.todo);
    LeadsReachable(s, u);
    One(u, Publish);
    t := Apply(u, Publish);
    LeadsTransitive(s, u, t);
  }

  lemma {:induction false} FinishDecided(s: State) returns (t: State)
    requires Reachable(s) && s.cpc.Decided?
    ensures Reachable(t) && Leads(s, t) && t.cpc.Idle? && ProducerSame(s, t)
    decreases if s.cpc.resetting then 1 else 0
  {
    Detection(s);
    var step: Step;
    if s.cpc.resetting {
      var at := LaterMoment(s);
      step := Clear(at);
    } else {
      step := Begin(0);
    }
    One(s, step);
    var next := Apply(s, step);
    if next.cpc.Idle? {
      t := next;
    } else {
      if s.cpc.resetting {
        t := FinishDecided(next);
      } else {
        t := FinishCopy(next);
      }
      LeadsTransitive(s, next, t);
    }
  }

  lemma {:induction false} ToIdle(s: State) returns (t: State)
    requires Reachable(s)
    ensures Reachable(t) && Leads(s, t) && t.cpc.Idle? && ProducerSame(s, t)
    decreases match s.cpc case SawFlag(_) => 3 case SawPptr(_) => 2 case SawLateReset(_) => 1 case _ => 0
  {
    ReachableInv(s);
    match s.cpc
    case Idle =>
      t := s;
      LeadsSelf(s);
    case SawFlag(_) => t := ToIdleAfter(s, LoadPptr(|s.pptrs| - 1));
    case SawPptr(_) => t := ToIdleAfter(s, LoadFlagAgain(s.cview.r));
    case SawLateReset(_) => t := ToIdleAfter(s, Reload(|s.pptrs| - 1));
    case Decided(_, _, _) => t := FinishDecided(s);
    case Copying(_, _, _) => t := FinishCopy(s);
  }

  lemma {:induction false} ToIdleAfter(s: State, step: Step) returns (t: State)
    requires Reachable(s) && Enabled(s, step) && (step.LoadPptr? || step.LoadFlagAgain? || step.Reload?)
    ensures Reachable(t) && Leads(s, t) && t.cpc.Idle? && ProducerSame(s, t)
    decreases match s.cpc case SawFlag(_) => 3 case SawPptr(_) => 2 case SawLateReset(_) => 1 case _ => 0, -1
  {
    One(s, step);
    t := ToIdle(Apply(s, step));
    LeadsTransitive(s, Apply(s, step), t);
  }

  //
  // It can always read all that was flushed
  //

  /** Nothing is in progress, and the newest m_last_pptr is pptr. */
  ghost predicate Ready(s: State) { Reachable(s) && Quiescent(s) }

  /** From the detection of a Ready state on, the newest store of m_last_pptr in hand. */
  lemma {:induction false} ReadRest(s: State) returns (t: State)
    requires Reachable(s) && s.cpc.Decided? && !s.cpc.resetting && s.cpc.idx == |s.pptrs| - 1
    requires s.gptr < s.pptrs[s.cpc.idx].off == s.pptr
    ensures Reachable(t) && Leads(s, t) && t.cpc.Idle? && ProducerSame(s, t) && |t.copied| == |t.written|
  {
    Detection(s);
    ReachableInv(s);
    t := Pass(s, s.pptr);
    LeadsReachable(s, t);
  }

  lemma {:induction false} ReadCleared(s: State) returns (t: State)
    requires Reachable(s) && s.cpc.Decided? && s.cpc.resetting && s.cpc.idx == |s.pptrs| - 1
    requires 0 < s.pptrs[s.cpc.idx].off == s.pptr
    ensures Reachable(t) && Leads(s, t) && t.cpc.Idle? && ProducerSame(s, t) && |t.copied| == |t.written|
  {
    var at := LaterMoment(s);
    One(s, Clear(at));
    t := ReadRest(Apply(s, Clear(at)));
    LeadsTransitive(s, Apply(s, Clear(at)), t);
  }

  /** Loading the latest m_resetting: a 0 leaves the view of m_last_pptr as it is. */
  lemma {:induction false} LatestMoment(s: State) returns (at: real)
    requires Ready(s)
    ensures Latest(s, at) && s.cview.r <= at
    ensures !s.flags[at].set1 ==> s.pptr - s.gptr == |s.written| - |s.copied|
    ensures s.cview.p <= |s.pptrs| - 1 && s.cview.Join(s.flags[at].view).p <= |s.pptrs| - 1
    ensures s.flags[at].view.r == at && s.pptrs[|s.pptrs| - 1].view.r <= at
  {
    LatestExists(s);
    at := if Latest(s, s.lastReset) then s.lastReset else s.cview.r;
    Accounting(s, at);
    ReachableInv(s);
    assert FlagOk(s, at);
    assert StoreOk(s, |s.pptrs| - 1);
  }

  lemma {:induction false} ReadReset(s: State) returns (t: State)
    requires Reachable(s) && s.cpc == SawFlag(true) && s.cview.p < |s.pptrs| && 0 < s.pptrs[|s.pptrs| - 1].off == s.pptr
    ensures Reachable(t) && Leads(s, t) && t.cpc.Idle? && ProducerSame(s, t) && |t.copied| == |t.written|
  {
    var step := LoadPptr(|s.pptrs| - 1);
    One(s, step);
    t := ReadCleared(Apply(s, step));
    LeadsTransitive(s, Apply(s, step), t);
  }

  lemma {:induction false} ReadSame(s: State) returns (t: State)
    requires Reachable(s) && s.cpc == SawFlag(false) && s.cview.p < |s.pptrs|
    requires s.gptr < s.pptrs[|s.pptrs| - 1].off == s.pptr
    requires s.cview.r in s.flags && !s.flags[s.cview.r].set1 && s.pptrs[|s.pptrs| - 1].view.r <= s.cview.r
    ensures Reachable(t) && Leads(s, t) && t.cpc.Idle? && ProducerSame(s, t) && |t.copied| == |t.written|
  {
    var step := LoadPptr(|s.pptrs| - 1);
    One(s, step);
    var a := Apply(s, step);
    One(a, LoadFlagAgain(s.cview.r));
    var b := Apply(a, LoadFlagAgain(s.cview.r));
    t := ReadRest(b);
    LeadsTransitive(a, b, t);
    LeadsTransitive(s, a, t);
  }

  /** A pass that loads the newest stores reads everything, whether it finds a reset or not. */
  lemma {:induction false} ReadEverything(s: State) returns (t: State)
    requires Ready(s) && |s.copied| < |s.written| && s.pptr > 0
    ensures Reachable(t) && Leads(s, t) && t.cpc.Idle? && ProducerSame(s, t) && |t.copied| == |t.written|
  {
    var at := LatestMoment(s);
    One(s, LoadFlag(at));
    var a := Apply(s, LoadFlag(at));
    if s.flags[at].set1 {
      t := ReadReset(a);
    } else {
      t := ReadSame(a);
    }
    LeadsTransitive(s, a, t);
  }

  //
  // The producer can always go on
  //

  lemma {:induction false} Raised(s: State) returns (t: State)
    requires Reachable(s) && s.ppc.Rewound?
    ensures Reachable(t) && Leads(s, t) && t.ppc.Producing? && t.pptr == 0 && t.written == s.written
    ensures t.cap == s.cap && t.totalReset == s.totalReset && t.pptrs == s.pptrs
  {
    ReachableInv(s);
    var at := LaterMoment(s);
    One(s, RaiseFlag(at));
    t := Apply(s, RaiseFlag(at));
  }

  lemma {:induction false} Flushed(s: State) returns (t: State)
    requires Reachable(s) && s.ppc.Producing?
    ensures Ready(t) && Leads(s, t) && t.pptr == s.pptr && t.written == s.written && t.cap == s.cap
    ensures t.totalReset == s.totalReset && s.pptrs <= t.pptrs
  {
    var a := ToIdle(s);
    One(a, Flush);
    t := Apply(a, Flush);
    LeadsTransitive(s, a, t);
  }

  /** Whatever is in the block, the consumer can read it and the producer then rewinds. */
  lemma {:induction false} Emptied(s: State) returns (t: State)
    requires Reachable(s) && s.ppc.Producing? && s.pptr > 0
    ensures Reachable(t) && Leads(s, t) && t.ppc.Rewound? && t.pptr == 0 && t.written == s.written && t.cap == s.cap
    ensures t.totalReset == |s.written| && s.pptrs < t.pptrs && t.pptrs[|t.pptrs| - 1].base == |s.written|
  {
    var a := Flushed(s);
    ReachableInv(a);
    var b := a;
    LeadsSelf(a);
    if |a.copied| < |a.written| {
      b := ReadEverything(a);
    }
    ReachableInv(b);
    ReachablePublished(b);
    var last := |b.totals| - 1;
    PollRewinds(b, last);
    One(b, Poll(last));
    t := Apply(b, Poll(last));
    LeadsTransitive(a, b, t);
    LeadsTransitive(s, a, t);
  }

  /** From every state of every execution some run writes one more character. */
  lemma {:induction false} WritesOn(s: State, c: char) returns (t: State)
    requires Reachable(s) && s.cap > 0
    ensures Reachable(t) && Leads(s, t) && t.written == s.written + [c] && t.cap == s.cap && 0 < t.pptr && t.ppc.Producing?
    ensures s.pptrs <= t.pptrs && s.totalReset <= t.totalReset
  {
    ReachableInv(s);
    var a, b := s, s;
    LeadsSelf(s);
    if s.ppc.Producing? && s.pptr == s.cap {
      a := Emptied(s);
      b := a;
    }
    if a.ppc.Rewound? {
      b := Raised(a);
      LeadsTransitive(s, a, b);
    }
    ReachableInv(b);
    One(b, Put(c));
    t := Apply(b, Put(c));
    LeadsTransitive(s, b, t);
  }

  /** The values that m_total_reset has had. */
  ghost function Rounds(s: State): set<nat> { set i: nat | i < |s.pptrs| :: s.pptrs[i].base }

  /** And some run rewinds the block once more. */
  lemma {:induction false} RewindsAgain(s: State) returns (t: State)
    requires Reachable(s) && s.cap > 0
    ensures Reachable(t) && Leads(s, t) && t.cap == s.cap && s.totalReset < t.totalReset && Rounds(s) < Rounds(t)
  {
    var a := WritesOn(s, 'x');
    t := Emptied(a);
    LeadsTransitive(s, a, t);
    ReachableInv(s);
    ReachableInv(a);
    forall i | 0 <= i < |s.pptrs| ensures s.pptrs[i].base <= s.totalReset && s.pptrs[i] == t.pptrs[i] {
      StoreBounds(s, i);
    }
    assert t.totalReset in Rounds(t) && t.totalReset !in Rounds(s);
  }

  /** For every n an execution with n resets and more exists, with any block that is not empty. */
  lemma {:induction false} ManyResets(n: nat, cap: nat, reloadAcquires: bool) returns (t: State)
    requires cap > 0
    ensures Reachable(t) && t.cap == cap && n < |Rounds(t)|
    decreases n
  {
    if n == 0 {
      var rest := seq(cap, _ => 'x');
      t := Initial(cap, reloadAcquires, [], rest);
      assert [] + rest == rest && rest[0..] == rest;
      InitialReachable(t);
      assert t.pptrs[0].base in Rounds(t);
    } else {
      var s := ManyResets(n - 1, cap, reloadAcquires);
      t := RewindsAgain(s);
      Larger(Rounds(s), Rounds(t));
    }
  }

  lemma {:induction false} Larger(a: set<nat>, b: set<nat>)
    requires a < b
    ensures |a| < |b|
  {
    assert b == a + (b - a);
  }
}
