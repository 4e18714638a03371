/** What every execution of the reset handshake satisfies. */
module ResetTheorems {
  import opened ResetHandshake
  import opened ResetInvariant

  lemma {:induction false} StepInv(s: State, step: Step)
    requires Inv(s) && Enabled(s, step)
    ensures Inv(Apply(s, step))
  {
    match step
    case Put(c) => PutInv(s, c);
    case Flush => FlushInv(s);
    case Poll(k) => PollInv(s, k);
    case RaiseFlag(at) => RaiseFlagInv(s, at);
    case LoadFlag(at) => LoadFlagInv(s, at);
    case LoadPptr(k) => LoadPptrInv(s, k);
    case LoadFlagAgain(at) => LoadFlagAgainInv(s, at);
    case Reload(k) => ReloadInv(s, k);
    case Clear(at) => ClearInv(s, at);
    case Begin(n) => BeginInv(s, n);
    case CopyOne(c) => CopyOneInv(s, c);
    case Publish => PublishInv(s);
  }

  lemma {:induction false} RunInv(s: State, steps: seq<Step>, t: State)
    requires Inv(s) && Run(s, steps, t)
    ensures Inv(t)
    decreases |steps|
  {
    if steps != [] {
      StepInv(s, steps[0]);
      RunInv(Apply(s, steps[0]), steps[1..], t);
    }
  }

  ghost predicate IsInitial(s: State) {
    |s.written| <= |s.cells| == s.cap
    && s == Initial(s.cap, s.reloadAcquires, s.written, s.cells[|s.written|..])
  }

  /** An execution from some initial state, with any interleaving and any choice of loaded stores. */
  ghost predicate Reachable(t: State) {
    exists s: State, steps: seq<Step> :: IsInitial(s) && Run(s, steps, t)
  }

  lemma {:induction false} ReachableInv(t: State)
    requires Reachable(t)
    ensures Inv(t)
  {
    var s: State, steps: seq<Step> :| IsInitial(s) && Run(s, steps, t);
    InitialInv(s.cap, s.reloadAcquires, s.written, s.cells[|s.written|..]);
    RunInv(s, steps, t);
  }

  /** Lines 50 to 60. When the consumer decides that there was a reset, cur_pptr was stored after
      the latest one, and nothing of that round was read. When it decides that there was none,
      cur_pptr belongs to the round it is reading; if that round was reset meanwhile, cur_pptr
      equals gptr, so that nothing is read. A post-reset value is never treated as pre-reset. */
  lemma {:induction false} Detection(t: State)
    requires Reachable(t) && t.cpc.Decided?
    ensures t.cpc.idx < |t.pptrs|
    ensures var store := t.pptrs[t.cpc.idx];
      if t.cpc.resetting then
        store.base == t.totalReset && |t.copied| == t.totalReset
      else
        && store.base + t.gptr == |t.copied| <= store.Position()
        && (store.base < t.totalReset ==> store.off == t.gptr)
  {
    ReachableInv(t);
    if !t.cpc.resetting && Behind(t) {
      NothingLeftBehind(t, t.cpc.idx);
    }
  }

  /** The two assertions of the consumer thread for one reset that precedes all other stores
      (the producer thread of the source), any initial fill and any later stores. */
  lemma {:induction false} OneReset(t: State)
    requires Reachable(t) && t.cpc.Decided? && |t.pptrs| > 0 && t.readBase == 0
    requires t.pptrs[0].base == 0 && t.gptr == t.pptrs[0].off > 0
    requires forall i :: 0 < i < |t.pptrs| ==> t.pptrs[i].base == t.pptrs[0].off
    ensures !t.cpc.resetting ==> t.cpc.idx == 0
    ensures t.cpc.resetting ==> 0 < t.cpc.idx < |t.pptrs|
  {
    Detection(t);
    ReachableInv(t);
    assert t.pptrs[|t.pptrs| - 1].base == t.totalReset;
    if |t.pptrs| > 1 {
      assert Ordered(t, 0, 1);
    }
  }

  /** Over any number of resets, the next character copied is the next one written: the read
      ranges, laid end to end, skip nothing and repeat nothing. The cell it is copied from holds
      that character. */
  lemma {:induction false} ReadsContinue(t: State, c: char)
    requires Reachable(t) && Enabled(t, CopyOne(c))
    ensures |t.copied| < |t.written| && t.readBase + t.gptr == |t.copied|
    ensures t.cells[t.gptr] == t.written[|t.copied|]
  {
    ReachableInv(t);
    MoreToRead(t, t.cpc.idx);
    StoreBounds(t, t.cpc.idx);
    CellOf(t, t.gptr);
  }

  lemma {:induction false} CellOf(t: State, i: nat)
    requires Inv(t) && i < t.pptr
    ensures t.cells[i] == t.written[t.totalReset + i]
  {
  }

  /** m_total_read only grows, the producer's view includes one of its stores (and all that this store
      carries) that covers what it rewound over, and between two reads of the consumer the last store
      is what it has read. What m_last_gptr was with a store of this round says the same. */
  ghost predicate Published(s: State) {
    && |s.totals| > 0 && s.pview.t < |s.totals|
    && (forall k :: 0 <= k < |s.totals| && s.totals[k].total > s.totalReset ==>
          s.totals[k].total == s.totalReset + s.totals[k].lastGptr)
    && (forall i, j :: 0 <= i <= j < |s.totals| ==> s.totals[i].total <= s.totals[j].total)
    && s.totalReset <= s.totals[s.pview.t].total
    && s.totals[s.pview.t].view.Join(s.pview) == s.pview
    && s.totals[|s.totals| - 1].total <= |s.copied|
    && (!s.cpc.Copying? ==> s.totals[|s.totals| - 1].total == |s.copied|)
    && forall i :: 0 <= i < |s.pptrs| ==> s.pptrs[i].off <= s.cap
  }

  lemma {:induction false} PollPublished(s: State, k: nat)
    requires Inv(s) && Published(s) && Enabled(s, Poll(k))
    ensures Published(Apply(s, Poll(k)))
  {
    assert TotalOk(s, k);
  }

  lemma {:induction false} PublishPublished(s: State)
    requires Inv(s) && Published(s) && Enabled(s, Publish)
    ensures Published(Apply(s, Publish))
  {
  }

  /** The other steps keep what Published is about. */
  lemma {:induction false} KeepsPublished(s: State, t: State)
    requires Published(s) && t.totals == s.totals && t.totalReset == s.totalReset && t.cap == s.cap
    requires t.pview.t == s.pview.t && s.pview.Join(t.pview) == t.pview && |s.copied| <= |t.copied|
    requires !t.cpc.Copying? ==> !s.cpc.Copying? && |t.copied| == |s.copied|
    requires forall i :: 0 <= i < |t.pptrs| ==> t.pptrs[i].off <= t.cap
    ensures Published(t)
  {
  }

  lemma {:induction false} FlushPublished(s: State)
    requires Inv(s) && Published(s) && Enabled(s, Flush)
    ensures Published(Apply(s, Flush))
  {
    KeepsPublished(s, Apply(s, Flush));
  }

  lemma {:induction false} OtherPublished(s: State, step: Step)
    requires Published(s) && Enabled(s, step) && !step.Poll? && !step.Publish? && !step.Flush?
    ensures Published(Apply(s, step))
  {
    KeepsPublished(s, Apply(s, step));
  }

  lemma {:induction false} StepPublished(s: State, step: Step)
    requires Inv(s) && Published(s) && Enabled(s, step)
    ensures Published(Apply(s, step))
  {
    match step
    case Poll(k) => PollPublished(s, k);
    case Publish => PublishPublished(s);
    case Flush => FlushPublished(s);
    case _ => OtherPublished(s, step);
  }

  lemma {:induction false} RunPublished(s: State, steps: seq<Step>, t: State)
    requires Inv(s) && Published(s) && Run(s, steps, t)
    ensures Published(t)
    decreases |steps|
  {
    if steps != [] {
      StepInv(s, steps[0]);
      StepPublished(s, steps[0]);
      RunPublished(Apply(s, steps[0]), steps[1..], t);
    }
  }

  lemma {:induction false} ReachablePublished(t: State)
    requires Reachable(t)
    ensures Published(t)
  {
    var s: State, steps: seq<Step> :| IsInitial(s) && Run(s, steps, t);
    InitialInv(s.cap, s.reloadAcquires, s.written, s.cells[|s.written|..]);
    InitialPublished(s);
    RunPublished(s, steps, t);
  }

  lemma {:induction false} InitialPublished(s: State)
    requires IsInitial(s)
    ensures Published(s)
  {
  }

  /** A write overwrites characters of earlier rounds only. Each of them was copied, and then counted
      by a store of m_total_read that the producer acquired: the copies are ordered before the write. */
  lemma {:induction false} OverwritesWhatWasRead(t: State, c: char)
    requires Reachable(t) && Enabled(t, Put(c))
    ensures t.pview.t < |t.totals| && t.totalReset <= t.totals[t.pview.t].total <= |t.copied|
    ensures t.totals[t.pview.t].view.Join(t.pview) == t.pview
    ensures t.pptr < |t.cells| && |t.written| == t.totalReset + t.pptr
    ensures forall i :: 0 <= i < t.pptr ==> Apply(t, Put(c)).cells[i] == t.cells[i] == t.written[t.totalReset + i]
  {
    ReachableInv(t);
    ReachablePublished(t);
  }

  /** The guard as it is on m_last_gptr: equal to pptr, it means that everything was read exactly when
      the loaded value was stored in the present round. */
  lemma {:induction false} LastGptrGuard(t: State, k: nat)
    requires Reachable(t) && k < |t.totals| && t.pptr > 0
    ensures AllRead(t, k) <==> t.totals[k].lastGptr == t.pptr && t.totals[k].total > t.totalReset
  {
    ReachablePublished(t);
  }

  /** Which copies keep the copied characters a prefix of the written ones, whatever they return:
      exactly those that are ordered after their write. */
  lemma {:induction false} CopyKeepsPrefix(t: State)
    requires Reachable(t) && t.cpc.Copying? && t.cpc.todo > 0 && t.copied <= t.written
    ensures t.cpc.first < |t.pptrs|
    ensures (forall c :: Enabled(t, CopyOne(c)) ==> Apply(t, CopyOne(c)).copied <= t.written) <==>
      t.reloadAcquires || t.cpc.first == t.cpc.idx || |t.copied| < t.pptrs[t.cpc.first].Position()
  {
    ReachableInv(t);
    MoreToRead(t, t.cpc.idx);
    StoreBounds(t, t.cpc.idx);
    var right := t.cells[t.gptr];
    var wrong := if right == 'x' then 'y' else 'x';
    CellOf(t, t.gptr);
    RaceCondition(t, right);
    if !Synchronized(t) {
      assert Enabled(t, CopyOne(wrong));
      assert Apply(t, CopyOne(wrong)).copied[|t.copied|] == wrong;
    }
  }

  /** The copied characters are a prefix of the written ones, but for those that were copied
      while racing with their write; with an acquire load on line 47 there are none. */
  lemma {:induction false} CopiesArePrefix(t: State)
    requires Reachable(t)
    ensures t.racy == {} ==> t.copied <= t.written
    ensures t.reloadAcquires ==> t.racy == {}
    ensures |t.copied| <= |t.written|
    ensures forall j :: 0 <= j < |t.copied| && j !in t.racy ==> t.copied[j] == t.written[j]
  {
    ReachableInv(t);
  }

  /** Exactly when the copy of a character is ordered after its write: unless line 47 replaced
      the store that line 42 had acquired by a newer one that holds the character. */
  lemma {:induction false} RaceCondition(t: State, c: char)
    requires Reachable(t) && Enabled(t, CopyOne(c))
    ensures t.cpc.first < |t.pptrs|
    ensures Synchronized(t) <==>
      t.reloadAcquires || t.cpc.first == t.cpc.idx || |t.copied| < t.pptrs[t.cpc.first].Position()
  {
    ReachableInv(t);
    MoreToRead(t, t.cpc.idx);
    StoreBounds(t, t.cpc.idx);
  }

  ghost predicate Latest(t: State, at: real) {
    at in t.flags && forall x :: x in t.flags ==> x <= at
  }

  /** Neither thread is in the middle of an operation, and all writes are flushed. */
  ghost predicate Quiescent(t: State) {
    && t.ppc.Producing? && t.cpc.Idle?
    && |t.pptrs| > 0 && t.pptrs[|t.pptrs| - 1].off == t.pptr
  }

  /** Lines 84 to 86: the data size computed from the last store of m_last_pptr, the last store
      of m_resetting and gptr is what was written minus what was read, also when the consumer
      cleared m_resetting before the producer set it. */
  lemma {:induction false} Accounting(t: State, at: real)
    requires Reachable(t) && Quiescent(t) && Latest(t, at)
    ensures t.pptrs[|t.pptrs| - 1].off - (if t.flags[at].set1 then 0 else t.gptr) == |t.written| - |t.copied|
    ensures t.pptr == |t.written| - t.totalReset
  {
    ReachableInv(t);
    if Pending(t) {
      assert FlagOk(t, at);
      assert at == t.lastReset;
    } else {
      assert at == t.cview.r;
    }
  }

  /** m_resetting always has a last store, so the accounting applies to every quiescent state. */
  lemma {:induction false} LatestExists(t: State)
    requires Reachable(t) && Quiescent(t)
    ensures Latest(t, t.lastReset) || Latest(t, t.cview.r)
  {
    ReachableInv(t);
    forall x | x in t.flags ensures x == t.lastReset || x <= t.cview.r {
      assert FlagOk(t, x);
    }
    if !Latest(t, t.cview.r) {
      assert Pending(t);
    }
  }

  /** The steps of a run can be extended one at a time. */
  lemma {:induction false} RunStep(s: State, steps: seq<Step>, t: State, step: Step)
    requires Run(s, steps, t) && Enabled(t, step)
    ensures Run(s, steps + [step], Apply(t, step))
    decreases |steps|
  {
    if steps == [] {
      assert Run(Apply(s, step), [], Apply(s, step));
      assert ([step])[1..] == [];
    } else {
      RunStep(Apply(s, steps[0]), steps[1..], t, step);
      assert (steps + [step])[1..] == steps[1..] + [step];
    }
  }

  lemma {:induction false} ReachableStep(t: State, step: Step)
    requires Reachable(t) && Enabled(t, step)
    ensures Reachable(Apply(t, step))
  {
    var s: State, steps: seq<Step> :| IsInitial(s) && Run(s, steps, t);
    RunStep(s, steps, t, step);
  }

  lemma {:induction false} ReachableSteps(t: State, a: Step, b: Step)
    requires Reachable(t) && Enabled(t, a) && Enabled(Apply(t, a), b)
    ensures Reachable(Apply(Apply(t, a), b))
  {
    ReachableStep(t, a);
    ReachableStep(Apply(t, a), b);
  }

  /** With the source's relaxed load on line 47 a race can happen: one character was written
      and read, the producer resets and writes 'B', and the consumer, having acquired the old
      pptr, reloads the new one without acquiring the write of 'B'. */
  lemma {:induction false} RelaxedReloadRaces() returns (t: State)
    ensures Reachable(t) && !t.reloadAcquires && t.racy == {1} && !(t.copied <= t.written)
  {
    var v := View(0.0, 0, 0, 1);
    t := Initial(1, false, ['A'], []);
    InitialReachable(t);
    t := RaceReads(t, v);
    t := RaceRewinds(t, v);
    t := RaceRaises(t, v);
    t := RaceWrites(t);
    t := RaceReloads(t, v);
    t := RaceCopies(t);
  }

  /** m_last_gptr alone would not do: after a reset pptr can come to equal its old value, the newest
      there is, although the character written since was not read. */
  lemma {:induction false} LastGptrRepeats() returns (t: State)
    ensures Reachable(t) && t.ppc.Producing? && |t.totals| > 0
    ensures t.totals[|t.totals| - 1].lastGptr == t.pptr > 0 && |t.copied| < |t.written|
  {
    var v := View(0.0, 0, 0, 1);
    t := Initial(1, false, ['A'], []);
    InitialReachable(t);
    t := RaceRewinds(t, v);
    t := RaceRaises(t, v);
    t := RaceWrites(t);
  }

  lemma {:induction false} InitialReachable(s: State)
    requires IsInitial(s)
    ensures Reachable(s)
  {
    assert Run(s, [], s);
  }

  lemma {:induction false} RaceReads(s: State, v: View) returns (t: State)
    requires v == View(0.0, 0, 0, 1) && s == Initial(1, false, ['A'], []) && Reachable(s)
    ensures Reachable(t) && t == s.(cpc := SawPptr(0))
  {
    ReachableSteps(s, LoadFlag(0.0), LoadPptr(0));
    t := Apply(Apply(s, LoadFlag(0.0)), LoadPptr(0));
  }

  lemma {:induction false} RaceRewinds(s: State, v: View) returns (t: State)
    requires v == View(0.0, 0, 0, 1) && Reachable(s) && s.ppc.Producing?
    requires s.pview == v && s.pptr == 1 && s.totalReset == 0
    requires s.totals == [TotalStore(1, 1, v)] && s.pptrs == [PptrStore(1, 0, v)]
    ensures Reachable(t)
    ensures t == s.(pptrs := [PptrStore(1, 0, v), PptrStore(0, 1, View(0.0, 1, 0, 0))],
                    pview := View(0.0, 1, 0, 1), pptr := 0, totalReset := 1, ppc := Rewound)
  {
    ReachableStep(s, Poll(0));
    t := Apply(s, Poll(0));
  }

  lemma {:induction false} RaceRaises(s: State, v: View) returns (t: State)
    requires v == View(0.0, 0, 0, 1) && Reachable(s) && s.ppc.Rewound?
    requires s.pview == View(0.0, 1, 0, 1) && s.flags == map[0.0 := FlagStore(false, v)]
    ensures Reachable(t)
    ensures t == s.(flags := map[0.0 := FlagStore(false, v), 1.0 := FlagStore(true, View(1.0, 1, 0, 1))],
                    pview := View(1.0, 1, 0, 1), ppc := Producing, lastReset := 1.0)
  {
    ReachableStep(s, RaiseFlag(1.0));
    t := Apply(s, RaiseFlag(1.0));
  }

  lemma {:induction false} RaceWrites(s: State) returns (t: State)
    requires Reachable(s) && s.ppc.Producing? && s.pptr == 0 && s.cap == 1 && |s.cells| == 1
    requires s.pview == View(1.0, 1, 0, 1) && |s.pptrs| == 2 && s.totalReset == 1
    ensures Reachable(t)
    ensures t == s.(pptrs := s.pptrs + [PptrStore(1, 1, View(1.0, 2, 0, 2))], pview := View(1.0, 2, 0, 2),
                    pptr := 1, cells := ['B'], written := s.written + ['B'])
  {
    ReachableSteps(s, Put('B'), Flush);
    t := Apply(Apply(s, Put('B')), Flush);
  }

  lemma {:induction false} RaceReloads(s: State, v: View) returns (t: State)
    requires Reachable(s) && v == View(0.0, 0, 0, 1) && s.cpc == SawPptr(0) && s.cview == v && !s.reloadAcquires
    requires s.flags == map[0.0 := FlagStore(false, v), 1.0 := FlagStore(true, View(1.0, 1, 0, 1))]
    requires |s.pptrs| == 3 && s.pptrs[2].base == 1
    ensures Reachable(t)
    ensures t == s.(flags := t.flags, cview := View(2.0, 2, 0, 1), cpc := Decided(false, 2, 0), gptr := 0, readBase := 1)
  {
    ReachableSteps(s, LoadFlagAgain(1.0), Reload(2));
    t := Apply(Apply(s, LoadFlagAgain(1.0)), Reload(2));
    ReachableStep(t, Clear(2.0));
    t := Apply(t, Clear(2.0));
  }

  lemma {:induction false} RaceCopies(s: State) returns (t: State)
    requires Reachable(s) && s.cpc == Decided(false, 2, 0) && s.cview.w == 1 && s.readBase == 1 && s.gptr == 0
    requires |s.pptrs| == 3 && s.pptrs[2].off == 1 && |s.cells| == 1
    requires s.written == ['A', 'B'] && s.copied == ['A'] && s.racy == {} && !s.reloadAcquires
    ensures Reachable(t) && !t.reloadAcquires && t.racy == {1} && !(t.copied <= t.written)
  {
    ReachableSteps(s, Begin(1), CopyOne('X'));
    t := Apply(Apply(s, Begin(1)), CopyOne('X'));
    assert t.written[1] == 'B' && t.copied[1] == 'X';
  }
}
