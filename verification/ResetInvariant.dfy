/** The inductive invariant of the reset handshake, and its proof step by step. */
module ResetInvariant {
  import opened ResetHandshake

  ghost predicate Inv(s: State) {
    && Storage(s)
    && Indices(s)
    && Histories(s)
    && ResetState(s)
    && ConsumerOk(s)
  }

  /** The consumer still reads the block as it was before the latest reset. */
  ghost predicate Behind(s: State) { s.readBase < s.totalReset }

  ghost predicate Storage(s: State) {
    && s.pptr <= s.cap && |s.cells| == s.cap
    && |s.written| == s.totalReset + s.pptr && s.pview.w == |s.written|
    && (forall i :: 0 <= i < s.pptr ==> s.cells[i] == s.written[s.totalReset + i])
    && |s.copied| == s.readBase + s.gptr && |s.copied| <= |s.written|
    && s.readBase <= s.totalReset
    && (Behind(s) ==> |s.copied| == s.totalReset)
    && (forall j :: 0 <= j < |s.copied| && j !in s.racy ==> s.copied[j] == s.written[j])
    && (forall j :: j in s.racy ==> j < |s.copied|)
    && (s.reloadAcquires ==> s.racy == {})
  }

  ghost predicate Indices(s: State) {
    && 0 < |s.pptrs| && s.pview.p == |s.pptrs| - 1 && s.cview.p < |s.pptrs|
    && 0 < |s.totals| && s.cview.t == |s.totals| - 1 && s.pview.t < |s.totals|
    && s.pview.r in s.flags && s.cview.r in s.flags
    && s.pptrs[|s.pptrs| - 1].base == s.totalReset && s.pptrs[|s.pptrs| - 1].off <= s.pptr
  }

  ghost predicate Histories(s: State)
    requires Indices(s)
  {
    && (forall i :: 0 <= i < |s.pptrs| ==> StoreOk(s, i))
    && (forall i, j :: 0 <= i < j < |s.pptrs| ==> Ordered(s, i, j))
    && (forall k :: 0 <= k < |s.totals| ==> TotalOk(s, k))
    && (forall at :: at in s.flags ==> FlagOk(s, at))
  }

  ghost predicate Ordered(s: State, i: nat, j: nat)
    requires i < |s.pptrs| && j < |s.pptrs|
  {
    var a, b := s.pptrs[i], s.pptrs[j];
    && a.base <= b.base
    && (a.base == b.base ==> a.off <= b.off)
    && (a.base < b.base ==> a.Position() <= b.base)
  }

  /** Whoever sees characters of the current round through m_last_pptr also sees its reset. */
  ghost predicate StoreOk(s: State, i: nat)
    requires i < |s.pptrs|
  {
    var m := s.pptrs[i];
    && m.view.p == i && m.view.t < |s.totals|
    && (m.view.r in s.flags || m.view.r == 0.0)
    && (m.base == s.totalReset && m.off > 0 ==> s.ppc.Producing? && s.lastReset <= m.view.r)
    && m.view.w <= m.Position() && (m.off > 0 ==> m.view.w == m.Position())
    && (m.view.r <= s.cview.r || m.view.r == s.lastReset)
  }

  /** Whoever sees that characters of the current round were read, sees every m_resetting store. */
  ghost predicate TotalOk(s: State, k: nat)
    requires k < |s.totals|
  {
    var m := s.totals[k];
    && m.view.p < |s.pptrs| && m.view.t == k && m.view.r in s.flags
    && m.total <= |s.copied| && m.view.w <= |s.written|
    && (m.total > s.totalReset ==> forall at :: at in s.flags ==> at <= m.view.r)
  }

  ghost predicate FlagOk(s: State, at: real)
    requires at in s.flags && 0 < |s.pptrs|
  {
    var m := s.flags[at];
    && 0.0 <= at && m.view.r == at && (if m.set1 then m.view.p < |s.pptrs| else m.view.p == 0) && m.view.t < |s.totals|
    && (at == s.lastReset || (at <= s.cview.r && (m.set1 ==> at < s.cview.r)))
    && m.view.w <= Max(s.totalReset, s.pptrs[0].Position())
  }

  /** The consumer knows every store to m_resetting, and cannot load a 1 any more. */
  ghost predicate Acknowledged(s: State) {
    forall at :: at in s.flags ==> at <= s.cview.r && (s.flags[at].set1 ==> at < s.cview.r)
  }

  /** The latest 1 can still be loaded, and nothing of its round was read. */
  ghost predicate Pending(s: State)
  {
    && s.lastReset in s.flags && s.flags[s.lastReset].set1
    && s.cview.r <= s.lastReset
    && s.flags[s.lastReset].view.w == s.totalReset
    && s.flags[s.lastReset].view.p < |s.pptrs|
    && s.pptrs[s.flags[s.lastReset].view.p].base == s.totalReset
    && (!Behind(s) ==> s.gptr == 0)
  }

  ghost predicate ResetState(s: State) {
    if s.ppc.Rewound? then
      && s.pptr == 0 && Acknowledged(s)
      && (Behind(s) ==> forall at :: at in s.flags ==> at <= s.pview.r)
    else
      && s.lastReset <= s.pview.r
      && ((Acknowledged(s) && !Behind(s)) || Pending(s))
  }

  /** cur_pptr is a store of the round the consumer reads. */
  ghost predicate SameRound(s: State, idx: nat) {
    idx < |s.pptrs| && s.pptrs[idx].base == s.readBase && s.gptr <= s.pptrs[idx].off
  }

  /** cur_pptr is a store of the latest round, of which nothing was read. */
  ghost predicate NewRound(s: State, idx: nat) {
    && idx < |s.pptrs| && s.pptrs[idx].base == s.totalReset
    && (Behind(s) || s.gptr == 0)
  }

  /** What the consumer's view covers after it decided on cur_pptr. */
  ghost predicate Covers(s: State, idx: nat, first: nat)
    requires first <= idx < |s.pptrs|
  {
    if first == idx || s.reloadAcquires then s.pptrs[idx].off > 0 ==> s.pptrs[idx].Position() <= s.cview.w
    else s.cview.w == Max(s.pptrs[first].Position(), s.pptrs[idx].base)
  }

  ghost predicate ConsumerOk(s: State)
    requires Indices(s)
  {
    && s.cview.w <= Max(s.pptrs[s.cview.p].Position(), s.totalReset)
    && match s.cpc
       case Idle => SameRound(s, s.cview.p)
       case SawFlag(resetting) =>
         if resetting then Pending(s) && s.ppc.Producing? && s.cview.r == s.lastReset
                           && NewRound(s, s.cview.p) && s.totalReset <= s.cview.w
         else SameRound(s, s.cview.p)
       case SawPptr(idx) =>
         && s.cview.p == idx
         && (SameRound(s, idx) || (NewRound(s, idx) && s.pptrs[idx].off > 0))
         && (s.pptrs[idx].base == s.totalReset && s.pptrs[idx].off > 0 ==> s.lastReset <= s.cview.r)
         && (s.pptrs[idx].off > 0 ==> s.pptrs[idx].Position() <= s.cview.w)
       case SawLateReset(first) =>
         && Pending(s) && s.ppc.Producing? && s.cview.r == s.lastReset
         && NewRound(s, s.cview.p) && first <= s.cview.p
         && s.cview.w == Max(s.pptrs[first].Position(), s.totalReset)
       case Decided(resetting, idx, first) =>
         && s.cview.p == idx && first <= idx && Covers(s, idx, first)
         && if resetting
            then NewRound(s, idx) && (s.pptrs[idx].off > 0 ==> s.ppc.Producing? && s.lastReset <= s.cview.r)
            else SameRound(s, idx) && (s.gptr < s.pptrs[idx].off ==> Acknowledged(s))
       case Copying(idx, first, todo) =>
         && s.cview.p == idx && first <= idx && Covers(s, idx, first)
         && SameRound(s, idx) && s.gptr + todo <= s.pptrs[idx].off
         && (todo > 0 ==> Acknowledged(s))
  }

  lemma {:induction false} InitialInv(cap: nat, reloadAcquires: bool, data: seq<char>, rest: seq<char>)
    requires |data| + |rest| == cap
    ensures Inv(Initial(cap, reloadAcquires, data, rest))
  {
  }

  /** While the consumer is behind, its round holds nothing beyond what it has read. */
  lemma {:induction false} NothingLeftBehind(s: State, idx: nat)
    requires Inv(s) && SameRound(s, idx) && Behind(s)
    ensures s.pptrs[idx].off == s.gptr
  {
    assert Ordered(s, idx, |s.pptrs| - 1);
  }

  /** The guard of a reset holds only when the consumer acknowledged the previous one. */
  lemma {:induction false} AllReadMeansAcknowledged(s: State, k: nat)
    requires Inv(s) && Enabled(s, Poll(k)) && AllRead(s, k)
    ensures |s.copied| == |s.written| && !Behind(s) && s.gptr == s.pptr
    ensures Acknowledged(s) && forall at :: at in s.flags ==> at <= s.totals[k].view.r
    ensures s.cpc.Copying? ==> s.cpc.todo == 0
  {
    assert TotalOk(s, k);
    if s.cpc.Copying? {
      StoreBounds(s, s.cpc.idx);
    }
  }

  /** No store of m_last_pptr is past what was written. */
  lemma {:induction false} StoreBounds(s: State, i: nat)
    requires Inv(s) && i < |s.pptrs|
    ensures s.pptrs[i].base <= s.totalReset && s.pptrs[i].Position() <= |s.written|
  {
    if i < |s.pptrs| - 1 {
      assert Ordered(s, i, |s.pptrs| - 1);
    }
  }

  lemma {:induction false} Monotone(s: State, i: nat, j: nat)
    requires Inv(s) && i <= j < |s.pptrs|
    ensures s.pptrs[i].base <= s.pptrs[j].base <= s.totalReset
    ensures s.pptrs[i].Position() <= s.pptrs[j].Position()
    ensures s.pptrs[i].base < s.pptrs[j].base ==> s.pptrs[i].Position() <= s.pptrs[j].base
  {
    StoreBounds(s, j);
    if i < j {
      assert Ordered(s, i, j);
    }
  }

  /** A store of the consumer's round that holds more than it has read belongs to the latest
      round, and its reset is known. */
  lemma {:induction false} MoreToRead(s: State, idx: nat)
    requires Inv(s) && SameRound(s, idx) && s.gptr < s.pptrs[idx].off
    ensures !Behind(s) && s.ppc.Producing? && s.lastReset <= s.pptrs[idx].view.r
  {
    if Behind(s) {
      NothingLeftBehind(s, idx);
    }
    assert StoreOk(s, idx);
  }

  /** Loading m_resetting: a 0 teaches nothing; a 1 is the pending one, and shows the rewound pptr. */
  lemma {:induction false} LoadedFlag(s: State, at: real)
    requires Inv(s) && at in s.flags && s.cview.r <= at
    ensures var v := s.cview.(r := at).Join(s.flags[at].view);
      && v.r == at && v.t == s.cview.t && s.cview.p <= v.p < |s.pptrs|
      && v.w <= Max(s.pptrs[v.p].Position(), s.totalReset)
      && (s.flags[at].set1 ==>
            && Pending(s) && s.ppc.Producing? && at == s.lastReset && NewRound(s, v.p)
            && v.w == Max(s.cview.w, s.totalReset))
      && (!s.flags[at].set1 ==> v.p == s.cview.p && (Pending(s) ==> at == s.cview.r < s.lastReset))
  {
    var v := s.cview.(r := at).Join(s.flags[at].view);
    assert FlagOk(s, at);
    Monotone(s, s.cview.p, v.p);
    Monotone(s, 0, v.p);
    if s.flags[at].set1 {
      assert Pending(s);
      Monotone(s, s.flags[at].view.p, v.p);
    }
  }

  /** The histories stay in order when the stores already there are kept. */
  ghost predicate Kept(s: State, t: State) {
    && s.pptrs <= t.pptrs && s.totals <= t.totals
    && |s.copied| <= |t.copied| && |s.written| <= |t.written|
    && (forall at :: at in s.flags ==> at in t.flags && t.flags[at] == s.flags[at])
    && s.cview.r <= t.cview.r
    && t.totalReset == s.totalReset && t.lastReset == s.lastReset && t.ppc == s.ppc
  }

  lemma {:induction false} KeptStores(s: State, t: State)
    requires Inv(s) && Kept(s, t)
    ensures forall i :: 0 <= i < |s.pptrs| ==> StoreOk(t, i)
    ensures forall i, j :: 0 <= i < j < |s.pptrs| ==> Ordered(t, i, j)
    ensures forall at :: at in s.flags ==> FlagOk(t, at)
    ensures forall k :: 0 <= k < |s.totals| && (s.totals[k].total <= s.totalReset || t.flags == s.flags) ==> TotalOk(t, k)
  {
    forall i | 0 <= i < |s.pptrs| ensures StoreOk(t, i) {
      assert StoreOk(s, i);
    }
    forall i, j | 0 <= i < j < |s.pptrs| ensures Ordered(t, i, j) {
      assert Ordered(s, i, j);
    }
    forall at | at in s.flags ensures FlagOk(t, at) {
      assert FlagOk(s, at);
    }
    forall k | 0 <= k < |s.totals| && (s.totals[k].total <= s.totalReset || t.flags == s.flags) ensures TotalOk(t, k) {
      assert TotalOk(s, k);
    }
  }

  /** Loads of the consumer change its view and program counter only. */
  lemma {:induction false} LoadsKeep(s: State, v: View, pc: ConsumerPc)
    requires Inv(s) && s.cview.r <= v.r && v.r in s.flags && v.p < |s.pptrs| && v.t == s.cview.t
    requires Pending(s) ==> v.r <= s.lastReset
    ensures var t := s.(cview := v, cpc := pc);
      Storage(t) && Indices(t) && Histories(t) && ResetState(t)
  {
    var t := s.(cview := v, cpc := pc);
    KeptStores(s, t);
    if Acknowledged(s) {
      assert v.r == s.cview.r;
    }
  }

  /** An unacknowledged m_resetting store can only be the pending one. */
  lemma {:induction false} ViewOfStore(s: State, k: nat)
    requires Inv(s) && k < |s.pptrs|
    ensures s.pptrs[k].view.r <= s.cview.r || (Pending(s) && s.pptrs[k].view.r == s.lastReset)
  {
    assert StoreOk(s, k);
  }

  /** Writing and flushing leave the consumer as it is. */
  lemma {:induction false} ConsumerKept(s: State, t: State)
    requires Indices(s) && ResetState(s) && ConsumerOk(s)
    requires Indices(t) && s.pptrs <= t.pptrs && t.flags == s.flags
    requires t.cpc == s.cpc && t.cview == s.cview && t.gptr == s.gptr && t.readBase == s.readBase
    requires t.ppc == s.ppc && t.totalReset == s.totalReset && t.lastReset == s.lastReset
    requires t.reloadAcquires == s.reloadAcquires && s.pview.r <= t.pview.r
    requires t.pptr == s.pptr || t.ppc.Producing?
    ensures ResetState(t) && ConsumerOk(t)
  {
  }

  lemma {:induction false} PutInv(s: State, c: char)
    requires Inv(s) && Enabled(s, Put(c))
    ensures Inv(Apply(s, Put(c)))
  {
    KeptStores(s, Apply(s, Put(c)));
    ConsumerKept(s, Apply(s, Put(c)));
  }

  lemma {:induction false} FlushInv(s: State)
    requires Inv(s) && Enabled(s, Flush)
    ensures Inv(Apply(s, Flush))
  {
    FlushHistories(s);
    ConsumerKept(s, Apply(s, Flush));
  }

  lemma {:induction false} FlushHistories(s: State)
    requires Inv(s) && Enabled(s, Flush)
    ensures Indices(Apply(s, Flush)) && Histories(Apply(s, Flush))
  {
    var t := Apply(s, Flush);
    KeptStores(s, t);
    var n := |s.pptrs|;
    assert FlagOk(s, s.pview.r);
    assert StoreOk(t, n);
    forall i | 0 <= i < n ensures Ordered(t, i, n) {
      Monotone(s, i, n - 1);
    }
  }

  lemma {:induction false} PollInv(s: State, k: nat)
    requires Inv(s) && Enabled(s, Poll(k))
    ensures Inv(Apply(s, Poll(k)))
  {
    if AllRead(s, k) {
      RewindStorage(s, k);
      RewindHistories(s, k);
      RewindConsumer(s, k);
    } else {
      PollOnlyInv(s, k);
    }
  }

  lemma {:induction false} PollOnlyInv(s: State, k: nat)
    requires Inv(s) && Enabled(s, Poll(k)) && !AllRead(s, k)
    ensures Inv(Apply(s, Poll(k)))
  {
    assert TotalOk(s, k);
    KeptStores(s, Apply(s, Poll(k)));
    ConsumerKept(s, Apply(s, Poll(k)));
  }

  lemma {:induction false} RewindStorage(s: State, k: nat)
    requires Inv(s) && Enabled(s, Poll(k)) && AllRead(s, k)
    ensures Storage(Apply(s, Poll(k))) && ResetState(Apply(s, Poll(k)))
  {
    assert TotalOk(s, k);
    AllReadMeansAcknowledged(s, k);
  }

  lemma {:induction false} RewindConsumer(s: State, k: nat)
    requires Inv(s) && Enabled(s, Poll(k)) && AllRead(s, k)
    ensures Indices(Apply(s, Poll(k))) ==> ConsumerOk(Apply(s, Poll(k)))
  {
    AllReadMeansAcknowledged(s, k);
    Monotone(s, s.cview.p, s.cview.p);
  }

  lemma {:induction false} RewindHistories(s: State, k: nat)
    requires Inv(s) && Enabled(s, Poll(k)) && AllRead(s, k)
    ensures Indices(Apply(s, Poll(k))) && Histories(Apply(s, Poll(k)))
  {
    var t := Apply(s, Poll(k));
    var n := |s.pptrs|;
    assert TotalOk(s, k);
    forall i | 0 <= i < n ensures StoreOk(t, i) && Ordered(t, i, n) {
      assert StoreOk(s, i);
      StoreBounds(s, i);
    }
    assert StoreOk(t, n);
    forall i, j | 0 <= i < j < n ensures Ordered(t, i, j) {
      assert Ordered(s, i, j);
    }
    forall at | at in t.flags ensures FlagOk(t, at) {
      assert FlagOk(s, at);
    }
    forall m | 0 <= m < |t.totals| ensures TotalOk(t, m) {
      assert TotalOk(s, m);
    }
  }

  lemma {:induction false} RaiseFlagInv(s: State, at: real)
    requires Inv(s) && Enabled(s, RaiseFlag(at))
    ensures Inv(Apply(s, RaiseFlag(at)))
  {
    var t := Apply(s, RaiseFlag(at));
    RaiseHistories(s, at);
    assert StoreOk(s, s.cview.p);
    if SameRound(s, s.cview.p) && s.gptr < s.pptrs[s.cview.p].off {
      MoreToRead(s, s.cview.p);
    }
  }

  lemma {:induction false} RaiseHistories(s: State, at: real)
    requires Inv(s) && Enabled(s, RaiseFlag(at))
    ensures Indices(Apply(s, RaiseFlag(at))) && Histories(Apply(s, RaiseFlag(at)))
  {
    var t := Apply(s, RaiseFlag(at));
    forall i | 0 <= i < |t.pptrs| ensures StoreOk(t, i) {
      assert StoreOk(s, i);
    }
    forall i, j | 0 <= i < j < |t.pptrs| ensures Ordered(t, i, j) {
      assert Ordered(s, i, j);
    }
    forall x | x in t.flags ensures FlagOk(t, x) {
      if x in s.flags {
        assert FlagOk(s, x);
      }
    }
    forall m | 0 <= m < |t.totals| ensures TotalOk(t, m) {
      assert TotalOk(s, m);
    }
  }

  lemma {:induction false} LoadFlagInv(s: State, at: real)
    requires Inv(s) && Enabled(s, LoadFlag(at))
    ensures Inv(Apply(s, LoadFlag(at)))
  {
    var t := Apply(s, LoadFlag(at));
    LoadedFlag(s, at);
    LoadsKeep(s, t.cview, t.cpc);
  }

  lemma {:induction false} LoadPptrInv(s: State, k: nat)
    requires Inv(s) && Enabled(s, LoadPptr(k))
    ensures Inv(Apply(s, LoadPptr(k)))
  {
    var t := Apply(s, LoadPptr(k));
    assert StoreOk(s, k);
    Monotone(s, s.cview.p, k);
    ViewOfStore(s, k);
    LoadsKeep(s, t.cview, t.cpc);
  }

  /** A second 0 means that cur_pptr was stored before the pending reset, or that the reset is
      already acknowledged. */
  lemma {:induction false} NotResetting(s: State, at: real)
    requires Inv(s) && Enabled(s, LoadFlagAgain(at)) && !s.flags[at].set1
    ensures SameRound(s, s.cpc.idx)
    ensures s.gptr < s.pptrs[s.cpc.idx].off ==> Acknowledged(s)
  {
    LoadedFlag(s, at);
    assert StoreOk(s, s.cpc.idx);
    if SameRound(s, s.cpc.idx) && s.gptr < s.pptrs[s.cpc.idx].off {
      MoreToRead(s, s.cpc.idx);
    }
  }

  lemma {:induction false} SecondLoadZero(s: State, at: real)
    requires Inv(s) && Enabled(s, LoadFlagAgain(at)) && !s.flags[at].set1
    ensures Indices(Apply(s, LoadFlagAgain(at))) && ConsumerOk(Apply(s, LoadFlagAgain(at)))
  {
    LoadedFlag(s, at);
    NotResetting(s, at);
  }

  lemma {:induction false} SecondLoadOne(s: State, at: real)
    requires Inv(s) && Enabled(s, LoadFlagAgain(at)) && s.flags[at].set1
    ensures Indices(Apply(s, LoadFlagAgain(at))) && ConsumerOk(Apply(s, LoadFlagAgain(at)))
  {
    LoadedFlag(s, at);
  }

  lemma {:induction false} LoadFlagAgainInv(s: State, at: real)
    requires Inv(s) && Enabled(s, LoadFlagAgain(at))
    ensures Inv(Apply(s, LoadFlagAgain(at)))
  {
    var t := Apply(s, LoadFlagAgain(at));
    LoadedFlag(s, at);
    LoadsKeep(s, t.cview, t.cpc);
    if s.flags[at].set1 {
      SecondLoadOne(s, at);
    } else {
      SecondLoadZero(s, at);
    }
  }

  lemma {:induction false} ReloadInv(s: State, k: nat)
    requires Inv(s) && Enabled(s, Reload(k))
    ensures Inv(Apply(s, Reload(k)))
  {
    var t := Apply(s, Reload(k));
    assert StoreOk(s, k);
    Monotone(s, s.cview.p, k);
    Monotone(s, s.cpc.first, k);
    ViewOfStore(s, k);
    LoadsKeep(s, t.cview, t.cpc);
  }

  lemma {:induction false} ClearInv(s: State, at: real)
    requires Inv(s) && Enabled(s, Clear(at))
    ensures Inv(Apply(s, Clear(at)))
  {
    var t := Apply(s, Clear(at));
    ClearHistories(s, at);
    forall x | x in s.flags ensures x == s.lastReset || x < at {
      assert FlagOk(s, x);
    }
    assert s.lastReset < at ==> Acknowledged(t);
  }

  lemma {:induction false} ClearHistories(s: State, at: real)
    requires Inv(s) && Enabled(s, Clear(at))
    ensures Indices(Apply(s, Clear(at))) && Histories(Apply(s, Clear(at)))
  {
    var t := Apply(s, Clear(at));
    KeptStores(s, t);
    forall k | 0 <= k < |t.totals| ensures TotalOk(t, k) {
      assert TotalOk(s, k);
    }
  }

  lemma {:induction false} BeginInv(s: State, n: nat)
    requires Inv(s) && Enabled(s, Begin(n))
    ensures Inv(Apply(s, Begin(n)))
  {
    var t := Apply(s, Begin(n));
    LoadsKeep(s, t.cview, t.cpc);
  }

  lemma {:induction false} CopyOneStorage(s: State, c: char)
    requires Inv(s) && Enabled(s, CopyOne(c))
    ensures Storage(Apply(s, CopyOne(c)))
  {
    MoreToRead(s, s.cpc.idx);
    StoreBounds(s, s.cpc.idx);
  }

  lemma {:induction false} CopyOneInv(s: State, c: char)
    requires Inv(s) && Enabled(s, CopyOne(c))
    ensures Inv(Apply(s, CopyOne(c)))
  {
    CopyOneStorage(s, c);
    MoreToRead(s, s.cpc.idx);
    KeptStores(s, Apply(s, CopyOne(c)));
  }

  lemma {:induction false} PublishHistories(s: State)
    requires Inv(s) && Enabled(s, Publish)
    ensures Indices(Apply(s, Publish)) && Histories(Apply(s, Publish))
  {
    var t := Apply(s, Publish);
    KeptStores(s, t);
    StoreBounds(s, s.cview.p);
    assert TotalOk(t, |s.totals|);
  }

  lemma {:induction false} PublishInv(s: State)
    requires Inv(s) && Enabled(s, Publish)
    ensures Inv(Apply(s, Publish))
  {
    PublishHistories(s);
  }
}
