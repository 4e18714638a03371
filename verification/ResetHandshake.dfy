/**
 The lock-free buffer reset of src/genmc_reset_algo.c, run for any number of resets
 and consumer passes, under release/acquire memory semantics.

 Each atomic variable keeps the history of its stores, each thread keeps a view of the
 histories (the oldest store it may still load), and a release store carries its thread's
 view to whoever loads it with acquire. A load may return any store that is not older than
 the loading thread's view. `m_last_pptr` and `m_total_read` have one writer each, so their
 histories are sequences. Both threads store to `m_resetting`, so its modification order is
 a set of real numbered moments: the consumer's store of 0 may land before or after the
 producer's store of 1, whichever of the two was executed first.
 */
module ResetHandshake {

  /** The newest store of m_resetting (r), m_last_pptr (p) and m_total_read (t) known to a
      thread, and the number of written characters whose plain stores happened before (w). */
  datatype View = View(r: real, p: nat, t: nat, w: nat) {
    function Join(o: View): View {
      View(if r < o.r then o.r else r, Max(p, o.p), Max(t, o.t), Max(w, o.w))
    }
  }

  function Max(a: nat, b: nat): nat { if a < b then b else a }

  datatype FlagStore = FlagStore(set1: bool, view: View)

  /** A store to m_last_pptr: the offset into the block, and the number of characters that
      had been written when the block was last rewound (m_total_reset). */
  datatype PptrStore = PptrStore(off: nat, base: nat, view: View) {
    function Position(): nat { base + off }
  }

  /** A store to m_total_read, and the value of m_last_gptr that was stored just before. */
  datatype TotalStore = TotalStore(total: nat, lastGptr: nat, view: View)

  /** Rewound: m_last_pptr = 0 was stored, m_resetting = 1 not yet. */
  datatype ProducerPc = Producing | Rewound

  /** Where the consumer is in its pass. `idx` is the store of m_last_pptr held in cur_pptr,
      `first` the one that line 42 returned. */
  datatype ConsumerPc =
    | Idle
    | SawFlag(resetting: bool)
    | SawPptr(idx: nat)
    | SawLateReset(first: nat)
    | Decided(resetting: bool, idx: nat, first: nat)
    | Copying(idx: nat, first: nat, todo: nat)

  datatype State = State(
    cap: nat,                     // the size of the memory block
    reloadAcquires: bool,         // the memory order of line 47; the source says relaxed (false)
    flags: map<real, FlagStore>,  // m_resetting
    pptrs: seq<PptrStore>,        // m_last_pptr
    totals: seq<TotalStore>,      // m_total_read
    ppc: ProducerPc, pview: View, pptr: nat, totalReset: nat,
    cpc: ConsumerPc, cview: View, gptr: nat, readBase: nat,
    cells: seq<char>,
    written: seq<char>,           // every character written so far
    copied: seq<char>,            // every character the consumer copied out
    racy: set<nat>,               // positions copied while racing with the write
    lastReset: real)              // the moment of the latest m_resetting = 1

  /** The threads start after `data` was written and read. Three of the values are the
      source's: 5 written, 5 read, not resetting. An empty buffer is the other test's start. */
  function Initial(cap: nat, reloadAcquires: bool, data: seq<char>, rest: seq<char>): State
    requires |data| + |rest| == cap
  {
    var v := View(0.0, 0, 0, |data|);
    State(cap, reloadAcquires,
          map[0.0 := FlagStore(false, v)], [PptrStore(|data|, 0, v)], [TotalStore(|data|, |data|, v)],
          Producing, v, |data|, 0, Idle, v, |data|, 0,
          data + rest, data, data, {}, 0.0)
  }

  datatype Step =
    | Put(c: char)                // *pptr_val = c; pbump(1)
    | Flush                       // m_last_pptr = pptr, release
    | Poll(k: nat)                // load m_total_read (acquire); when all is read, store m_last_pptr = 0 (relaxed)
    | RaiseFlag(at: real)         // m_resetting = 1, release
    | LoadFlag(at: real)          // line 41
    | LoadPptr(k: nat)            // lines 42 and 43
    | LoadFlagAgain(at: real)     // line 44
    | Reload(k: nat)              // lines 46 and 47
    | Clear(at: real)             // lines 62 and 63
    | Begin(n: nat)               // start copying at most n of the available characters
    | CopyOne(c: char)
    | Publish                     // m_total_read, release

  ghost predicate Enabled(s: State, step: Step) {
    match step
    case Put(c) => s.ppc.Producing? && s.pptr < s.cap && |s.cells| == s.cap
    case Flush => s.ppc.Producing?
    case Poll(k) => s.ppc.Producing? && s.pview.t <= k < |s.totals|
    case RaiseFlag(at) => s.ppc.Rewound? && s.pview.r < at && at !in s.flags
    case LoadFlag(at) => s.cpc.Idle? && at in s.flags && s.cview.r <= at
    case LoadPptr(k) => s.cpc.SawFlag? && s.cview.p <= k < |s.pptrs|
    case LoadFlagAgain(at) => s.cpc.SawPptr? && at in s.flags && s.cview.r <= at
    case Reload(k) => s.cpc.SawLateReset? && s.cview.p <= k < |s.pptrs|
    case Clear(at) => s.cpc.Decided? && s.cpc.resetting && s.cpc.idx < |s.pptrs| && s.cview.r < at && at !in s.flags
    case Begin(n) => s.cpc.Decided? && !s.cpc.resetting && s.cpc.idx < |s.pptrs|
    case CopyOne(c) =>
      && s.cpc.Copying? && s.cpc.todo > 0 && s.gptr < |s.cells|
      && (Synchronized(s) ==> c == s.cells[s.gptr])
    case Publish => s.cpc.Copying? && s.cpc.todo == 0
  }

  /** The write of the next character to be copied happened before the copy. Otherwise the two
      plain accesses race, and the copy may return anything. */
  predicate Synchronized(s: State) {
    s.readBase + s.gptr < s.cview.w
  }

  /** All that was written has been read: the state that lines 16 to 18 start from. */
  predicate AllRead(s: State, k: nat)
    requires k < |s.totals|
  {
    s.pptr > 0 && s.totals[k].total == s.totalReset + s.pptr
  }

  function Apply(s: State, step: Step): State
    requires Enabled(s, step)
  {
    match step
    case Put(c) =>
      s.(cells := s.cells[s.pptr := c], pptr := s.pptr + 1, written := s.written + [c],
         pview := s.pview.(w := s.pview.w + 1))
    case Flush =>
      var v := s.pview.(p := |s.pptrs|);
      s.(pptrs := s.pptrs + [PptrStore(s.pptr, s.totalReset, v)], pview := v)
    case Poll(k) =>
      var s' := s.(pview := s.pview.(t := k).Join(s.totals[k].view));
      if AllRead(s, k) then
        var base := s.totalReset + s.pptr;
        s'.(pptrs := s.pptrs + [PptrStore(0, base, View(0.0, |s.pptrs|, 0, 0))],
            pview := s'.pview.(p := |s.pptrs|),
            pptr := 0, totalReset := base, ppc := Rewound)
      else
        s'
    case RaiseFlag(at) =>
      var v := s.pview.(r := at);
      s.(flags := s.flags[at := FlagStore(true, v)], pview := v, ppc := Producing, lastReset := at)
    case LoadFlag(at) =>
      s.(cview := s.cview.(r := at).Join(s.flags[at].view), cpc := SawFlag(s.flags[at].set1))
    case LoadPptr(k) =>
      s.(cview := s.cview.(p := k).Join(s.pptrs[k].view),
         cpc := if s.cpc.resetting || (s.pptrs[k].off == 0 && s.gptr != 0) then Decided(true, k, k) else SawPptr(k))
    case LoadFlagAgain(at) =>
      var s' := s.(cview := s.cview.(r := at).Join(s.flags[at].view));
      if s.flags[at].set1 then s'.(cpc := SawLateReset(s.cpc.idx))
      else s'.(cpc := Decided(false, s.cpc.idx, s.cpc.idx))
    case Reload(k) =>
      var v := s.cview.(p := k);
      s.(cview := if s.reloadAcquires then v.Join(s.pptrs[k].view) else v, cpc := Decided(true, k, s.cpc.first))
    case Clear(at) =>
      s.(flags := s.flags[at := FlagStore(false, View(at, 0, 0, 0))], cview := s.cview.(r := at),
         gptr := 0, readBase := s.pptrs[s.cpc.idx].base, cpc := s.cpc.(resetting := false))
    case Begin(n) =>
      var available := s.pptrs[s.cpc.idx].off - s.gptr;
      s.(cpc := if available <= 0 then Idle
                else Copying(s.cpc.idx, s.cpc.first, if n < available then n else available))
    case CopyOne(c) =>
      s.(copied := s.copied + [c], gptr := s.gptr + 1, cpc := s.cpc.(todo := s.cpc.todo - 1),
         racy := if Synchronized(s) then s.racy else s.racy + {|s.copied|})
    case Publish =>
      var v := s.cview.(t := |s.totals|);
      s.(totals := s.totals + [TotalStore(|s.copied|, s.gptr, v)], cview := v, cpc := Idle)
  }

  ghost predicate Run(s: State, steps: seq<Step>, t: State)
    decreases |steps|
  {
    if steps == [] then s == t
    else Enabled(s, steps[0]) && Run(Apply(s, steps[0]), steps[1..], t)
  }
}
