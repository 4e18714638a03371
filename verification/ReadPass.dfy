/** The consumer's passes in the handshake are the chunked reads of GetArea. */
module ReadPass {
  import opened ResetHandshake
  import opened ResetInvariant
  import opened ResetTheorems
  import GetArea

  /** s with its next n written characters copied. */
  function Advanced(s: State, n: nat): State
    requires |s.copied| + n <= |s.written|
  {
    s.(copied := s.copied + s.written[|s.copied|..|s.copied| + n], gptr := s.gptr + n)
  }

  lemma {:induction false} AdvancedOn(s: State, n: nat)
    requires 0 < n && |s.copied| + n <= |s.written|
    ensures Advanced(Advanced(s, 1), n - 1) == Advanced(s, n)
  {
    var k := |s.copied|;
    assert s.written[k..k + n] == s.written[k..k + 1] + s.written[k + 1..k + n];
  }

  /** Some run of the two threads leads from s to t. */
  ghost predicate Leads(s: State, t: State) { exists steps: seq<Step> :: Run(s, steps, t) }

  lemma {:induction false} LeadsFrom(s: State, step: Step, t: State)
    requires Enabled(s, step) && Leads(Apply(s, step), t)
    ensures Leads(s, t)
  {
    var steps: seq<Step> :| Run(Apply(s, step), steps, t);
    assert ([step] + steps)[1..] == steps;
    assert Run(s, [step] + steps, t);
  }

  lemma {:induction false} LeadsOn(s: State, t: State, step: Step)
    requires Leads(s, t) && Enabled(t, step)
    ensures Leads(s, Apply(t, step))
  {
    var steps: seq<Step> :| Run(s, steps, t);
    RunStep(s, steps, t, step);
  }

  /** What the consumer's steps leave alone. */
  ghost predicate ProducerSame(s: State, t: State) {
    && t.ppc == s.ppc && t.pptr == s.pptr && t.totalReset == s.totalReset && t.pptrs == s.pptrs
    && t.written == s.written && t.cap == s.cap && t.pview == s.pview
  }

  lemma {:induction false} CopyNext(s: State) returns (c: char)
    requires Reachable(s) && s.cpc.Copying? && s.cpc.todo > 0
    ensures |s.copied| < |s.written| && Enabled(s, CopyOne(c))
    ensures var t := Apply(s, CopyOne(c));
      t == Advanced(s, 1).(cpc := s.cpc.(todo := s.cpc.todo - 1), racy := t.racy)
  {
    ReachableInv(s);
    MoreToRead(s, s.cpc.idx);
    StoreBounds(s, s.cpc.idx);
    CellOf(s, s.gptr);
    c := s.cells[s.gptr];
  }

  /** The copy loop, as steps of the handshake. */
  lemma {:induction false} CopyLoop(s: State, n: nat) returns (t: State)
    requires Reachable(s) && s.cpc.Copying? && s.cpc.todo == n
    requires |s.copied| <= |s.written|
    ensures Leads(s, t) && |s.copied| + n <= |s.written|
    ensures t == Advanced(s, n).(cpc := s.cpc.(todo := 0), racy := t.racy)
    decreases n
  {
    if n == 0 {
      t := s;
      assert Run(s, [], s);
    } else {
      var c := CopyNext(s);
      ReachableStep(s, CopyOne(c));
      t := CopyLoop(Apply(s, CopyOne(c)), n - 1);
      LeadsFrom(s, CopyOne(c), t);
      AdvancedOn(s, n);
    }
  }

  /** What is available in the block is what was written and not yet read. */
  lemma {:induction false} Chunk(s: State, count: nat)
    requires Reachable(s) && s.cpc.Decided? && !s.cpc.resetting && s.cpc.idx < |s.pptrs|
    requires s.gptr < s.pptrs[s.cpc.idx].off && s.gptr + count <= s.pptrs[s.cpc.idx].off
    ensures s.gptr + count <= |s.cells| && |s.copied| + count <= |s.written|
    ensures s.cells[s.gptr..s.gptr + count] == s.written[|s.copied|..|s.copied| + count]
  {
    ReachableInv(s);
    MoreToRead(s, s.cview.p);
    StoreBounds(s, s.cview.p);
    var chunk := s.cells[s.gptr..s.gptr + count];
    forall i | 0 <= i < count ensures chunk[i] == s.written[|s.copied| + i] {
      CellOf(s, s.gptr + i);
    }
  }

  /** After any detection that found something, a read of at most n characters can go through, and
      then it delivers the characters of the block, which are the next ones written. */
  lemma {:induction false} Pass(s: State, n: nat) returns (t: State)
    requires Reachable(s) && s.cpc.Decided? && !s.cpc.resetting
    requires s.cpc.idx < |s.pptrs| && s.gptr < s.pptrs[s.cpc.idx].off
    ensures Leads(s, t) && t.cpc.Idle? && s.gptr <= t.gptr <= |s.cells| && |s.copied| <= |t.copied| <= |s.written|
    ensures t.gptr == s.gptr + GetArea.Min(n, s.pptrs[s.cpc.idx].off - s.gptr)
    ensures t.copied == s.copied + s.cells[s.gptr..t.gptr]
    ensures s.cells[s.gptr..t.gptr] == s.written[|s.copied|..|t.copied|]
    ensures |t.totals| == |s.totals| + 1 && t.totals[|s.totals|].total == |t.copied|
    ensures ProducerSame(s, t)
  {
    var count := GetArea.Min(n, s.pptrs[s.cpc.idx].off - s.gptr);
    Chunk(s, count);
    ReachableStep(s, Begin(n));
    var copied := CopyLoop(Apply(s, Begin(n)), count);
    LeadsFrom(s, Begin(n), copied);
    LeadsOn(s, copied, Publish);
    t := Apply(copied, Publish);
  }

  //
  // Every pass, whatever the producer does meanwhile
  //

  /** steps lead from s to t, where the consumer's pass ends: it copied at most n characters, or found
      nothing to copy. The producer may do any steps in between. */
  ghost predicate Look(s: State, steps: seq<Step>, n: nat, t: State)
    decreases |steps|
  {
    && steps != [] && Enabled(s, steps[0]) && (steps[0].Begin? ==> steps[0].n == n)
    && var next := Apply(s, steps[0]);
       if !s.cpc.Idle? && next.cpc.Idle? then steps[1..] == [] && t == next
       else Look(next, steps[1..], n, t)
  }

  /** What is kept of the state in which the pass began. */
  datatype Before = Before(gptr: nat, copied: nat, totals: nat)

  function Now(s: State): Before { Before(s.gptr, |s.copied|, |s.totals|) }

  /** What a pass did so far: whether it cleared m_resetting, and the store of m_last_pptr that it
      loaded last. */
  datatype Loads = Loads(cleared: bool, idx: nat)

  function Note(l: Loads, step: Step): Loads {
    match step
    case Clear(_) => l.(cleared := true)
    case LoadPptr(k) => l.(idx := k)
    case Reload(k) => l.(idx := k)
    case _ => l
  }

  function NoteAll(l: Loads, steps: seq<Step>): Loads
    decreases |steps|
  {
    if steps == [] then l else NoteAll(Note(l, steps[0]), steps[1..])
  }

  /** The look of a pass: a reset if it cleared m_resetting, and the offset that it loaded last. */
  function SeenAs(l: Loads, t: State): GetArea.Seen {
    GetArea.Seen(l.cleared, if l.idx < |t.pptrs| then t.pptrs[l.idx].off else 0)
  }

  const NOTHING: Loads := Loads(false, 0)

  /** What the pass that took these steps to t saw. */
  function SeenIn(steps: seq<Step>, t: State): GetArea.Seen { SeenAs(NoteAll(NOTHING, steps), t) }

  /** The pass is on its way. */
  ghost predicate During(b: Before, l: Loads, n: nat, s: State) {
    && |s.totals| == b.totals && b.totals > 0 && s.totals[b.totals - 1].total == b.copied <= |s.copied|
    && var start := if l.cleared then 0 else b.gptr;
       var count := |s.copied| - b.copied;
       && s.gptr == start + count
       && match s.cpc
          case SawPptr(idx) => count == 0 && !l.cleared && idx == l.idx
          case Decided(resetting, idx, first) => count == 0 && (resetting ==> !l.cleared) && idx == l.idx
          case Copying(idx, first, todo) =>
            && idx == l.idx < |s.pptrs| && start < s.pptrs[idx].off
            && count + todo == GetArea.Min(n, s.pptrs[idx].off - start)
            && (count > 0 ==> !Behind(s))
          case _ => count == 0 && !l.cleared
  }

  /** The pass is over: what it did to gptr, the characters and m_total_read, given what it saw. */
  ghost predicate Did(b: Before, n: nat, seen: GetArea.Seen, t: State) {
    && GetArea.Start(b.gptr, seen) <= seen.pptr <= |t.cells|
    && Delivered(b, GetArea.Start(b.gptr, seen), GetArea.Min(n, seen.pptr - GetArea.Start(b.gptr, seen)), t)
    && |t.totals| == b.totals + (if GetArea.Start(b.gptr, seen) < seen.pptr then 1 else 0)
  }

  /** count characters were copied from the block, from start on. */
  ghost predicate Delivered(b: Before, start: nat, count: nat, t: State) {
    && t.gptr == start + count <= |t.cells| && |t.copied| == b.copied + count
    && t.totals != [] && t.totals[|t.totals| - 1].total == |t.copied|
    && forall j :: b.copied <= j < |t.copied| && j !in t.racy ==> t.copied[j] == t.cells[start + j - b.copied]
  }

  predicate IsProducer(step: Step) { step.Put? || step.Flush? || step.Poll? || step.RaiseFlag? }

  lemma {:induction false} ProducerDuring(b: Before, l: Loads, n: nat, s: State, step: Step)
    requires Inv(s) && Published(s) && During(b, l, n, s) && Enabled(s, step) && IsProducer(step)
    ensures During(b, l, n, Apply(s, step))
  {
    if step.Poll? && AllRead(s, step.k) {
      AllReadMeansAcknowledged(s, step.k);
    }
  }

  lemma {:induction false} ConsumerDuring(b: Before, l: Loads, n: nat, s: State, step: Step)
    requires Inv(s) && Published(s) && During(b, l, n, s) && Enabled(s, step) && !IsProducer(step)
    requires (step.Begin? ==> step.n == n) && !Apply(s, step).cpc.Idle?
    ensures During(b, Note(l, step), n, Apply(s, step))
  {
    if step.CopyOne? {
      MoreToRead(s, s.cpc.idx);
    }
  }

  lemma {:induction false} EmptyPass(b: Before, l: Loads, n: nat, s: State)
    requires Inv(s) && Published(s) && During(b, l, n, s) && Enabled(s, Begin(n)) && Apply(s, Begin(n)).cpc.Idle?
    ensures Did(b, n, SeenAs(l, s), Apply(s, Begin(n)))
  {
  }

  lemma {:induction false} CopiedCells(b: Before, l: Loads, n: nat, s: State)
    requires Inv(s) && During(b, l, n, s) && s.cpc.Copying?
    ensures |s.cells| == s.cap
    ensures forall j :: b.copied <= j < |s.copied| && j !in s.racy ==> s.gptr - |s.copied| + j < |s.cells|
    ensures forall j :: b.copied <= j < |s.copied| && j !in s.racy ==> s.copied[j] == s.cells[s.gptr - |s.copied| + j]
  {
  }

  lemma {:induction false} FullPass(b: Before, l: Loads, n: nat, s: State)
    requires Published(s) && During(b, l, n, s) && Enabled(s, Publish) && |s.cells| == s.cap
    requires forall j :: b.copied <= j < |s.copied| && j !in s.racy ==> s.gptr - |s.copied| + j < |s.cells|
    requires forall j :: b.copied <= j < |s.copied| && j !in s.racy ==> s.copied[j] == s.cells[s.gptr - |s.copied| + j]
    ensures Did(b, n, SeenAs(l, s), Apply(s, Publish))
  {
  }

  lemma {:induction false} StepDuring(b: Before, l: Loads, n: nat, s: State, step: Step)
    requires Reachable(s) && During(b, l, n, s) && Enabled(s, step) && (step.Begin? ==> step.n == n)
    requires s.cpc.Idle? || !Apply(s, step).cpc.Idle?
    ensures Reachable(Apply(s, step)) && During(b, Note(l, step), n, Apply(s, step))
  {
    ReachableInv(s);
    ReachablePublished(s);
    ReachableStep(s, step);
    if IsProducer(step) {
      ProducerDuring(b, l, n, s, step);
    } else {
      ConsumerDuring(b, l, n, s, step);
    }
  }

  lemma {:induction false} LastStep(b: Before, l: Loads, n: nat, s: State, step: Step)
    requires Reachable(s) && During(b, l, n, s) && Enabled(s, step) && (step.Begin? ==> step.n == n)
    requires !s.cpc.Idle? && Apply(s, step).cpc.Idle?
    ensures Reachable(Apply(s, step)) && l.idx < |s.pptrs| && Note(l, step) == l
    ensures Did(b, n, SeenAs(l, s), Apply(s, step)) && Apply(s, step).pptrs == s.pptrs
  {
    ReachableInv(s);
    ReachablePublished(s);
    ReachableStep(s, step);
    if step.Begin? {
      EmptyPass(b, l, n, s);
    } else {
      CopiedCells(b, l, n, s);
      FullPass(b, l, n, s);
    }
  }

  lemma {:induction false} RestOfLook(b: Before, l: Loads, s: State, steps: seq<Step>, n: nat, t: State)
    requires Reachable(s) && During(b, l, n, s) && Look(s, steps, n, t)
    ensures Reachable(t) && t.cpc.Idle?
    ensures NoteAll(l, steps).idx < |t.pptrs| && Did(b, n, SeenAs(NoteAll(l, steps), t), t)
    decreases |steps|
  {
    var next := Apply(s, steps[0]);
    if !s.cpc.Idle? && next.cpc.Idle? {
      LastStep(b, l, n, s, steps[0]);
      assert NoteAll(l, steps) == NoteAll(l, []);
    } else {
      StepDuring(b, l, n, s, steps[0]);
      RestOfLook(b, Note(l, steps[0]), next, steps[1..], n, t);
    }
  }

  /** Every pass, in every interleaving, is a look of GetArea.Consumer that sees what the pass loaded: it
      starts at 0 if it cleared m_resetting and at gptr if not, copies min(n, available) characters,
      where the offset it loaded last says what is available, and publishes if that is anything. */
  lemma {:induction false} EveryLook(s: State, steps: seq<Step>, n: nat, t: State)
    requires Reachable(s) && s.cpc.Idle? && Look(s, steps, n, t)
    ensures Reachable(t) && t.cpc.Idle?
    ensures NoteAll(NOTHING, steps).idx < |t.pptrs| && Did(Now(s), n, SeenIn(steps, t), t)
  {
    ReachablePublished(s);
    RestOfLook(Now(s), NOTHING, s, steps, n, t);
  }

  /** A read of at most n characters: one pass, or two if the first found nothing to publish. */
  ghost predicate ReadRun(s: State, first: seq<Step>, t: State, second: seq<Step>, n: nat, u: State) {
    && s.cpc.Idle? && Look(s, first, n, t)
    && if |t.totals| > |s.totals| then second == [] && u == t else Look(t, second, n, u)
  }

  /** What GetArea.Consumer.Xsgetn requires and does, on the state of the handshake. */
  ghost predicate DidRead(b: Before, n: nat, seen: GetArea.Seen, again: GetArea.Seen, t: State) {
    && GetArea.Start(b.gptr, seen) <= seen.pptr <= |t.cells|
    && (GetArea.Start(b.gptr, seen) == seen.pptr ==> GetArea.Start(seen.pptr, again) <= again.pptr <= |t.cells|)
    && var (start, end) := GetArea.Used(b.gptr, seen, again);
       Delivered(b, start, GetArea.Min(n, end - start), t)
  }

  /** A first look that found something is a whole read, whatever a second would have seen. */
  lemma {:induction false} ReadAtOnce(s: State, steps: seq<Step>, n: nat, t: State)
    requires Reachable(s) && s.cpc.Idle? && Look(s, steps, n, t) && |t.totals| > |s.totals|
    ensures NoteAll(NOTHING, steps).idx < |t.pptrs|
    ensures forall again :: DidRead(Now(s), n, SeenIn(steps, t), again, t)
  {
    EveryLook(s, steps, n, t);
  }

  /** A first look that found nothing, and a second one. */
  lemma {:induction false} ReadAtSecondLook(s: State, first: seq<Step>, t: State, second: seq<Step>, n: nat, u: State)
    requires Reachable(s) && s.cpc.Idle? && Look(s, first, n, t) && |t.totals| <= |s.totals| && Look(t, second, n, u)
    ensures NoteAll(NOTHING, first).idx < |t.pptrs| && NoteAll(NOTHING, second).idx < |u.pptrs|
    ensures DidRead(Now(s), n, SeenIn(first, t), SeenIn(second, u), u)
  {
    EveryLook(s, first, n, t);
    EveryLook(t, second, n, u);
    LookKeepsBlock(t, second, n, u);
    SecondLook(Now(s), t, n, SeenIn(first, t), SeenIn(second, u), u);
  }

  lemma {:induction false} SecondLook(b: Before, t: State, n: nat, seen: GetArea.Seen, again: GetArea.Seen, u: State)
    requires Did(b, n, seen, t) && |t.totals| == b.totals && Did(Now(t), n, again, u) && |u.cells| == |t.cells|
    ensures DidRead(b, n, seen, again, u)
  {
  }

  lemma {:induction false} LookKeepsBlock(s: State, steps: seq<Step>, n: nat, t: State)
    requires Look(s, steps, n, t)
    ensures |t.cells| == |s.cells|
    decreases |steps|
  {
    if s.cpc.Idle? || !Apply(s, steps[0]).cpc.Idle? {
      LookKeepsBlock(Apply(s, steps[0]), steps[1..], n, t);
    }
  }

  /** c and the consumer of the handshake agree between two reads. */
  ghost predicate Represents(c: GetArea.Consumer, gptr: nat, copied: nat)
    reads c
  {
    c.gptr == gptr && c.totalRead == copied
  }

  /** The read of GetArea.Consumer is the consumer's read in the handshake: with the looks of its passes
      and the same block they agree again, and the characters in out are the copied ones, but for
      racy ones. */
  method Read(c: GetArea.Consumer, out: array<char>, at: nat, n: nat, seen: GetArea.Seen, again: GetArea.Seen,
              ghost s: State, ghost first: seq<Step>, ghost t: State, ghost second: seq<Step>, ghost u: State)
    returns (count: nat)
    requires out != c.buffer && at + n <= out.Length
    requires Reachable(s) && ReadRun(s, first, t, second, n, u)
    requires Represents(c, s.gptr, |s.copied|) && c.buffer[..] == u.cells
    requires seen == SeenIn(first, t) && (second != [] ==> again == SeenIn(second, u))
    modifies c, out
    ensures Represents(c, u.gptr, |u.copied|) && count == |u.copied| - |s.copied| <= n
    ensures forall i :: at <= i < at + count && |s.copied| + i - at !in u.racy ==> out[i] == u.copied[|s.copied| + i - at]
    ensures forall i :: 0 <= i < out.Length && !(at <= i < at + count) ==> out[i] == old(out[i])
  {
    if |t.totals| > |s.totals| {
      ReadAtOnce(s, first, n, t);
    } else {
      ReadAtSecondLook(s, first, t, second, n, u);
    }
    assert DidRead(Now(s), n, seen, again, u);
    count := c.Xsgetn(out, at, n, seen, again);
    assert c.buffer[..] == old(c.buffer[..]);
    forall i | at <= i < at + count ensures out[i] == out[..][i] {
    }
  }
}
