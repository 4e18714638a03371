/**
 The program of src/epoll_bug.c: the epoll ledger, the event handlers with their read and write
 loops, and the main loop. Each method is proved to do the transition of EchoSystem.
 */
module EpollEcho {
  import opened EchoSystem

  const READ_LENGTH: nat := 100000
  const ALEN: seq<nat> := [2016, 2016, 4064, 8160, 16384, 32832, 65728, 131520, 263104, 526272, 1052608]

  /** The two pipes. Callers know of read and write what the contracts say: any short count, or
      would-block (-1), except that a call right after epoll reported the descriptor makes progress. */
  class Kernel {
    const cap1: nat
    const cap2: nat
    const prompt: bool   // epoll_wait reports within a second what is ready
    var q1: nat
    var q2: nat
    var timeouts: nat    // how often epoll_wait still returns without any event
    ghost var shorts: nat   // writes that took less than they were given
    ghost var dry: nat      // reads that gave nothing
    ghost var late: bool    // epoll_wait took what the main loop calls blocked

    constructor (cap1: nat, cap2: nat, prompt: bool, timeouts: nat)
      ensures this.cap1 == cap1 && this.cap2 == cap2 && q1 == q2 == 0
      ensures this.prompt == prompt && this.timeouts == timeouts && !late
    {
      this.cap1, this.cap2, this.prompt, this.timeouts := cap1, cap2, prompt, timeouts;
      q1, q2 := 0, 0;
      shorts, dry, late := 0, 0, false;
    }

    method Write1(len: nat, reported: bool) returns (n: int)
      requires q1 <= cap1
      modifies this`q1, this`shorts
      ensures shorts == old(shorts) + (if n < len then 1 else 0)
      ensures -1 <= n <= len && q1 == old(q1) + (if n > 0 then n else 0) <= cap1
      ensures reported && old(q1) < cap1 && len > 0 ==> n > 0
      ensures len == 0 ==> n == 0
    {
      n := Accepted(len, cap1 - q1, reported);
      shorts := shorts + if n < len then 1 else 0;
      if n > 0 {
        q1 := q1 + n;
      }
    }

    method Write2(len: nat, reported: bool) returns (n: int)
      requires q2 <= cap2
      modifies this`q2, this`shorts
      ensures shorts == old(shorts) + (if n < len then 1 else 0)
      ensures -1 <= n <= len && q2 == old(q2) + (if n > 0 then n else 0) <= cap2
      ensures reported && old(q2) < cap2 && len > 0 ==> n > 0
    {
      n := Accepted(len, cap2 - q2, reported);
      shorts := shorts + if n < len then 1 else 0;
      if n > 0 {
        q2 := q2 + n;
      }
    }

    method Read1(len: nat, writerClosed: bool, reported: bool) returns (n: int)
      requires len > 0
      modifies this`q1, this`dry
      ensures dry == old(dry) + (if n <= 0 then 1 else 0)
      ensures -1 <= n <= len && q1 == old(q1) - (if n > 0 then n else 0)
      ensures n == 0 ==> writerClosed && q1 == 0
      ensures reported && n <= 0 ==> (n == 0 <==> writerClosed) && old(q1) == 0
    {
      n := Delivered(len, q1, writerClosed, reported);
      dry := dry + if n <= 0 then 1 else 0;
      if n > 0 {
        q1 := q1 - n;
      }
    }

    method Read2(len: nat, writerClosed: bool, reported: bool) returns (n: int)
      requires len > 0
      modifies this`q2, this`dry
      ensures dry == old(dry) + (if n <= 0 then 1 else 0)
      ensures -1 <= n <= len && q2 == old(q2) - (if n > 0 then n else 0)
      ensures n == 0 ==> writerClosed && q2 == 0
      ensures reported && n <= 0 ==> (n == 0 <==> writerClosed) && old(q2) == 0
    {
      n := Delivered(len, q2, writerClosed, reported);
      dry := dry + if n <= 0 then 1 else 0;
      if n > 0 {
        q2 := q2 - n;
      }
    }

    static method Accepted(len: nat, room: nat, reported: bool) returns (n: int)
      ensures -1 <= n <= len && n <= room
      ensures reported && room > 0 && len > 0 ==> n > 0
      ensures len == 0 ==> n == 0
    {
      if len == 0 {
        return 0;
      }
      if room == 0 {
        return -1;
      }
      if * {
        if !reported {
          return -1;
        }
      }
      n :| 1 <= n <= len && n <= room;
    }

    static method Delivered(len: nat, q: nat, writerClosed: bool, reported: bool) returns (n: int)
      requires len > 0
      ensures -1 <= n <= len && n <= q
      ensures n == 0 ==> writerClosed && q == 0
      ensures reported && n <= 0 ==> (n == 0 <==> writerClosed) && q == 0
    {
      if * {
        if !reported {
          return -1;
        }
      }
      if q == 0 {
        return if writerClosed then 0 else -1;
      }
      n :| 1 <= n <= len && n <= q;
    }
  }

  /** The first n chunk sizes together. */
  function Total(n: nat): nat
    requires n <= |ALEN|
  {
    if n == 0 then 0 else Total(n - 1) + ALEN[n - 1]
  }

  lemma {:induction false} TotalGrows(n: nat, m: nat)
    requires n <= m <= |ALEN|
    ensures Total(n) <= Total(m)
    decreases m
  {
    if n < m {
      TotalGrows(n, m - 1);
    }
  }

  class EventObj {
    var watched: set<Ev>   // watched_events
    var closed: bool

    constructor ()
      ensures watched == {} && !closed
    {
      watched, closed := {}, false;
    }
  }

  /** struct timeval */
  datatype Time = Time(sec: int, usec: int) {
    function Micros(): int { 1000000 * sec + usec }
    predicate Valid() { 0 <= usec < 1000000 }
  }

  /** The time after which the main loop gives up: a second or more, and not close to a full second. */
  predicate Late(micros: int) { 1000000 <= micros && 10000 < micros % 1000000 }

  lemma {:induction false} LateParts(tv: Time)
    requires tv.Valid() && 0 <= tv.Micros()
    ensures Late(tv.Micros()) <==> tv.usec > 10000 && tv.sec != 0
  {
    assert tv.Micros() % 1000000 == tv.usec;
  }

  /** What epoll_wait reports for one object. */
  datatype Report = Report(role: Role, evs: set<Ev>)

  ghost predicate IsBatch(s: Sys, batch: seq<Report>) {
    && |batch| <= 4
    && (forall i, j :: 0 <= i < j < |batch| ==> batch[i].role != batch[j].role)
    && AllFire(s, batch)
    && (forall i :: 0 <= i < |batch| ==> batch[i].evs != {})
  }

  /** What the main loop dispatched. */
  class Trace {
    ghost var handled: seq<(Role, Ev)>

    constructor ()
      ensures handled == []
    {
      handled := [];
    }
  }

  class Epoll {
    const burst: nat
    const kernel: Kernel
    const listen: EventObj
    const client: EventObj
    const accept: EventObj
    const trace: Trace
    var accepted: bool
    var watchedCount: int
    var twlen1: nat
    var twlen2: nat
    var trlen1: nat
    var trlen2: nat

    function State(): Sys
      reads this, kernel, listen, client, accept
    {
      Sys(burst, kernel.cap1, kernel.cap2, kernel.q1, kernel.q2, twlen1, trlen1, twlen2, trlen2, accepted,
          listen.watched, client.watched, accept.watched, listen.closed, client.closed, accept.closed, watchedCount)
    }

    ghost predicate Valid()
      reads this
    {
      listen != client && listen != accept && client != accept
    }

    /** main, up to the main loop. */
    constructor (burst: nat, cap1: nat, cap2: nat, prompt: bool, timeouts: nat)
      ensures Valid() && State() == Initial(burst, cap1, cap2) && kernel.prompt == prompt && !kernel.late
      ensures fresh(kernel) && fresh(listen) && fresh(client) && fresh(accept) && fresh(trace)
    {
      this.burst := burst;
      kernel := new Kernel(cap1, cap2, prompt, timeouts);
      listen := new EventObj();
      client := new EventObj();
      accept := new EventObj();
      trace := new Trace();
      accepted, watchedCount := false, 0;
      twlen1, twlen2, trlen1, trlen2 := 0, 0, 0, 0;
      new;
      Add(listen, {In});
      Add(client, {In});
    }

    static method CountBits(events: set<Ev>) returns (count: int)
      ensures count == One(In in events) + One(Out in events)
    {
      count := 0;
      var ev := In;
      while true
        invariant count == if ev == In then 0 else One(In in events)
        decreases ev == In
      {
        if ev in events {
          count := count + 1;
        }
        if ev == Out {
          break;
        }
        ev := Out;
      }
    }

    /** Epoll_add; the precondition is its assertion. */
    method Add(obj: EventObj, events: set<Ev>)
      requires obj.watched !! events
      modifies this`watchedCount, obj`watched
      ensures obj.watched == old(obj.watched) + events
      ensures watchedCount == old(watchedCount) + One(In in events) + One(Out in events)
    {
      var count := CountBits(events);
      obj.watched := obj.watched + events;
      watchedCount := watchedCount + count;
    }

    /** Epoll_remove; the precondition is its assertion. */
    method Remove(obj: EventObj, events: set<Ev>) returns (any: bool)
      requires events <= obj.watched
      modifies this`watchedCount, obj
      ensures obj.watched == old(obj.watched) - events
      ensures obj.closed == (old(obj.closed) || obj.watched == {})
      ensures watchedCount == old(watchedCount) - One(In in events) - One(Out in events)
      ensures any <==> watchedCount != 0
    {
      var count := CountBits(events);
      obj.watched := obj.watched - events;
      if obj.watched == {} {
        obj.closed := true;
      }
      watchedCount := watchedCount - count;
      any := watchedCount != 0;
    }

    /** ListenSocket_read_event: accepts the connection and watches the new socket. */
    method ListenRead() returns (keep: bool)
      requires Valid() && accept.watched == {}
      modifies this, accept`watched
      ensures !keep && State() == old(State()).(accepted := true, accept := {In, Out}, count := old(watchedCount) + 2)
    {
      accepted := true;
      Add(accept, {In, Out});
      keep := false;
    }

    /** AcceptSocket_write_event: writes one chunk after the other, until a write is short, the burst is
        written or all chunk sizes were used. */
    method AcceptWriteEvent() returns (keep: bool, ghost k: nat)
      requires Valid() && twlen1 <= burst && kernel.q1 < kernel.cap1
      modifies this`twlen1, kernel`q1, kernel`shorts
      ensures kernel.shorts <= old(kernel.shorts) + 1
      ensures kernel.shorts == old(kernel.shorts) ==> 
        k == if burst - old(twlen1) < Total(|ALEN|) then burst - old(twlen1) else Total(|ALEN|)
      ensures State() == old(State()).(twlen1 := old(twlen1) + k, q1 := old(kernel.q1) + k)
      ensures twlen1 <= burst && kernel.q1 <= kernel.cap1 && (k == 0 ==> twlen1 == burst)
      ensures keep <==> twlen1 < burst
    {
      var i, max := 0, burst - twlen1;
      k := 0;
      while true
        invariant 0 <= i < |ALEN| && max == burst - twlen1 && (max > 0 || i == 0)
        invariant twlen1 == old(twlen1) + k <= burst
        invariant kernel.q1 == old(kernel.q1) + k <= kernel.cap1
        invariant if i == 0 then k == 0 else k > 0
        invariant kernel.shorts == old(kernel.shorts) && k == Total(i)
        decreases |ALEN| - i
      {
        TotalGrows(i + 1, |ALEN|);
        var len := ALEN[i];
        var first := i == 0;
        i := i + 1;
        if len > max {
          len := max;
        }
        var wlen := kernel.Write1(len, first);
        if wlen > 0 {
          twlen1 := twlen1 + wlen;
          max := max - wlen;
          k := k + wlen;
        }
        if !(wlen == len && i < |ALEN| && max > 0) {
          break;
        }
      }
      keep := twlen1 < burst;
    }

    /** AcceptSocket_read_event: reads until a read gives nothing. */
    method AcceptReadEvent() returns (keep: bool, ghost k: nat)
      requires Valid() && (kernel.q2 > 0 || client.closed)
      modifies this`trlen2, kernel`q2, kernel`dry
      ensures kernel.dry == old(kernel.dry) + 1
      ensures k <= old(kernel.q2)
      ensures State() == old(State()).(trlen2 := old(trlen2) + k, q2 := old(kernel.q2) - k)
      ensures k == 0 ==> !keep
      ensures !keep ==> client.closed && kernel.q2 == 0
    {
      k := 0;
      var rlen := 0;
      var first := true;
      while true
        invariant k <= old(kernel.q2) && kernel.q2 == old(kernel.q2) - k && trlen2 == old(trlen2) + k
        invariant kernel.dry == old(kernel.dry)
        invariant first ==> k == 0
        invariant !first ==> k > 0
        decreases kernel.q2
      {
        rlen := kernel.Read2(READ_LENGTH, client.closed, first);
        if rlen > 0 {
          trlen2 := trlen2 + rlen;
          k := k + rlen;
        } else {
          break;
        }
        first := false;
      }
      keep := rlen != 0;
    }

    /** ClientSocket_read_event: reads until a read gives nothing, and asks for EPOLLOUT if there was no
        backlog before. */
    method ClientReadEvent() returns (keep: bool, ghost k: nat)
      requires Valid() && kernel.q1 > 0 && twlen2 <= trlen1
      requires trlen1 == twlen2 ==> Out !in client.watched
      modifies this`trlen1, this`watchedCount, client`watched, kernel`q1, kernel`dry
      ensures kernel.dry == old(kernel.dry) + 1
      ensures keep && 0 < k <= old(kernel.q1)
      ensures var watch := old(trlen1) == old(twlen2);
        State() == old(State()).(trlen1 := old(trlen1) + k, q1 := old(kernel.q1) - k,
                                 client := if watch then old(client.watched) + {Out} else old(client.watched),
                                 count := old(watchedCount) + One(watch))
    {
      var bufferEmpty := trlen1 - twlen2 == 0;
      k := 0;
      var first := true;
      while true
        invariant k <= old(kernel.q1) && kernel.q1 == old(kernel.q1) - k && trlen1 == old(trlen1) + k
        invariant kernel.dry == old(kernel.dry)
        invariant if first then k == 0 else k > 0
        invariant watchedCount == old(watchedCount) && twlen1 == old(twlen1) && twlen2 == old(twlen2)
        invariant trlen2 == old(trlen2) && accepted == old(accepted) && client.watched == old(client.watched)
        decreases kernel.q1
      {
        var rlen := kernel.Read1(READ_LENGTH, accept.closed, first);
        if rlen > 0 {
          trlen1 := trlen1 + rlen;
          k := k + rlen;
        } else {
          break;
        }
        first := false;
      }
      if bufferEmpty && trlen1 > twlen2 {
        Add(client, {Out});
      }
      keep := true;
    }

    /** ClientSocket_write_event; the third precondition is its assertion. */
    method ClientWriteEvent() returns (keep: bool, ghost k: nat)
      requires Valid() && kernel.q2 < kernel.cap2 && twlen2 < trlen1 <= twlen1
      requires twlen1 <= burst && {In, Out} <= client.watched
      modifies this, client, kernel`q2, kernel`shorts
      ensures kernel.shorts == old(kernel.shorts) ==> k == old(trlen1) - old(twlen2)
      ensures 0 < k && twlen2 == old(twlen2) + k <= trlen1 && kernel.q2 <= kernel.cap2
      ensures var all := twlen2 >= burst && twlen2 == twlen1;
        State() == old(State()).(twlen2 := old(twlen2) + k, q2 := old(kernel.q2) + k,
                                 client := Unwatch(old(client.watched), In, all),
                                 clientClosed := old(client.closed),
                                 count := old(watchedCount) - One(all))
      ensures keep <==> trlen1 > twlen2
    {
      var wlen := kernel.Write2(trlen1 - twlen2, true);
      k := wlen;
      if wlen <= 0 {
        keep := false;
        return;
      }
      twlen2 := twlen2 + wlen;
      if twlen2 >= burst && twlen2 == twlen1 {
        var _ := Remove(client, {In});
        assert Out in client.watched;
      }
      keep := trlen1 - twlen2 > 0;
    }

    /** The main loop's treatment of one reported bit: the handler, and Epoll_remove when the
        handler returns false. go is false when the main loop returns. */
    method Dispatch(role: Role, ev: Ev) returns (go: bool, ghost e: Event)
      requires Valid() && Good(State()) && State().Fires(role, ev)
      modifies this, kernel`q1, kernel`q2, kernel`shorts, kernel`dry, listen, client, accept
      ensures (role, ev) == (e.Role(), e.Ev()) && old(Enabled(State(), e))
      ensures State() == old(Apply(State(), e)) && (go <==> State().count != 0)
    {
      match role {
        case Listen =>
          go, e := DispatchListen();
        case Client =>
          if ev == In {
            go, e := DispatchClientRead();
          } else {
            go, e := DispatchClientWrite();
          }
        case Accept =>
          if ev == In {
            go, e := DispatchAcceptRead();
          } else {
            go, e := DispatchAcceptWrite();
          }
      }
    }

    method DispatchListen() returns (go: bool, ghost e: Event)
      requires Valid() && Good(State()) && State().Fires(Listen, In)
      modifies this, listen, accept`watched
      ensures (Listen, In) == (e.Role(), e.Ev()) && old(Enabled(State(), e))
      ensures State() == old(Apply(State(), e)) && (go <==> State().count != 0)
    {
      ghost var s := State();
      Sets(s);
      NoEvents(listen.watched);
      var _ := ListenRead();
      e := Connect;
      StepGood(s, e);
      go := Remove(listen, {In});
      NoEvents(listen.watched);
    }

    method DispatchClientRead() returns (go: bool, ghost e: Event)
      requires Valid() && Good(State()) && State().Fires(Client, In)
      modifies this, client, kernel`q1, kernel`dry
      ensures (Client, In) == (e.Role(), e.Ev()) && old(Enabled(State(), e))
      ensures State() == old(Apply(State(), e)) && (go <==> State().count != 0)
    {
      ghost var s := State();
      Sets(s);
      ghost var k: nat;
      go, k := ClientReadEvent();
      e := ClientRead(k);
      StepGood(s, e);
      assert State() == Apply(s, e);
      WatchedCounts(State(), Client, In);
    }

    method DispatchClientWrite() returns (go: bool, ghost e: Event)
      requires Valid() && Good(State()) && State().Fires(Client, Out)
      modifies this, client, kernel`q2, kernel`shorts
      ensures (Client, Out) == (e.Role(), e.Ev()) && old(Enabled(State(), e))
      ensures State() == old(Apply(State(), e)) && (go <==> State().count != 0)
    {
      ghost var s := State();
      Sets(s);
      var keep, k := ClientWriteEvent();
      e := ClientWrite(k);
      StepGood(s, e);
      go := true;
      if !keep {
        go := Remove(client, {Out});
        assert State() == Apply(s, e);
      } else {
        assert State() == Apply(s, e);
        WatchedCounts(State(), Client, Out);
      }
    }

    method DispatchAcceptRead() returns (go: bool, ghost e: Event)
      requires Valid() && Good(State()) && State().Fires(Accept, In)
      modifies this, accept, kernel`q2, kernel`dry
      ensures (Accept, In) == (e.Role(), e.Ev()) && old(Enabled(State(), e))
      ensures State() == old(Apply(State(), e)) && (go <==> State().count != 0)
    {
      ghost var s := State();
      Sets(s);
      var keep, k := AcceptReadEvent();
      e := AcceptRead(k, !keep);
      StepGood(s, e);
      go := true;
      if !keep {
        go := Remove(accept, {In});
        assert State() == Apply(s, e);
      } else {
        assert State() == Apply(s, e);
        WatchedCounts(State(), Accept, In);
      }
    }

    method DispatchAcceptWrite() returns (go: bool, ghost e: Event)
      requires Valid() && Good(State()) && State().Fires(Accept, Out)
      modifies this, accept, kernel`q1, kernel`shorts
      ensures (Accept, Out) == (e.Role(), e.Ev()) && old(Enabled(State(), e))
      ensures State() == old(Apply(State(), e)) && (go <==> State().count != 0)
    {
      ghost var s := State();
      Sets(s);
      var keep, k := AcceptWriteEvent();
      e := AcceptWrite(k);
      StepGood(s, e);
      go := true;
      if !keep {
        go := Remove(accept, {Out});
        assert State() == Apply(s, e);
      } else {
        assert State() == Apply(s, e);
        WatchedCounts(State(), Accept, Out);
      }
    }

    /** epoll_wait between two readings of the clock: any batch of reported events; no event at all
        only after its timeout of 1100 milliseconds. */
    method Wait() returns (batch: seq<Report>, tv1: Time, tv2: Time)
      requires Valid() && Good(State()) && State().count != 0
      modifies kernel`timeouts, kernel`late
      ensures kernel.late == (old(kernel.late) || Late(tv2.Micros() - tv1.Micros()))
      ensures IsBatch(State(), batch) && tv1.Valid() && tv2.Valid() && tv1.Micros() <= tv2.Micros()
      ensures kernel.timeouts <= old(kernel.timeouts)
      ensures batch == [] ==> kernel.timeouts < old(kernel.timeouts) && tv1.Micros() + 1100000 <= tv2.Micros()
      ensures kernel.prompt && SomethingFires(State()) ==> batch != [] && tv2.Micros() < tv1.Micros() + 1000000
    {
      var sec: int, usec: int :| 0 <= usec < 1000000;
      var late: int :| 0 <= late;
      tv1, tv2 := Time(sec, usec), Time(sec, usec);
      if !kernel.prompt && kernel.timeouts > 0 && late > 1 {
        kernel.timeouts := kernel.timeouts - 1;
        tv2 := Time(sec + late, usec);
        kernel.late := kernel.late || Late(tv2.Micros() - tv1.Micros());
        return [], tv1, tv2;
      }
      if !kernel.prompt {
        tv2 := Time(sec + late, usec);
      }
      kernel.late := kernel.late || Late(tv2.Micros() - tv1.Micros());
      batch := AllReported(State());
    }

    /** The time between two readings of the clock. */
    static method Subtract(tv1: Time, tv2: Time) returns (tv: Time)
      requires tv1.Valid() && tv2.Valid()
      ensures tv.Valid() && tv.Micros() == tv2.Micros() - tv1.Micros()
    {
      tv := Time(tv2.sec - tv1.sec, tv2.usec - tv1.usec);
      if tv.usec < 0 {
        tv := Time(tv.sec - 1, tv.usec + 1000000);
      }
    }

    /** The main loop returns, after finitely many events: with everything echoed and closed, or
        exactly when epoll_wait was late ("blocked permanently"). In that case something watched was
        ready: a prompt kernel is never found to block. */
    method Mainloop() returns (blocked: bool)
      requires Valid() && Good(State()) && State().count != 0 && !kernel.late
      modifies this, kernel, listen, client, accept, trace
      ensures blocked <==> kernel.late
      ensures !blocked ==> twlen1 == trlen1 == twlen2 == trlen2 == burst && watchedCount == 0
      ensures !blocked ==> kernel.q1 == kernel.q2 == 0 && listen.closed && client.closed && accept.closed
      ensures blocked ==> watchedCount != 0 && Good(State()) && SomethingFires(State()) && !kernel.prompt
    {
      var go := true;
      while go
        invariant Valid() && Good(State()) && (go <==> State().count != 0) && !kernel.late
        decreases State().Measure(), kernel.timeouts, go
      {
        ghost var role, ev := NeverSticks(State());
        var batch, tv1, tv2 := Wait();
        var tv := Subtract(tv1, tv2);
        LateParts(tv);
        if tv.usec > 10000 && tv.sec != 0 {
          return true;
        }
        go := DispatchBatch(batch);
      }
      Drained(State());
      blocked := false;
    }

    /** The batch, from its last entry to its first. */
    method DispatchBatch(batch: seq<Report>) returns (go: bool)
      requires Valid() && Good(State()) && State().count != 0 && IsBatch(State(), batch)
      modifies this, kernel`q1, kernel`q2, kernel`shorts, kernel`dry, listen, client, accept, trace
      ensures Valid() && Good(State()) && (go <==> State().count != 0)
      ensures old(trace.handled) <= trace.handled <= old(trace.handled) + Order(batch)
      ensures go ==> trace.handled == old(trace.handled) + Order(batch)
      ensures if batch == [] then State() == old(State()) else State().Measure() < old(State().Measure())
    {
      ghost var was, measure := trace.handled, State().Measure();
      var n := |batch|;
      go := true;
      assert batch[..n] == batch;
      while n > 0
        invariant 0 <= n <= |batch| && Valid() && Good(State()) && State().count != 0
        invariant trace.handled == was + Order(batch[n..])
        invariant AllFire(State(), batch[..n])
        invariant if n == |batch| then State() == old(State()) else State().Measure() < measure
      {
        n := n - 1;
        go := DispatchEntry(batch, n, was);
        if !go {
          return;
        }
      }
    }

    /** The n-th entry, after those that follow it. */
    method DispatchEntry(batch: seq<Report>, n: nat, ghost was: seq<(Role, Ev)>) returns (go: bool)
      requires Valid() && Good(State()) && State().count != 0 && n < |batch| && AllFire(State(), batch[..n + 1])
      requires batch[n].evs != {} && forall i :: 0 <= i < n ==> batch[i].role != batch[n].role
      requires trace.handled == was + Order(batch[n + 1..])
      modifies this, kernel`q1, kernel`q2, kernel`shorts, kernel`dry, listen, client, accept, trace
      ensures Valid() && Good(State()) && (go <==> State().count != 0)
      ensures State().Measure() < old(State().Measure())
      ensures go ==> AllFire(State(), batch[..n]) && trace.handled == was + Order(batch[n..])
      ensures was <= trace.handled <= was + Order(batch)
    {
      ghost var before := trace.handled;
      assert batch[..n + 1] == batch[..n] + [batch[n]];
      go := DispatchReport(batch[n], batch[..n]);
      HandledOne(was, before, trace.handled, batch, n);
    }

    /** One entry of the batch: IN before OUT. The entries still to come stay reported. */
    method DispatchReport(report: Report, ghost later: seq<Report>) returns (go: bool)
      requires Valid() && Good(State()) && State().count != 0 && report.evs != {}
      requires AllFire(State(), later) && forall ev :: ev in report.evs ==> State().Fires(report.role, ev)
      requires forall i :: 0 <= i < |later| ==> later[i].role != report.role
      modifies this, kernel`q1, kernel`q2, kernel`shorts, kernel`dry, listen, client, accept, trace
      ensures Valid() && Good(State()) && (go <==> State().count != 0)
      ensures State().Measure() < old(State().Measure())
      ensures go ==> AllFire(State(), later)
      ensures old(trace.handled) < trace.handled <= old(trace.handled) + Bits(report)
      ensures go ==> trace.handled == old(trace.handled) + Bits(report)
    {
      go := true;
      NoEvents(report.evs);
      if In in report.evs {
        go := DispatchBit(report.role, In, later);
        if !go {
          return;
        }
      }
      if Out in report.evs {
        go := DispatchBit(report.role, Out, later);
      }
    }

    method DispatchBit(role: Role, ev: Ev, ghost later: seq<Report>) returns (go: bool)
      requires Valid() && Good(State()) && State().Fires(role, ev)
      requires AllFire(State(), later) && forall i :: 0 <= i < |later| ==> later[i].role != role
      modifies this, kernel`q1, kernel`q2, kernel`shorts, kernel`dry, listen, client, accept, trace
      ensures Valid() && Good(State()) && (go <==> State().count != 0)
      ensures State().Measure() < old(State().Measure())
      ensures AllFire(State(), later)
      ensures ev == In && old(State().Fires(role, Out)) ==> State().Fires(role, Out)
      ensures trace.handled == old(trace.handled) + [(role, ev)]
    {
      ghost var s := State();
      ghost var e: Event;
      go, e := Dispatch(role, ev);
      trace.handled := trace.handled + [(role, ev)];
      StepGood(s, e);
      forall i, x | 0 <= i < |later| && x in later[i].evs ensures State().Fires(later[i].role, x) {
        StaysReported(s, e, later[i].role, x);
      }
      if ev == In && s.Fires(role, Out) {
        StaysReported(s, e, role, Out);
      }
    }
  }

  /** The bits of a report, in the order in which they are handled. */
  function Bits(r: Report): seq<(Role, Ev)> {
    (if In in r.evs then [(r.role, In)] else []) + (if Out in r.evs then [(r.role, Out)] else [])
  }

  /** The bits of a batch, from its last entry to its first. */
  function Order(batch: seq<Report>): seq<(Role, Ev)> {
    if batch == [] then [] else Order(batch[1..]) + Bits(batch[0])
  }

  lemma {:induction false} OrderPrefix(batch: seq<Report>, n: nat)
    requires n <= |batch|
    ensures Order(batch[n..]) <= Order(batch)
    decreases n
  {
    if n == 0 {
      assert batch[0..] == batch;
    } else {
      OrderPrefix(batch[1..], n - 1);
      assert batch[1..][n - 1..] == batch[n..];
    }
  }

  lemma {:induction false} HandledOne(was: seq<(Role, Ev)>, before: seq<(Role, Ev)>, now: seq<(Role, Ev)>,
                                      batch: seq<Report>, n: nat)
    requires n < |batch| && before == was + Order(batch[n + 1..]) && before <= now <= before + Bits(batch[n])
    ensures was <= now <= was + Order(batch)
    ensures now == before + Bits(batch[n]) ==> now == was + Order(batch[n..])
  {
    var all := Order(batch[n..]);
    assert batch[n..][1..] == batch[n + 1..];
    assert before + Bits(batch[n]) == was + all;
    OrderPrefix(batch, n);
    assert was + all <= was + Order(batch);
  }

  function ReadyBits(s: Sys, role: Role): set<Ev> {
    (if s.Fires(role, In) then {In} else {}) + (if s.Fires(role, Out) then {Out} else {})
  }

  function Reported(s: Sys, role: Role): seq<Report> {
    if ReadyBits(s, role) == {} then [] else [Report(role, ReadyBits(s, role))]
  }

  lemma {:induction false} SomethingReported(s: Sys)
    requires Good(s) && s.count != 0
    ensures exists role :: Reported(s, role) != []
  {
    var role, ev := NeverSticks(s);
    assert ev in ReadyBits(s, role);
    assert Reported(s, role) != [];
  }

  function AllReported(s: Sys): (batch: seq<Report>)
    requires Good(s) && s.count != 0
    ensures IsBatch(s, batch) && batch != []
  {
    SomethingReported(s);
    Reported(s, Listen) + Reported(s, Client) + Reported(s, Accept)
  }

  ghost predicate AllFire(s: Sys, reports: seq<Report>) {
    forall i, ev :: 0 <= i < |reports| && ev in reports[i].evs ==> s.Fires(reports[i].role, ev)
  }

  ghost predicate SomethingFires(s: Sys) { exists role, ev :: s.Fires(role, ev) }

  /** The whole program, for any positive sizes: it terminates, and unless epoll_wait is late although
      something is ready, with every byte echoed back. */
  method Echo(burst: nat, cap1: nat, cap2: nat, prompt: bool, timeouts: nat) returns (epoll: Epoll, blocked: bool)
    requires 0 < burst && 0 < cap1 && 0 < cap2
    ensures !blocked ==>
      epoll.twlen1 == epoll.trlen1 == epoll.twlen2 == epoll.trlen2 == burst && epoll.watchedCount == 0
    ensures !blocked ==> epoll.kernel.q1 == epoll.kernel.q2 == 0
    ensures !blocked ==> epoll.listen.closed && epoll.client.closed && epoll.accept.closed
    ensures blocked ==> !prompt && SomethingFires(epoll.State())
    ensures blocked <==> epoll.kernel.late
  {
    epoll := new Epoll(burst, cap1, cap2, prompt, timeouts);
    InitialGood(burst, cap1, cap2);
    blocked := epoll.Mainloop();
  }
}
