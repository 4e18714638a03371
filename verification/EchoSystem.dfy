/**
 The echo pipeline of src/epoll_bug.c as a transition system: what one dispatched event does
 to the three watched sockets, the four byte counters and the two kernel pipes.

 The accept socket writes burst_size bytes into pipe 1; the client reads them and echoes them
 into pipe 2; the accept socket reads them back. Pipe 1 holds q1 bytes of at most cap1, pipe 2
 holds q2 of at most cap2.
 */
module EchoSystem {

  datatype Ev = In | Out
  datatype Role = Listen | Client | Accept

  datatype Sys = Sys(
    burst: nat, cap1: nat, cap2: nat, q1: nat, q2: nat,
    twlen1: nat, trlen1: nat, twlen2: nat, trlen2: nat,
    accepted: bool,
    listen: set<Ev>, client: set<Ev>, accept: set<Ev>,   // watched_events
    listenClosed: bool, clientClosed: bool, acceptClosed: bool,
    count: int)                                          // watched_count
  {
    function Watched(role: Role): set<Ev> {
      match role case Listen => listen case Client => client case Accept => accept
    }

    /** What epoll_wait may report: level triggered readability and writability. */
    predicate Ready(role: Role, ev: Ev) {
      match (role, ev)
      case (Listen, In) => !accepted
      case (Listen, Out) => false
      case (Client, In) => q1 > 0 || acceptClosed
      case (Client, Out) => q2 < cap2
      case (Accept, In) => q2 > 0 || clientClosed
      case (Accept, Out) => q1 < cap1
    }

    predicate Fires(role: Role, ev: Ev) {
      ev in Watched(role) && Ready(role, ev)
    }

    /** Bytes not yet counted by one of the four counters. */
    function Todo(): int { 4 * burst - twlen1 - trlen1 - twlen2 - trlen2 }

    function Measure(): int { 2 * Todo() + count + (if accepted then 0 else 2) }
  }

  function Initial(burst: nat, cap1: nat, cap2: nat): Sys {
    Sys(burst, cap1, cap2, 0, 0, 0, 0, 0, 0, false, {In}, {In}, {}, false, false, false, 2)
  }

  /** A dispatched event, with the number of bytes its read or write calls moved. */
  datatype Event =
    | Connect
    | AcceptWrite(k: nat)
    | ClientRead(k: nat)
    | ClientWrite(k: nat)
    | AcceptRead(k: nat, eof: bool)
  {
    function Role(): Role {
      match this
      case Connect => Listen
      case ClientRead(_) => Client
      case ClientWrite(_) => Client
      case AcceptRead(_, _) => Accept
      case AcceptWrite(_) => Accept
    }

    function Ev(): Ev { if ClientWrite? || AcceptWrite? then Out else In }
  }

  /** The event may be dispatched and may move k bytes: a reported pipe yields or takes at least
      one, and an end of file is read only from a drained pipe whose writer closed it. */
  ghost predicate Enabled(s: Sys, e: Event) {
    && s.Fires(e.Role(), e.Ev())
    && match e
       case Connect => true
       case AcceptWrite(k) =>
         s.twlen1 + k <= s.burst && s.q1 + k <= s.cap1 && (k == 0 ==> s.twlen1 == s.burst)
       case ClientRead(k) => k <= s.q1 && (k == 0 ==> s.q1 == 0)
       case ClientWrite(k) => 0 < k && s.twlen2 + k <= s.trlen1 && s.q2 + k <= s.cap2
       case AcceptRead(k, eof) =>
         && k <= s.q2 && (k == 0 ==> eof)
         && (eof ==> s.clientClosed && k == s.q2)
  }

  function Unwatch(w: set<Ev>, ev: Ev, drop: bool): set<Ev> { if drop then w - {ev} else w }

  function One(b: bool): int { if b then 1 else 0 }

  function Apply(s: Sys, e: Event): Sys
    requires Enabled(s, e)
  {
    match e
    case Connect =>
      s.(accepted := true, accept := {In, Out}, listen := {}, listenClosed := true, count := s.count + 1)
    case AcceptWrite(k) =>
      var done := s.twlen1 + k >= s.burst;
      s.(twlen1 := s.twlen1 + k, q1 := s.q1 + k, accept := Unwatch(s.accept, Out, done),
         acceptClosed := s.acceptClosed || (done && s.accept == {Out}), count := s.count - One(done))
    case ClientRead(k) =>
      var watch := s.trlen1 == s.twlen2 && k > 0;
      s.(trlen1 := s.trlen1 + k, q1 := s.q1 - k,
         client := if watch then s.client + {Out} else s.client, count := s.count + One(watch))
    case ClientWrite(k) =>
      var all := s.twlen2 + k >= s.burst && s.twlen2 + k == s.twlen1;
      var drained := s.trlen1 == s.twlen2 + k;
      var left := Unwatch(Unwatch(s.client, In, all), Out, drained);
      s.(twlen2 := s.twlen2 + k, q2 := s.q2 + k, client := left,
         clientClosed := s.clientClosed || left == {}, count := s.count - One(all) - One(drained))
    case AcceptRead(k, eof) =>
      s.(trlen2 := s.trlen2 + k, q2 := s.q2 - k, accept := Unwatch(s.accept, In, eof),
         acceptClosed := s.acceptClosed || (eof && s.accept == {In}), count := s.count - One(eof))
  }

  /** What holds between any two dispatched events. */
  ghost predicate Good(s: Sys) {
    && 0 < s.burst && 0 < s.cap1 && 0 < s.cap2
    && Flow(s) && Ledger(s)
    && (s.accepted <==> In !in s.listen) && Out !in s.listen && s.listenClosed == s.accepted
    && (!s.accepted ==> s.accept == {} && s.twlen1 == 0 && !s.acceptClosed)
    && (In in s.client <==> s.twlen2 < s.burst)
    && (Out in s.client <==> s.twlen2 < s.trlen1)
    && (s.clientClosed <==> s.client == {})
    && (s.accepted ==>
          && (Out in s.accept <==> s.twlen1 < s.burst)
          && (In !in s.accept ==> s.clientClosed && s.q2 == 0)
          && (s.acceptClosed <==> s.accept == {}))
  }

  /** Byte flow: each counter trails the one before it by what is in the pipe or still to be echoed. */
  ghost predicate Flow(s: Sys) {
    && s.trlen2 <= s.twlen2 <= s.trlen1 <= s.twlen1 <= s.burst
    && s.twlen1 - s.trlen1 == s.q1 <= s.cap1
    && s.twlen2 - s.trlen2 == s.q2 <= s.cap2
  }

  /** watched_count is the number of IN and OUT bits of the three objects. */
  ghost predicate Ledger(s: Sys) {
    s.count == One(In in s.listen) + One(Out in s.listen) + One(In in s.client) + One(Out in s.client)
               + One(In in s.accept) + One(Out in s.accept)
  }

  lemma {:induction false} InitialGood(burst: nat, cap1: nat, cap2: nat)
    requires 0 < burst && 0 < cap1 && 0 < cap2
    ensures Good(Initial(burst, cap1, cap2)) && Initial(burst, cap1, cap2).Measure() == 8 * burst + 4
  {
  }

  lemma {:induction false} NoEvents(w: set<Ev>)
    ensures w == {} <==> In !in w && Out !in w
    ensures w == {In} <==> In in w && Out !in w
    ensures w == {Out} <==> In !in w && Out in w
  {
    forall e | e in w ensures e in {In, Out} {
      match e case In => case Out =>
    }
  }

  lemma {:induction false} Sets(s: Sys)
    ensures s.client == {} <==> In !in s.client && Out !in s.client
    ensures s.accept == {} <==> In !in s.accept && Out !in s.accept
    ensures s.accept == {In} <==> In in s.accept && Out !in s.accept
    ensures s.accept == {Out} <==> In !in s.accept && Out in s.accept
  {
    NoEvents(s.client);
    NoEvents(s.accept);
  }

  lemma {:induction false} ConnectGood(s: Sys)
    requires Good(s) && Enabled(s, Connect)
    ensures Good(Apply(s, Connect)) && 0 <= Apply(s, Connect).Measure() < s.Measure()
  {
    Sets(s);
    Sets(Apply(s, Connect));
  }

  lemma {:induction false} AcceptWriteGood(s: Sys, k: nat)
    requires Good(s) && Enabled(s, AcceptWrite(k))
    ensures Good(Apply(s, AcceptWrite(k))) && 0 <= Apply(s, AcceptWrite(k)).Measure() < s.Measure()
  {
    Sets(s);
    Sets(Apply(s, AcceptWrite(k)));
  }

  lemma {:induction false} ClientReadGood(s: Sys, k: nat)
    requires Good(s) && Enabled(s, ClientRead(k))
    ensures Good(Apply(s, ClientRead(k))) && 0 <= Apply(s, ClientRead(k)).Measure() < s.Measure()
  {
    Sets(s);
    Sets(Apply(s, ClientRead(k)));
  }

  lemma {:induction false} ClientWriteGood(s: Sys, k: nat)
    requires Good(s) && Enabled(s, ClientWrite(k))
    ensures Good(Apply(s, ClientWrite(k))) && 0 <= Apply(s, ClientWrite(k)).Measure() < s.Measure()
  {
    Sets(s);
    Sets(Apply(s, ClientWrite(k)));
  }

  lemma {:induction false} AcceptReadGood(s: Sys, k: nat, eof: bool)
    requires Good(s) && Enabled(s, AcceptRead(k, eof))
    ensures Good(Apply(s, AcceptRead(k, eof))) && 0 <= Apply(s, AcceptRead(k, eof)).Measure() < s.Measure()
  {
    Sets(s);
    Sets(Apply(s, AcceptRead(k, eof)));
  }

  /** Every dispatched event keeps the invariant and makes progress. */
  lemma {:induction false} StepGood(s: Sys, e: Event)
    requires Good(s) && Enabled(s, e)
    ensures Good(Apply(s, e))
    ensures 0 <= Apply(s, e).Measure() < s.Measure()
  {
    match e
    case Connect => ConnectGood(s);
    case AcceptWrite(k) => AcceptWriteGood(s, k);
    case ClientRead(k) => ClientReadGood(s, k);
    case ClientWrite(k) => ClientWriteGood(s, k);
    case AcceptRead(k, eof) => AcceptReadGood(s, k, eof);
  }

  /** An event that was reported with others is still watched and ready when its turn comes,
      unless it is the client's IN after the client's OUT; the loop handles IN before OUT. */
  lemma {:induction false} StaysReported(s: Sys, e: Event, role: Role, ev: Ev)
    requires Good(s) && Enabled(s, e) && s.Fires(role, ev)
    requires (role, ev) != (e.Role(), e.Ev())
    requires e.ClientWrite? ==> (role, ev) != (Client, In)
    ensures Apply(s, e).Fires(role, ev)
  {
  }

  /** While something is watched, something is reported: for any pipe capacities. */
  lemma {:induction false} NeverSticks(s: Sys) returns (role: Role, ev: Ev)
    requires Good(s) && s.count != 0
    ensures s.Fires(role, ev)
  {
    Sets(s);
    if !s.accepted {
      return Listen, In;
    } else if s.q1 > 0 {
      return Client, In;
    } else if s.twlen1 < s.burst {
      return Accept, Out;
    } else if s.q2 > 0 || s.clientClosed {
      return Accept, In;
    } else {
      return Client, Out;
    }
  }

  lemma {:induction false} WatchedCounts(s: Sys, role: Role, ev: Ev)
    requires Good(s) && ev in s.Watched(role)
    ensures s.count != 0
  {
  }

  /** When nothing is watched any more, all bytes made the round trip and all sockets are closed. */
  lemma {:induction false} Drained(s: Sys)
    requires Good(s)
    ensures s.count == 0 ==>
      && s.twlen1 == s.trlen1 == s.twlen2 == s.trlen2 == s.burst && s.q1 == s.q2 == 0
      && s.listenClosed && s.clientClosed && s.acceptClosed
  {
    Sets(s);
  }

  ghost predicate Run(s: Sys, es: seq<Event>, t: Sys)
    decreases |es|
  {
    if es == [] then s == t else Enabled(s, es[0]) && Run(Apply(s, es[0]), es[1..], t)
  }

  /** Every run is at most 8 * burst_size + 4 events long, and byte flow and ledger hold throughout. */
  lemma {:induction false} RunGood(s: Sys, es: seq<Event>, t: Sys)
    requires Good(s) && Run(s, es, t)
    ensures Good(t) && |es| + t.Measure() <= s.Measure() && 0 <= t.Measure()
    decreases |es|
  {
    Sets(s);
    if es != [] {
      StepGood(s, es[0]);
      RunGood(Apply(s, es[0]), es[1..], t);
    }
  }

  /** Whatever is reported can be handled. */
  lemma {:induction false} Dispatchable(s: Sys, role: Role, ev: Ev) returns (e: Event)
    requires Good(s) && s.Fires(role, ev)
    ensures Enabled(s, e) && e.Role() == role && e.Ev() == ev
  {
    match (role, ev)
    case (Listen, In) => e := Connect;
    case (Client, In) => e := ClientRead(s.q1);
    case (Client, Out) => e := ClientWrite(1);
    case (Accept, In) => e := AcceptRead(s.q2, s.clientClosed);
    case (Accept, Out) => e := AcceptWrite(1);
  }

  /** From every state between events the echo can be finished, and by RunGood it will be. */
  lemma {:induction false} Finishes(s: Sys) returns (es: seq<Event>, t: Sys)
    requires Good(s)
    ensures Run(s, es, t) && t.count == 0
    decreases s.Measure()
  {
    if s.count == 0 {
      es, t := [], s;
    } else {
      var role, ev := NeverSticks(s);
      var e := Dispatchable(s, role, ev);
      StepGood(s, e);
      var rest, u := Finishes(Apply(s, e));
      es, t := [e] + rest, u;
      assert es[1..] == rest;
    }
  }

  /** With burst_size 0 the client is never told to stop: it stays watched in every run. */
  lemma {:induction false} ZeroBurst(s: Sys, es: seq<Event>, t: Sys)
    requires s.burst == 0 && s.twlen1 == s.trlen1 == s.twlen2 == s.q1 == 0
    requires s.client == {In} && !s.clientClosed && In in s.accept + s.listen && Run(s, es, t)
    requires s.q2 == 0 && (!s.accepted ==> s.accept == {}) && (s.accepted ==> s.listen == {})
    requires Ledger(s) && !s.acceptClosed && Out !in s.listen
    ensures t.client == {In} && t.count != 0
    decreases |es|
  {
    if es != [] {
      ZeroBurst(Apply(s, es[0]), es[1..], t);
    }
  }

  ghost predicate CanFinish(s: Sys) {
    exists es: seq<Event>, t: Sys :: Run(s, es, t) && t.count == 0
  }

  /** watched_count reaches 0 exactly if there is something to send. */
  lemma {:induction false} FinishesExactly(burst: nat, cap1: nat, cap2: nat)
    requires 0 < cap1 && 0 < cap2
    ensures CanFinish(Initial(burst, cap1, cap2)) <==> 0 < burst
  {
    var s := Initial(burst, cap1, cap2);
    if 0 < burst {
      InitialGood(burst, cap1, cap2);
      var es, t := Finishes(s);
    } else if CanFinish(s) {
      var es: seq<Event>, t: Sys :| Run(s, es, t) && t.count == 0;
      ZeroBurst(s, es, t);
    }
  }

  /** Once the accept socket has found nothing to write, nothing is ready any more. */
  lemma {:induction false} ZeroBurstBlocks(cap1: nat, cap2: nat) returns (t: Sys)
    requires 0 < cap1 && 0 < cap2
    ensures Run(Initial(0, cap1, cap2), [Connect, AcceptWrite(0)], t)
    ensures t.count == 2 && (forall e: Event :: !Enabled(t, e)) && forall role, ev :: !t.Fires(role, ev)
  {
    var s := Initial(0, cap1, cap2);
    var s1 := Apply(s, Connect);
    t := Apply(s1, AcceptWrite(0));
    assert Run(t, [], t);
    assert [Connect, AcceptWrite(0)][1..] == [AcceptWrite(0)];
    assert [AcceptWrite(0)][1..] == [];
    assert Run(s1, [AcceptWrite(0)], t);
  }

  /** Echo backlog, but the client does not watch OUT. */
  ghost predicate Stalled(s: Sys) {
    s.accepted && In in s.client && Out !in s.client && s.twlen2 < s.trlen1 && Ledger(s)
  }

  /** The progress of writes under EPOLLOUT is needed: had write taken nothing, the handler would
      return 0 and the loop would drop OUT with a backlog. */
  lemma {:induction false} FailedWriteStalls(s: Sys)
    requires Good(s) && Out in s.client
    ensures Stalled(s.(client := s.client - {Out}, count := s.count - 1))
  {
  }

  lemma {:induction false} StalledStep(s: Sys, e: Event)
    requires Stalled(s) && Enabled(s, e)
    ensures Stalled(Apply(s, e)) && Apply(s, e).twlen2 == s.twlen2
  {
  }

  /** ClientSocket_read_event never adds OUT again then, so that the echo never finishes. */
  lemma {:induction false} StalledForever(s: Sys, es: seq<Event>, t: Sys)
    requires Stalled(s) && Run(s, es, t)
    ensures Stalled(t) && t.twlen2 == s.twlen2 && t.count != 0
    decreases |es|
  {
    if es != [] {
      StalledStep(s, es[0]);
      StalledForever(Apply(s, es[0]), es[1..], t);
    }
  }
}
