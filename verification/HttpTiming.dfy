/**
 When replies are written, said without the functions of HttpServer: which timers must have expired,
 which replies close the connection, and what each reply carries.
 */
module HttpTiming {
  import opened HttpText
  import opened HttpRequest
  import opened HttpServer
  import opened HttpRun

  //
  // One call
  //

  /** The first a replies are awake, and the next one, if there is one, is not. */
  ghost predicate AwakeUpTo(q: seq<Reply>, a: nat) {
    a <= |q| && (forall j :: 0 <= j < a ==> q[j].sleep == 0) && (a < |q| ==> q[a].sleep != 0)
  }

  /** process_replies on an open connection, exactly: of the replies before the first that sleeps, those
      up to a must-close one are written; it is such a reply that closes. */
  lemma {:induction false} DrainExactly(c: Conn, a: nat)
    requires !c.closed && AwakeUpTo(c.queue, a)
    ensures Drain(c.(closed := true)) == c.(closed := true)
    ensures Drain(c) == c.(written := c.written + Deliverable(c.queue[..a]), closed := HasClose(c.queue[..a]),
                           queue := if HasClose(c.queue[..a]) then [] else c.queue[a..])
    decreases |c.queue|
  {
    if a > 0 {
      var q := c.queue[..a];
      HasCloseCons(q);
      assert q[0] == c.queue[0] && q[1..] == c.queue[1..][..a - 1];
      if !q[0].mustClose {
        var next := c.(written := c.written + [c.queue[0]], queue := c.queue[1..]);
        DrainExactly(next, a - 1);
        Associative(c.written, [q[0]], Deliverable(q[1..]));
        assert next.queue[a - 1..] == c.queue[a..];
      }
    } else {
      assert c.queue[..0] == [] && c.queue[0..] == c.queue && c.written + [] == c.written;
    }
  }

  /** process_replies closes only for a must-close reply that has no sleeping reply before it and does
      not sleep itself. */
  lemma {:induction false} DrainClosesAwake(c: Conn) returns (i: nat)
    requires !c.closed && Drain(c).closed
    ensures i < |c.queue| && c.queue[i].mustClose && forall j :: 0 <= j <= i ==> c.queue[j].sleep == 0
  {
    var a := 0;
    while a < |c.queue| && c.queue[a].sleep == 0
      invariant a <= |c.queue| && forall j :: 0 <= j < a ==> c.queue[j].sleep == 0
    {
      a := a + 1;
    }
    DrainExactly(c, a);
    i :| 0 <= i < a && c.queue[..a][i].mustClose;
  }

  /** The reply r answers w, as the number-th of the connection. */
  ghost predicate Answers(r: Reply, w: Wanted, instance: int, number: nat) {
    && r.params.request == w.request && r.params.instance == instance
    && (number <= INT_MAX ==> r.params.counter == number)
    && r.mustClose == w.mustClose && (r.hasRequest <==> w.request != 0)
  }

  /** queue_reply behind a reply that sleeps, or with a sleep: one more reply waits, with that sleep. */
  lemma {:induction false} EnqueueWaits(c: Conn, w: Wanted)
    requires !c.closed && Settled(c) && (c.queue != [] || w.sleep > 0)
    ensures var d := Enqueue(c, w);
      && !d.closed && d.written == c.written && |d.queue| == |c.queue| + 1 && d.queue[..|c.queue|] == c.queue
      && d.queue[|c.queue|].sleep == w.sleep && Answers(d.queue[|c.queue|], w, c.instance, c.counter + 1)
  {
  }

  /** queue_reply on an idle connection, without a sleep: the reply is written at once, or closes. */
  lemma {:induction false} EnqueueWrites(c: Conn, w: Wanted)
    requires !c.closed && c.queue == [] && w.sleep == 0
    ensures var d := Enqueue(c, w);
      && d.queue == [] && d.closed == w.mustClose
      && (if w.mustClose && w.request == 0 then d.written == c.written
          else |d.written| == |c.written| + 1 && d.written[..|c.written|] == c.written
               && d.written[|c.written|].sleep == 0 && Answers(d.written[|c.written|], w, c.instance, c.counter + 1))
  {
    var r := NewReply(c.instance, c.counter + 1, w);
    var q := Queued(c, r).queue;
    assert q == [r] && q[..1] == [r] && q[1..] == [] && [r][1..] == [];
    DrainExactly(Queued(c, r), 1);
    HasCloseCons([r]);
  }

  /** The expiry of the timer of a reply behind a sleeping one wakes that reply and nothing else. */
  lemma {:induction false} TimedOutBehind(c: Conn, i: nat)
    requires !c.closed && 0 < i < |c.queue| && Settled(c)
    ensures var d := TimedOut(c, i);
      && !d.closed && d.written == c.written && |d.queue| == |c.queue| && d.queue[i].sleep == 0
      && d.queue[i] == c.queue[i].(sleep := 0) && forall j :: 0 <= j < |c.queue| && j != i ==> d.queue[j] == c.queue[j]
  {
  }

  /** The expiry of the first timer writes the first reply, or closes. */
  lemma {:induction false} TimedOutFirst(c: Conn)
    requires !c.closed && c.queue != []
    ensures var d := TimedOut(c, 0);
      && (d.closed || |d.queue| < |c.queue|)
      && (c.queue[0].mustClose ==> d.closed)
      && (c.queue[0].hasRequest || !c.queue[0].mustClose ==> c.written + [c.queue[0].(sleep := 0)] <= d.written)
  {
    var r := c.queue[0].(sleep := 0);
    var q := c.queue[0 := r];
    assert q == [r] + q[1..];
    var a := 1;
    while a < |q| && q[a].sleep == 0
      invariant a <= |q| && forall j :: 0 <= j < a ==> q[j].sleep == 0
    {
      a := a + 1;
    }
    DrainExactly(c.(queue := q), a);
    assert q[..a] == [r] + q[1..a];
    assert q[..a][0].mustClose ==> HasClose(q[..a]);
  }

  /** A read error closes, whatever was queued, and writes nothing. */
  lemma {:induction false} FailedCloses(c: Conn)
    ensures Failed(c).closed && Failed(c).queue == [] && Failed(c).written == c.written && Failed(c).log == c.log
  {
  }

  //
  // Whole runs
  //

  /** The replies of a connection, by number from 0, whose timers expired during a run. */
  ghost function Woken(s: Server, hs: seq<Happening>): set<int>
    decreases |hs|
  {
    if hs == [] || !Enabled(s, hs[0]) then {}
    else
      (if hs[0].TimerFires? then {s.conn.counter - |s.conn.queue| + hs[0].i} else {}) + Woken(Step(s, hs[0]), hs[1..])
  }

  /** Reply i is still to wait for its timer. */
  ghost predicate Asleep(ws: seq<Wanted>, woken: set<int>, i: nat)
    requires i < |ws|
  {
    ws[i].sleep > 0 && i !in woken
  }

  ghost predicate Written(c: Conn, ws: seq<Wanted>, woken: set<int>) {
    && |c.written| <= |ws| == c.counter && |c.queue| <= |ws|
    && forall i :: 0 <= i < |c.written| ==> Answers(c.written[i], ws[i], c.instance, i + 1) && !Asleep(ws, woken, i)
  }

  ghost predicate Waiting(c: Conn, ws: seq<Wanted>, woken: set<int>)
    requires Written(c, ws, woken)
  {
    && |c.written| + |c.queue| == |ws|
    && (forall i :: 0 <= i < |c.written| ==> !ws[i].mustClose)
    && forall p :: 0 <= p < |c.queue| ==>
         var i := |c.written| + p;
         Answers(c.queue[p], ws[i], c.instance, i + 1)
         && c.queue[p].sleep == (if i in woken then 0 else ws[i].sleep)
  }

  /** Reply m is the first that must close, and neither it nor one before it still waits. */
  ghost predicate ClosedBy(c: Conn, ws: seq<Wanted>, woken: set<int>, m: nat) {
    && m < |ws| && ws[m].mustClose && (forall j :: 0 <= j < m ==> !ws[j].mustClose)
    && (forall j :: 0 <= j <= m ==> !Asleep(ws, woken, j))
    && |c.written| == if ws[m].request != 0 then m + 1 else m
  }

  /** How a connection stands that was to answer ws, when these timers have expired. */
  ghost predicate Timed(c: Conn, ws: seq<Wanted>, woken: set<int>) {
    && Written(c, ws, woken)
    && if !c.closed then Waiting(c, ws, woken) && !c.failed
       else if !c.failed then exists m: nat :: ClosedBy(c, ws, woken, m)
       else forall i :: 0 <= i < |c.written| ==> !ws[i].mustClose
  }

  lemma {:induction false} FrontTimed(c: Conn, ws: seq<Wanted>, woken: set<int>)
    requires Timed(c, ws, woken) && !Settled(c)
    ensures !Asleep(ws, woken, |c.written|) && Answers(c.queue[0], ws[|c.written|], c.instance, |c.written| + 1)
    ensures !c.queue[0].mustClose ==> Timed(c.(written := c.written + [c.queue[0]], queue := c.queue[1..]), ws, woken)
  {
    var n := |c.written|;
    assert n + 0 == n;
  }

  lemma {:induction false} DrainTimed(c: Conn, ws: seq<Wanted>, woken: set<int>)
    requires Timed(c, ws, woken)
    ensures Timed(Drain(c), ws, woken)
    decreases |c.queue|
  {
    if !Settled(c) {
      FrontTimed(c, ws, woken);
      if c.queue[0].mustClose {
        assert ClosedBy(Drain(c), ws, woken, |c.written|);
      } else {
        DrainTimed(c.(written := c.written + [c.queue[0]], queue := c.queue[1..]), ws, woken);
      }
    }
  }

  lemma {:induction false} EnqueueTimed(c: Conn, ws: seq<Wanted>, woken: set<int>, w: Wanted)
    requires Timed(c, ws, woken) && forall i :: i in woken ==> i < |ws|
    ensures Timed(Enqueue(c, w), ws + [w], woken)
  {
    var d := Queued(c, NewReply(c.instance, c.counter + 1, w));
    if c.closed && !c.failed {
      var m: nat :| ClosedBy(c, ws, woken, m);
      forall j | 0 <= j <= m ensures !Asleep(ws + [w], woken, j) {
        assert !Asleep(ws, woken, j);
      }
      assert ClosedBy(d, ws + [w], woken, m);
    }
    DrainTimed(d, ws + [w], woken);
  }

  lemma {:induction false} TimedOutTimed(c: Conn, ws: seq<Wanted>, woken: set<int>, i: nat)
    requires Timed(c, ws, woken) && i < |c.queue|
    ensures Timed(TimedOut(c, i), ws, woken + {|ws| - |c.queue| + i})
  {
    var more := woken + {|ws| - |c.queue| + i};
    var d := c.(queue := c.queue[i := Awake(c.queue[i])]);
    if c.closed && !c.failed {
      var m: nat :| ClosedBy(c, ws, woken, m);
      forall j | 0 <= j <= m ensures !Asleep(ws, more, j) {
        assert !Asleep(ws, woken, j);
      }
      assert ClosedBy(d, ws, more, m);
    }
    DrainTimed(d, ws, more);
  }

  lemma {:induction false} FailedTimed(c: Conn, ws: seq<Wanted>, woken: set<int>)
    requires Timed(c, ws, woken)
    ensures Timed(Failed(c), ws, woken)
  {
    if c.closed && !c.failed {
      var m: nat :| ClosedBy(c, ws, woken, m);
      assert ClosedBy(Failed(c), ws, woken, m);
    }
  }

  ghost predicate Past(ws: seq<Wanted>, woken: set<int>) { forall i :: i in woken ==> i < |ws| }

  lemma {:induction false} ReceiveTimed(s: Server, chunk: string, ws: seq<Wanted>, woken: set<int>)
    requires Timed(s.conn, ws, woken) && Past(ws, woken) && s.reader.scan.eom < 4
    ensures Timed(Receive(s, chunk).conn, ws + ReadAll(s.reader, chunk).1, woken)
    ensures Receive(s, chunk).reader == ReadAll(s.reader, chunk).0
    decreases |chunk|
  {
    if chunk == [] {
      assert ws + [] == ws;
    } else {
      var (reader, w) := ReadChar(s.reader, chunk[0]);
      if w == [] {
        assert ws + w == ws;
      } else {
        EnqueueTimed(s.conn, ws, woken, w[0]);
        assert w == [w[0]];
      }
      ReceiveTimed(ReceiveChar(s, chunk[0]), chunk[1..], ws + w, woken);
      Associative(ws, w, ReadAll(reader, chunk[1..]).1);
    }
  }

  lemma {:induction false} StepTimed(s: Server, h: Happening, ws: seq<Wanted>, woken: set<int>)
    requires Timed(s.conn, ws, woken) && Past(ws, woken) && Enabled(s, h)
    ensures var first := if h.Read? then h.chunk else [];
      && Step(s, h).reader == ReadAll(s.reader, first).0
      && Timed(Step(s, h).conn, ws + ReadAll(s.reader, first).1, woken + Woken(s, [h]))
      && Past(ws + ReadAll(s.reader, first).1, woken + Woken(s, [h]))
  {
    assert [h][1..] == [] && Woken(Step(s, h), []) == {};
    assert ws + [] == ws;
    match h
    case Read(chunk) =>
      ReceiveTimed(s, chunk, ws, woken);
      assert woken + Woken(s, [h]) == woken;
    case ReadFails =>
      FailedTimed(s.conn, ws, woken);
      assert woken + Woken(s, [h]) == woken;
    case TimerFires(i) =>
      TimedOutTimed(s.conn, ws, woken, i);
      assert Woken(s, [h]) == {s.conn.counter - |s.conn.queue| + i};
  }

  lemma {:induction false} WokenFirst(s: Server, hs: seq<Happening>)
    requires hs != [] && Enabled(s, hs[0])
    ensures Woken(s, hs) == Woken(s, [hs[0]]) + Woken(Step(s, hs[0]), hs[1..])
  {
    assert [hs[0]][1..] == [] && Woken(Step(s, hs[0]), []) == {};
  }

  lemma {:induction false} RunTimed(s: Server, hs: seq<Happening>, t: Server, ws: seq<Wanted>, woken: set<int>)
    requires Timed(s.conn, ws, woken) && Past(ws, woken) && Run(s, hs, t) && s.reader.scan.eom < 4
    ensures Timed(t.conn, ws + ReadAll(s.reader, Stream(hs)).1, woken + Woken(s, hs))
    decreases |hs|
  {
    if hs == [] {
      assert ws + [] == ws && woken + {} == woken;
    } else {
      var next, first := Step(s, hs[0]), if hs[0].Read? then hs[0].chunk else [];
      var w := ReadAll(s.reader, first).1;
      var more, rest := Woken(s, [hs[0]]), Woken(next, hs[1..]);
      StepTimed(s, hs[0], ws, woken);
      RunTimed(next, hs[1..], t, ws + w, woken + more);
      ReadAppend(s.reader, first, Stream(hs[1..]));
      Associative(ws, w, ReadAll(next.reader, Stream(hs[1..])).1);
      WokenFirst(s, hs);
      assert (woken + more) + rest == woken + (more + rest);
    }
  }

  /** How many replies to ws are to be written. */
  function Due(ws: seq<Wanted>): nat {
    if ws == [] then 0
    else if ws[0].mustClose then if ws[0].request != 0 then 1 else 0
    else 1 + Due(ws[1..])
  }

  lemma {:induction false} DueAt(ws: seq<Wanted>, m: nat)
    requires m <= |ws| && (forall j :: 0 <= j < m ==> !ws[j].mustClose) && (m < |ws| ==> ws[m].mustClose)
    ensures Due(ws) == if m < |ws| && ws[m].request != 0 then m + 1 else m
    decreases m
  {
    if m > 0 {
      DueAt(ws[1..], m - 1);
    }
  }

  /** Reply a is the first that still has to wait for its timer. */
  ghost predicate FirstAsleep(ws: seq<Wanted>, woken: set<int>, a: nat) {
    a <= |ws| && (forall j :: 0 <= j < a ==> !Asleep(ws, woken, j)) && (a < |ws| ==> Asleep(ws, woken, a))
  }

  /** What was written, exactly. Of the requests that were read, take those before the first whose timer
      is still to expire, and of these those up to a must-close one: their replies were written, in
      order, each with the number of its request; and the connection is closed exactly if there was such
      a must-close one. */
  lemma {:induction false} WrittenExactly(instance: int, hs: seq<Happening>, t: Server, a: nat)
    requires Run(Accepted(instance), hs, t)
    requires FirstAsleep(ReadAll(READY, Stream(hs)).1, Woken(Accepted(instance), hs), a)
    ensures var ws := ReadAll(READY, Stream(hs)).1;
      && |t.conn.written| <= |ws|
      && (forall i :: 0 <= i < |t.conn.written| ==> Answers(t.conn.written[i], ws[i], instance, i + 1))
      && (if t.conn.failed then |t.conn.written| <= Due(ws[..a])
          else |t.conn.written| == Due(ws[..a]) && (t.conn.closed <==> exists m :: 0 <= m < a && ws[m].mustClose))
  {
    var ws, woken := ReadAll(READY, Stream(hs)).1, Woken(Accepted(instance), hs);
    RunTimed(Accepted(instance), hs, t, [], {});
    RunContinues(Accepted(instance), hs, t);
    assert [] + ws == ws && {} + woken == woken;
    StandsExactly(t.conn, ws, woken, a);
  }

  lemma {:induction false} StandsExactly(c: Conn, ws: seq<Wanted>, woken: set<int>, a: nat)
    requires Timed(c, ws, woken) && Settled(c) && FirstAsleep(ws, woken, a)
    ensures if c.failed then |c.written| <= Due(ws[..a])
            else |c.written| == Due(ws[..a]) && (c.closed <==> exists m :: 0 <= m < a && ws[m].mustClose)
  {
    var n := |c.written|;
    if c.closed && !c.failed {
      var m: nat :| ClosedBy(c, ws, woken, m);
      DueAt(ws[..a], m);
    } else if c.closed {
      DueBeyond(ws[..a], n);
    } else {
      assert n < |ws| ==> c.queue[0].sleep != 0 && Asleep(ws, woken, n + 0);
      DueAt(ws[..a], a);
    }
  }

  lemma {:induction false} DueBeyond(ws: seq<Wanted>, n: nat)
    requires n <= |ws| && forall j :: 0 <= j < n ==> !ws[j].mustClose
    ensures n <= Due(ws)
    decreases n
  {
    if n > 0 {
      DueBeyond(ws[1..], n - 1);
    }
  }

  /** After a read error the connection is closed for good. */
  lemma {:induction false} ErrorCloses(s: Server, hs: seq<Happening>, t: Server)
    requires Inv(s.conn) && Settled(s.conn) && s.reader.scan.eom < 4 && Run(s, hs, t)
    requires s.conn.closed || ReadFails in hs
    ensures t.conn.closed
    decreases |hs|
  {
    if hs != [] {
      StepContinues(s, hs[0]);
      if hs[0].ReadFails? {
        FailedCloses(s.conn);
      }
      ErrorCloses(Step(s, hs[0]), hs[1..], t);
    }
  }

  lemma {:induction false} RunAppend(s: Server, a: seq<Happening>, t: Server, b: seq<Happening>, u: Server)
    requires Run(s, a, t) && Run(t, b, u)
    ensures Run(s, a + b, u)
    decreases |a|
  {
    if a == [] {
      assert a + b == b;
    } else {
      var next := Step(s, a[0]);
      RunAppend(next, a[1..], t, b, u);
      RunFirst(s, a[0], a[1..] + b, u);
      assert [a[0]] + (a[1..] + b) == a + b;
    }
  }

  lemma {:induction false} RunFirst(s: Server, h: Happening, rest: seq<Happening>, t: Server)
    requires Enabled(s, h) && Run(Step(s, h), rest, t)
    ensures Run(s, [h] + rest, t)
  {
    assert ([h] + rest)[1..] == rest;
  }

  lemma {:induction false} StreamAppend(a: seq<Happening>, b: seq<Happening>)
    ensures Stream(a + b) == Stream(a) + Stream(b)
    decreases |a|
  {
    if a == [] {
      assert a + b == b;
    } else {
      assert (a + b)[0] == a[0] && (a + b)[1..] == a[1..] + b;
      StreamAppend(a[1..], b);
    }
  }

  /** The timers that are still armed, expiring one after the other, leave nothing to wait for. */
  lemma {:induction false} TimersFinish(s: Server) returns (hs: seq<Happening>, t: Server)
    requires Inv(s.conn) && Settled(s.conn) && s.reader.scan.eom < 4
    ensures Run(s, hs, t) && Stream(hs) == [] && ReadFails !in hs && (t.conn.closed || t.conn.queue == [])
    decreases |s.conn.queue|
  {
    if s.conn.closed || s.conn.queue == [] {
      hs, t := [], s;
    } else {
      var next := Step(s, TimerFires(0));
      TimedOutInv(s.conn, 0);
      TimedOutFirst(s.conn);
      if next.conn.closed {
        hs, t := [], next;
      } else {
        hs, t := TimersFinish(next);
      }
      var rest := hs;
      hs := [TimerFires(0)] + rest;
      assert hs[1..] == rest;
    }
  }

  /** Whenever all generated requests were read without an error, in any chunks and with any timers, the
      remaining timers bring all replies that are to be written onto the wire. */
  lemma {:induction false} EveryRequestAnswered(instance: int, qs: seq<Request>, hs: seq<Happening>, s: Server)
    returns (more: seq<Happening>, t: Server)
    requires forall i :: 0 <= i < |qs| ==> qs[i].InRange()
    requires Run(Accepted(instance), hs, s) && Stream(hs) == PrintAll(qs) && ReadFails !in hs
    ensures Run(s, more, t) && Stream(more) == [] && ReadFails !in more
    ensures |t.conn.written| == Due(Meanings(qs)) && |t.conn.written| <= |Meanings(qs)|
    ensures forall i :: 0 <= i < |t.conn.written| ==> Answers(t.conn.written[i], Meanings(qs)[i], instance, i + 1)
  {
    RunContinues(Accepted(instance), hs, s);
    more, t := TimersFinish(s);
    RunAppend(Accepted(instance), hs, s, more, t);
    StreamAppend(hs, more);
    assert Stream(hs + more) == PrintAll(qs);
    AllWritten(instance, qs, hs + more, t);
  }

  lemma {:induction false} AllWritten(instance: int, qs: seq<Request>, hs: seq<Happening>, t: Server)
    requires forall i :: 0 <= i < |qs| ==> qs[i].InRange()
    requires Run(Accepted(instance), hs, t) && Stream(hs) == PrintAll(qs) && ReadFails !in hs
    requires t.conn.closed || t.conn.queue == []
    ensures |t.conn.written| == Due(Meanings(qs)) && |t.conn.written| <= |Meanings(qs)|
    ensures forall i :: 0 <= i < |t.conn.written| ==> Answers(t.conn.written[i], Meanings(qs)[i], instance, i + 1)
  {
    ReadRequests(qs);
    var ws, woken := Meanings(qs), Woken(Accepted(instance), hs);
    RunContinues(Accepted(instance), hs, t);
    RunTimed(Accepted(instance), hs, t, [], {});
    assert [] + ws == ws && {} + woken == woken;
    if t.conn.closed {
      var m: nat :| ClosedBy(t.conn, ws, woken, m);
      DueAt(ws, m);
    } else {
      DueAt(ws, |ws|);
    }
  }
}
