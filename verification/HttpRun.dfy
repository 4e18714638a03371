/** Whole runs of a connection: reads of any size, timer expiries and errors in any order. */
module HttpRun {
  import opened HttpText
  import opened HttpRequest
  import opened HttpReply
  import opened HttpServer

  datatype Happening =
    | Read(chunk: string)   // handle_read without an error
    | ReadFails             // handle_read with an error other than operation_aborted
    | TimerFires(i: nat)    // the timer of the i-th reply in the queue

  ghost predicate Enabled(s: Server, h: Happening) {
    s.reader.scan.eom < 4 && (h.TimerFires? ==> h.i < |s.conn.queue| && s.conn.queue[h.i].sleep > 0)
  }

  function Step(s: Server, h: Happening): Server
    requires Enabled(s, h)
  {
    match h
    case Read(chunk) => Receive(s, chunk)
    case ReadFails => s.(conn := Failed(s.conn))
    case TimerFires(i) => s.(conn := TimedOut(s.conn, i))
  }

  ghost predicate Run(s: Server, hs: seq<Happening>, t: Server)
    decreases |hs|
  {
    if hs == [] then s == t else Enabled(s, hs[0]) && Run(Step(s, hs[0]), hs[1..], t)
  }

  /** All that was read, however it was cut. */
  function Stream(hs: seq<Happening>): string {
    if hs == [] then [] else (if hs[0].Read? then hs[0].chunk else []) + Stream(hs[1..])
  }

  /** The replies that the wanted ones are formatted as. */
  function LogOf(instance: int, counter: nat, ws: seq<Wanted>): seq<Reply>
    decreases |ws|
  {
    if ws == [] then []
    else [Awake(NewReply(instance, counter + 1, ws[0]))] + LogOf(instance, counter + 1, ws[1..])
  }

  lemma {:induction false} LogOfAppend(instance: int, counter: nat, a: seq<Wanted>, b: seq<Wanted>)
    ensures LogOf(instance, counter, a + b) == LogOf(instance, counter, a) + LogOf(instance, counter + |a|, b)
    decreases |a|
  {
    if a == [] {
      assert a + b == b;
    } else {
      assert (a + b)[1..] == a[1..] + b;
      LogOfAppend(instance, counter + 1, a[1..], b);
    }
  }

  /** How t continues s, when ws are the replies wanted in between. */
  ghost predicate Continues(s: Conn, t: Conn, ws: seq<Wanted>) {
    && t.instance == s.instance && t.counter == s.counter + |ws|
    && t.log == s.log + LogOf(s.instance, s.counter, ws)
    && s.written <= t.written && (s.closed ==> t.closed && t.written == s.written)
  }

  lemma {:induction false} ContinuesTransitive(s: Conn, t: Conn, u: Conn, a: seq<Wanted>, b: seq<Wanted>)
    requires Continues(s, t, a) && Continues(t, u, b)
    ensures Continues(s, u, a + b)
  {
    LogOfAppend(s.instance, s.counter, a, b);
    Associative(s.log, LogOf(s.instance, s.counter, a), LogOf(s.instance, s.counter + |a|, b));
  }

  lemma {:induction false} ReceiveContinues(s: Server, chunk: string)
    requires Inv(s.conn) && Settled(s.conn) && s.reader.scan.eom < 4
    ensures var t := Receive(s, chunk);
      && t.reader == ReadAll(s.reader, chunk).0
      && Inv(t.conn) && Settled(t.conn)
      && Continues(s.conn, t.conn, ReadAll(s.reader, chunk).1)
      && (t.conn.failed <==> s.conn.failed)
    decreases |chunk|
  {
    if chunk != [] {
      var (reader, ws) := ReadChar(s.reader, chunk[0]);
      var next := ReceiveChar(s, chunk[0]);
      CharContinues(s, chunk[0]);
      ReceiveContinues(next, chunk[1..]);
      ContinuesTransitive(s.conn, next.conn, Receive(s, chunk).conn, ws, ReadAll(reader, chunk[1..]).1);
    }
  }

  lemma {:induction false} CharContinues(s: Server, c: char)
    requires Inv(s.conn) && Settled(s.conn) && s.reader.scan.eom < 4
    ensures var t := ReceiveChar(s, c);
      && t.reader == ReadChar(s.reader, c).0
      && Inv(t.conn) && Settled(t.conn)
      && Continues(s.conn, t.conn, ReadChar(s.reader, c).1)
      && (t.conn.failed <==> s.conn.failed)
  {
    var ws := ReadChar(s.reader, c).1;
    if ws == [] {
      ContinuesSame(s.conn, s.conn);
    } else {
      EnqueueContinues(s.conn, ws[0]);
    }
  }

  lemma {:induction false} ContinuesSame(c: Conn, d: Conn)
    requires d.instance == c.instance && d.counter == c.counter && d.log == c.log
    requires c.written <= d.written && (c.closed ==> d.closed && d.written == c.written)
    ensures Continues(c, d, [])
  {
  }

  lemma {:induction false} EnqueueContinues(c: Conn, w: Wanted)
    requires Inv(c)
    ensures Inv(Enqueue(c, w)) && Settled(Enqueue(c, w)) && Continues(c, Enqueue(c, w), [w])
    ensures Enqueue(c, w).failed == c.failed
  {
    EnqueueInv(c, w);
    assert LogOf(c.instance, c.counter, [w]) == [Awake(NewReply(c.instance, c.counter + 1, w))];
  }

  lemma {:induction false} StepContinues(s: Server, h: Happening)
    requires Inv(s.conn) && Settled(s.conn) && Enabled(s, h)
    ensures Inv(Step(s, h).conn) && Settled(Step(s, h).conn)
    ensures var t := Step(s, h);
      if h.Read? then
        && t.reader == ReadAll(s.reader, h.chunk).0
        && Continues(s.conn, t.conn, ReadAll(s.reader, h.chunk).1)
      else
        t.reader == s.reader && Continues(s.conn, t.conn, [])
    ensures Step(s, h).conn.failed ==> s.conn.failed || h.ReadFails?
  {
    match h
    case Read(chunk) => ReceiveContinues(s, chunk);
    case ReadFails =>
      DeliverablePrefix(s.conn.written, Awakes(s.conn.queue));
      ContinuesSame(s.conn, Failed(s.conn));
    case TimerFires(i) =>
      TimedOutInv(s.conn, i);
      ContinuesSame(s.conn, TimedOut(s.conn, i));
  }

  lemma {:induction false} RunContinues(s: Server, hs: seq<Happening>, t: Server)
    requires Inv(s.conn) && Settled(s.conn) && s.reader.scan.eom < 4 && Run(s, hs, t)
    ensures t.reader == ReadAll(s.reader, Stream(hs)).0
    ensures Inv(t.conn) && Settled(t.conn)
    ensures Continues(s.conn, t.conn, ReadAll(s.reader, Stream(hs)).1)
    ensures t.conn.failed && !s.conn.failed ==> ReadFails in hs
    decreases |hs|
  {
    if hs != [] {
      var next := Step(s, hs[0]);
      StepContinues(s, hs[0]);
      RunContinues(next, hs[1..], t);
      assert ReadAll(s.reader, []).1 == [];
      var first := if hs[0].Read? then hs[0].chunk else [];
      ReadAppend(s.reader, first, Stream(hs[1..]));
      ContinuesTransitive(s.conn, next.conn, t.conn, ReadAll(s.reader, first).1, ReadAll(next.reader, Stream(hs[1..])).1);
    }
  }

  lemma {:induction false} TextsPrefix(a: seq<Reply>, b: seq<Reply>)
    requires a <= b
    ensures Texts(a) <= Texts(b)
    decreases |a|
  {
    if a != [] {
      TextsPrefix(a[1..], b[1..]);
    }
  }

  /** A beginning of the requests, read, makes a beginning of the replies. */
  lemma {:induction false} LogIsPrefix(instance: int, qs: seq<Request>, s: string)
    requires forall i :: 0 <= i < |qs| ==> qs[i].InRange()
    requires s <= PrintAll(qs)
    ensures LogOf(instance, 0, ReadAll(READY, s).1) <= LogOf(instance, 0, Meanings(qs))
  {
    var rest := PrintAll(qs)[|s|..];
    var (mid, ws) := ReadAll(READY, s);
    ReadRequests(qs);
    assert PrintAll(qs) == s + rest;
    ReadAppend(READY, s, rest);
    LogOfAppend(instance, 0, ws, ReadAll(mid, rest).1);
  }

  lemma {:induction false} WrittenIsDeliverable(c: Conn)
    requires Inv(c) && Settled(c)
    ensures c.written <= Deliverable(c.log) <= c.log
    ensures forall i :: 0 <= i < |c.written| ==> c.written[i].sleep == 0
    ensures !c.failed && (c.closed || forall i :: 0 <= i < |c.queue| ==> c.queue[i].sleep == 0) ==>
      c.written == Deliverable(c.log)
  {
    DeliverablePrefix(c.written, Awakes(c.queue));
    DeliverablePrefix(c.log, []);
  }

  lemma {:induction false} DeliverableMonotone(a: seq<Reply>, b: seq<Reply>)
    requires a <= b
    ensures Deliverable(a) <= Deliverable(b) <= b
  {
    DeliverablePrefix(a, b[|a|..]);
    DeliverablePrefix(b, []);
    assert a + b[|a|..] == b;
  }

  /** Replies in order, end to end. For any generated requests, read in any chunks (all of them or a
      beginning), with timers expiring at any time: what was written is a beginning of the replies
      to these requests, numbered from 1, up to the first that must close the connection; no reply
      was written asleep; and the connection is closed, or idle, or waits for the timer of the next
      reply. */
  lemma {:induction false} RepliesInOrder(instance: int, qs: seq<Request>, hs: seq<Happening>, t: Server)
    requires forall i :: 0 <= i < |qs| ==> qs[i].InRange()
    requires Run(Accepted(instance), hs, t) && Stream(hs) <= PrintAll(qs)
    ensures t.conn.log <= LogOf(instance, 0, Meanings(qs))
    ensures t.conn.written <= Deliverable(LogOf(instance, 0, Meanings(qs))) <= LogOf(instance, 0, Meanings(qs))
    ensures Settled(t.conn) && forall i :: 0 <= i < |t.conn.written| ==> t.conn.written[i].sleep == 0
  {
    RunContinues(Accepted(instance), hs, t);
    LogIsPrefix(instance, qs, Stream(hs));
    assert t.conn.log == LogOf(instance, 0, ReadAll(READY, Stream(hs)).1);
    WrittenIsDeliverable(t.conn);
    DeliverableMonotone(t.conn.log, LogOf(instance, 0, Meanings(qs)));
  }

  /** And the client, framing by Content-Length, reads back the replies that were written: a beginning
      of those that are to be written, text by text. */
  lemma {:induction false} ClientReadsReplies(instance: int, qs: seq<Request>, hs: seq<Happening>, t: Server)
    requires forall i :: 0 <= i < |qs| ==> qs[i].InRange()
    requires Run(Accepted(instance), hs, t) && Stream(hs) <= PrintAll(qs)
    ensures Split(Wire(t.conn.written)) == Texts(t.conn.written)
    ensures Split(Wire(t.conn.written)) <= Texts(Deliverable(LogOf(instance, 0, Meanings(qs))))
  {
    RepliesInOrder(instance, qs, hs, t);
    SplitReplies(ParamsOf(t.conn.written));
    TextsPrefix(t.conn.written, Deliverable(LogOf(instance, 0, Meanings(qs))));
  }

  /** Once everything was read without an error and all timers have expired, exactly the deliverable
      replies were written. */
  lemma {:induction false} AllRepliesWritten(instance: int, qs: seq<Request>, hs: seq<Happening>, t: Server)
    requires forall i :: 0 <= i < |qs| ==> qs[i].InRange()
    requires Run(Accepted(instance), hs, t) && Stream(hs) == PrintAll(qs) && ReadFails !in hs
    requires t.conn.closed || forall i :: 0 <= i < |t.conn.queue| ==> t.conn.queue[i].sleep == 0
    ensures t.conn.log == LogOf(instance, 0, Meanings(qs))
    ensures t.conn.written == Deliverable(t.conn.log)
  {
    RunContinues(Accepted(instance), hs, t);
    ReadRequests(qs);
    assert t.conn.log == LogOf(instance, 0, Meanings(qs));
    WrittenIsDeliverable(t.conn);
  }
}
