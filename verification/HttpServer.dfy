/**
 What a connection of the test server does, as a function of what happens to it: the reply queue
 with its timers, and the order in which replies reach the wire.
 */
module HttpServer {
  import opened HttpText
  import opened HttpRequest
  import opened HttpReply

  datatype Reply = Reply(params: Params, sleep: nat, mustClose: bool, hasRequest: bool)

  /** The write side of a connection. written and log record what was written and what was queued,
      without the sleeps; failed is set when a read error closed the connection. */
  datatype Conn = Conn(
    instance: int, counter: nat, closed: bool, failed: bool,
    queue: seq<Reply>, written: seq<Reply>, log: seq<Reply>)

  function Opened(instance: int): Conn { Conn(instance, 0, false, false, [], [], []) }

  function Awake(r: Reply): Reply { r.(sleep := 0) }

  function Awakes(q: seq<Reply>): seq<Reply> {
    if q == [] then [] else [Awake(q[0])] + Awakes(q[1..])
  }

  function ParamsOf(rs: seq<Reply>): seq<Params> {
    if rs == [] then [] else [rs[0].params] + ParamsOf(rs[1..])
  }

  /** The bytes that these replies put on the wire, one after the other. */
  function Wire(rs: seq<Reply>): string { FormatAll(ParamsOf(rs)) }

  function Texts(rs: seq<Reply>): seq<string> { Formats(ParamsOf(rs)) }

  /** process_replies */
  function Drain(c: Conn): Conn
    decreases |c.queue|
  {
    if c.closed || c.queue == [] || c.queue[0].sleep != 0 then c
    else
      var r := c.queue[0];
      if !r.hasRequest && r.mustClose then c.(queue := [], closed := true)
      else
        var next := c.(written := c.written + [r], queue := c.queue[1..]);
        if r.mustClose then next.(queue := [], closed := true) else Drain(next)
  }

  function NewReply(instance: int, counter: nat, w: Wanted): Reply {
    Reply(Params(Counted(counter), instance, w.request), w.sleep, w.mustClose, w.request != 0)
  }

  function Queued(c: Conn, r: Reply): Conn {
    c.(counter := c.counter + 1, queue := c.queue + [r], log := c.log + [Awake(r)])
  }

  /** queue_reply */
  function Enqueue(c: Conn, w: Wanted): Conn { Drain(Queued(c, NewReply(c.instance, c.counter + 1, w))) }

  /** Reply::timed_out */
  function TimedOut(c: Conn, i: nat): Conn
    requires i < |c.queue|
  {
    Drain(c.(queue := c.queue[i := Awake(c.queue[i])]))
  }

  /** handle_read with an error. */
  function Failed(c: Conn): Conn {
    c.(queue := [], closed := true, failed := c.failed || !c.closed)
  }

  datatype Server = Server(reader: Reader, conn: Conn)

  function Accepted(instance: int): Server { Server(READY, Opened(instance)) }

  function ReceiveChar(s: Server, c: char): Server
    requires s.reader.scan.eom < 4
  {
    var (reader, ws) := ReadChar(s.reader, c);
    Server(reader, if ws == [] then s.conn else Enqueue(s.conn, ws[0]))
  }

  /** handle_read, for the characters it was given */
  function Receive(s: Server, chunk: string): (t: Server)
    requires s.reader.scan.eom < 4
    ensures t.reader.scan.eom < 4
    decreases |chunk|
  {
    if chunk == [] then s else Receive(ReceiveChar(s, chunk[0]), chunk[1..])
  }

  //
  // The order of replies
  //

  /** What may be written of a list of replies: all up to the first that must close the connection,
      and that one too if it has a request. */
  function Deliverable(log: seq<Reply>): seq<Reply> {
    if log == [] then []
    else if log[0].mustClose then if log[0].hasRequest then [log[0]] else []
    else [log[0]] + Deliverable(log[1..])
  }

  ghost predicate HasClose(log: seq<Reply>) { exists i :: 0 <= i < |log| && log[i].mustClose }

  ghost predicate Inv(c: Conn) {
    && (forall i :: 0 <= i < |c.log| ==> c.log[i].sleep == 0)
    && if !c.closed then c.log == c.written + Awakes(c.queue) && !HasClose(c.written) && !c.failed
       else if !c.failed then HasClose(c.log) && c.written == Deliverable(c.log)
       else c.written <= Deliverable(c.log)
  }

  /** The server waits for something to happen. */
  predicate Settled(c: Conn) { c.closed || c.queue == [] || c.queue[0].sleep != 0 }

  lemma {:induction false} HasCloseCons(a: seq<Reply>)
    requires a != []
    ensures HasClose(a) <==> a[0].mustClose || HasClose(a[1..])
  {
  }

  lemma {:induction false} DeliverablePrefix(a: seq<Reply>, b: seq<Reply>)
    ensures Deliverable(a) <= a && Deliverable(a) <= Deliverable(a + b)
    ensures HasClose(a) ==> Deliverable(a + b) == Deliverable(a)
    ensures !HasClose(a) ==> Deliverable(a) == a && Deliverable(a + b) == a + Deliverable(b)
    decreases |a|
  {
    if a == [] {
      assert a + b == b;
      assert [] + Deliverable(b) == Deliverable(b);
    } else {
      assert (a + b)[0] == a[0] && (a + b)[1..] == a[1..] + b;
      HasCloseCons(a);
      if !a[0].mustClose {
        DeliverablePrefix(a[1..], b);
        assert [a[0]] + (a[1..] + Deliverable(b)) == a + Deliverable(b);
      }
    }
  }

  /** Writing the front of the queue keeps written and queue together equal to the log. */
  lemma {:induction false} WriteFront(c: Conn)
    requires Inv(c) && !Settled(c) && !c.queue[0].mustClose
    ensures Inv(c.(written := c.written + [c.queue[0]], queue := c.queue[1..]))
  {
  }

  /** A front that must close the connection is the last that may be written, if it may. */
  lemma {:induction false} CloseFront(c: Conn)
    requires Inv(c) && !Settled(c) && c.queue[0].mustClose
    ensures HasClose(c.log)
    ensures Deliverable(c.log) == c.written + (if c.queue[0].hasRequest then [c.queue[0]] else [])
  {
    var r := c.queue[0];
    assert Awakes(c.queue) == [r] + Awakes(c.queue[1..]);
    DeliverablePrefix(c.written, Awakes(c.queue));
    assert c.log[|c.written|] == r;
  }

  /** process_replies keeps the order, writes awake replies only, from the front of the queue, and
      goes on until it has to wait. */
  lemma {:induction false} DrainOrder(c: Conn) returns (k: nat)
    requires Inv(c)
    ensures Inv(Drain(c)) && Settled(Drain(c))
    ensures k <= |c.queue| && Drain(c).written == c.written + c.queue[..k]
    ensures forall i :: 0 <= i < k ==> c.queue[i].sleep == 0
    ensures c.closed ==> Drain(c) == c
    ensures Drain(c) == c.(written := Drain(c).written, closed := Drain(c).closed,
                           queue := if c.closed || !Drain(c).closed then c.queue[k..] else [])
    decreases |c.queue|
  {
    if Settled(c) {
      k := 0;
      assert c.queue[0..] == c.queue;
    } else if c.queue[0].mustClose {
      CloseFront(c);
      k := if c.queue[0].hasRequest then 1 else 0;
    } else {
      var next := c.(written := c.written + [c.queue[0]], queue := c.queue[1..]);
      WriteFront(c);
      var l := DrainOrder(next);
      k := l + 1;
      assert c.queue[..k] == [c.queue[0]] + next.queue[..l];
      assert c.queue[k..] == next.queue[l..];
    }
  }

  lemma {:induction false} QueuedInv(c: Conn, r: Reply)
    requires Inv(c)
    ensures Inv(Queued(c, r))
  {
    AwakesAppend(c.queue, r);
    DeliverablePrefix(c.log, [Awake(r)]);
    if HasClose(c.log) {
      var i :| 0 <= i < |c.log| && c.log[i].mustClose;
      assert (c.log + [Awake(r)])[i].mustClose;
    }
    assert c.written + Awakes(c.queue) + [Awake(r)] == c.written + (Awakes(c.queue) + [Awake(r)]);
  }

  /** Queueing a reply keeps the invariant. */
  lemma {:induction false} EnqueueInv(c: Conn, w: Wanted)
    requires Inv(c)
    ensures Inv(Enqueue(c, w)) && Settled(Enqueue(c, w)) && c.written <= Enqueue(c, w).written
    ensures Enqueue(c, w).log == c.log + [Awake(NewReply(c.instance, c.counter + 1, w))]
    ensures Enqueue(c, w).counter == c.counter + 1 && Enqueue(c, w).instance == c.instance
    ensures Enqueue(c, w).failed == c.failed
    ensures c.closed ==> Enqueue(c, w).closed && Enqueue(c, w).written == c.written
  {
    var r := NewReply(c.instance, c.counter + 1, w);
    QueuedInv(c, r);
    var k := DrainOrder(Queued(c, r));
  }

  lemma {:induction false} AwakesAppend(q: seq<Reply>, r: Reply)
    ensures Awakes(q + [r]) == Awakes(q) + [Awake(r)]
    decreases |q|
  {
    if q == [] {
      assert Awakes([r][1..]) == [];
    } else {
      assert (q + [r])[1..] == q[1..] + [r];
      AwakesAppend(q[1..], r);
    }
  }

  lemma {:induction false} AwakesUpdate(q: seq<Reply>, i: nat)
    requires i < |q|
    ensures Awakes(q[i := Awake(q[i])]) == Awakes(q)
    decreases |q|
  {
    if i > 0 {
      assert q[i := Awake(q[i])][1..] == q[1..][i - 1 := Awake(q[i])];
      AwakesUpdate(q[1..], i - 1);
    }
  }

  /** So does the expiry of any timer. */
  lemma {:induction false} TimedOutInv(c: Conn, i: nat)
    requires Inv(c) && i < |c.queue|
    ensures Inv(TimedOut(c, i)) && Settled(TimedOut(c, i)) && c.written <= TimedOut(c, i).written
    ensures TimedOut(c, i).log == c.log && TimedOut(c, i).instance == c.instance
    ensures TimedOut(c, i).counter == c.counter && TimedOut(c, i).failed == c.failed
    ensures c.closed ==> TimedOut(c, i).written == c.written
  {
    AwakesUpdate(c.queue, i);
    var k := DrainOrder(c.(queue := c.queue[i := Awake(c.queue[i])]));
  }
}
