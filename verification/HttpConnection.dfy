/** Reply and tcp_connection of tests/HtmlPipeLineServerFixture.h, as the objects they are. */
module HttpConnection {
  import opened HttpScan
  import opened HttpHeader
  import opened HttpMessage
  import opened HttpText
  import opened HttpRequest
  import opened HttpReply
  import opened HttpServer

  /** The error code of a completed read. */
  datatype ReadResult = Ok | OperationAborted | OtherError

  /** A reply in the queue: class Reply. Its timer is armed exactly while it sleeps. */
  class PendingReply {
    const str: string
    const connection: TcpConnection
    ghost const params: Params   // what str was formatted from
    var sleep: nat
    var mustClose: bool
    var hasRequest: bool

    ghost function Value(): Reply
      reads this
    {
      Reply(params, sleep, mustClose, hasRequest)
    }

    ghost predicate Formatted() { str == params.Format() }

    constructor (connection: TcpConnection, str: string, ghost params: Params)
      requires str == params.Format()
      ensures this.connection == connection && this.str == str && Value() == Reply(params, 0, false, false) && Formatted()
    {
      this.connection, this.str, this.params := connection, str, params;
      sleep, mustClose, hasRequest := 0, false, false;
    }

    predicate IsSleeping()
      reads this
    {
      sleep != 0
    }

    method SetMustClose()
      modifies this
      ensures Value() == old(Value()).(mustClose := true)
    {
      mustClose := true;
    }

    method SetRequest()
      modifies this
      ensures Value() == old(Value()).(hasRequest := true)
    {
      hasRequest := true;
    }

    method Wakeup()
      modifies this
      ensures Value() == Awake(old(Value()))
    {
      if IsSleeping() {
        sleep := 0;
      }
    }

    method SetSleeping(sleep: nat)
      modifies this
      ensures Value() == old(Value()).(sleep := sleep)
    {
      if sleep > 0 {
        this.sleep := sleep;
      } else {
        Wakeup();
      }
    }

    /** The timer of the i-th reply of the queue expired, or was cancelled. */
    method TimedOut(aborted: bool, ghost i: nat)
      requires connection.WriterValid()
      requires !aborted ==> i < |connection.queue| && connection.queue[i] == this
      modifies this, connection
      ensures connection.WriterValid() && (if aborted then sleep == old(sleep) else !IsSleeping())
      ensures connection.State() ==
        if aborted then old(connection.State())
        else old(connection.State()).(conn := HttpServer.TimedOut(old(connection.ConnState()), i))
    {
      if !aborted {
        ValuesAt(connection.queue);
        sleep := 0;
        ValuesUpdate(connection.queue, i, old(Values(connection.queue)));
        connection.ProcessReplies();
      }
    }
  }

  ghost function Values(q: seq<PendingReply>): (vs: seq<Reply>)
    reads q
    ensures |vs| == |q|
  {
    if q == [] then [] else [q[0].Value()] + Values(q[1..])
  }

  lemma {:induction false} ValuesUpdate(q: seq<PendingReply>, i: nat, was: seq<Reply>)
    requires i < |q| && |was| == |q| && q[i].Value() == Awake(was[i])
    requires forall j :: 0 <= j < |q| && j != i ==> q[j].Value() == was[j]
    ensures Values(q) == was[i := Awake(was[i])]
  {
    ValuesAt(q);
  }

  lemma {:induction false} ValuesAt(q: seq<PendingReply>)
    ensures forall i :: 0 <= i < |q| ==> Values(q)[i] == q[i].Value()
  {
    if q != [] {
      ValuesAt(q[1..]);
    }
  }

  lemma {:induction false} ValuesAppend(q: seq<PendingReply>, r: PendingReply)
    ensures Values(q + [r]) == Values(q) + [r.Value()]
  {
    ValuesAt(q);
    ValuesAt(q + [r]);
  }

  ghost predicate Distinct(q: seq<PendingReply>) { forall i, j :: 0 <= i < j < |q| ==> q[i] != q[j] }

  class TcpConnection {
    const instance: int
    const eom: Parser
    const header: Header
    var reply: int
    var closed: bool
    var sleep: nat
    var mustClose: bool
    var request: nat
    var queue: seq<PendingReply>
    // How many replies were queued, which ones were written to the socket, which ones were ever
    // queued, and whether a read error closed the connection.
    ghost var queued: nat
    ghost var written: seq<Reply>
    ghost var log: seq<Reply>
    ghost var failed: bool

    ghost predicate Valid()
      reads this, eom
    {
      && WriterValid() && eom.Valid() && eom.str == EOM && !eom.matched
    }

    ghost predicate WriterValid()
      reads this
    {
      && -INT_MAX - 1 <= instance <= INT_MAX && reply == Counted(queued) && request <= ULONG_MAX
      && Distinct(queue) && Owned(queue)
    }

    ghost predicate Owned(q: seq<PendingReply>) { forall r :: r in q ==> r.connection == this && r.Formatted() }

    ghost function ConnState(): Conn
      reads this, queue
    {
      Conn(instance, queued, closed, failed, Values(queue), written, log)
    }

    ghost function ReaderState(): Reader
      reads this, eom, header
    {
      Reader(Scan(eom.ptr, header.State()), Wanted(sleep, mustClose, request))
    }

    ghost function State(): Server
      reads this, eom, header, queue
    {
      Server(ReaderState(), ConnState())
    }

    constructor (instance: int)
      requires -INT_MAX - 1 <= instance <= INT_MAX
      ensures Valid() && State() == Accepted(instance)
    {
      this.instance := instance;
      eom := new Parser(EOM);
      header := new Header();
      reply, closed, sleep, mustClose, request, queue := 0, false, 0, false, 0, [];
      queued, written, log, failed := 0, [], [], false;
    }

    method HandleRead(e: ReadResult, buffer: string)
      requires Valid()
      modifies this, eom, header
      ensures Valid()
      ensures State() ==
        match e
        case Ok => Receive(old(State()), buffer)
        case OperationAborted => old(State())
        case OtherError => old(State()).(conn := Failed(old(ConnState())))
      ensures e.OtherError? ==> closed && queue == [] && written == old(written)
    {
      if e.Ok? {
        var p := 0;
        while p < |buffer|
          invariant p <= |buffer|
          invariant Valid()
          invariant Receive(State(), buffer[p..]) == Receive(old(State()), buffer)
        {
          HandleChar(buffer[p]);
          p := p + 1;
        }
      } else if !e.OperationAborted? {
        failed := failed || !closed;
        queue := [];
        closed := true;
      }
    }

    /** The body of the loop of handle_read. */
    method HandleChar(c: char)
      requires Valid()
      modifies this, eom, header
      ensures Valid() && State() == ReceiveChar(old(State()), c)
    {
      ghost var conn, reader := ConnState(), ReaderState();
      eom.Feed(c);
      header.FeedChar(c);
      assert ConnState() == conn;
      if eom.matched {
        OnEndOfMessage();
        assert ReadChar(reader, c) == (ReaderState(), [reader.wanted]);
      } else if header.phase.Matched? {
        OnHeader();
        assert ReadChar(reader, c) == (ReaderState(), []);
      } else {
        assert ReadChar(reader, c) == (ReaderState(), []);
      }
    }

    /** What handle_read does at the end of a message. */
    method OnEndOfMessage()
      requires WriterValid() && eom.Valid() && eom.str == EOM
      modifies this, eom, header
      ensures Valid() && ReaderState() == READY
      ensures ConnState() == Enqueue(old(ConnState()), old(ReaderState().wanted))
    {
      ghost var conn := ConnState();
      eom.Reset();
      header.Reset();
      assert ConnState() == conn;
      QueueReply();
      ghost var after := ConnState();
      sleep, mustClose, request := 0, false, 0;
      assert ConnState() == after;
    }

    /** What handle_read does with a header field. */
    method OnHeader()
      requires WriterValid()
      modifies this`sleep, this`mustClose, this`request
      ensures WriterValid() && ConnState() == old(ConnState())
      ensures ReaderState().wanted == OnField(old(ReaderState().wanted), Field(header.key, header.value))
    {
      if header.key == "X-Sleep" {
        sleep := StrToUL(header.value);
      } else if header.key == "X-must-close" {
        mustClose := true;
      } else if header.key == "X-Request" {
        request := StrToUL(header.value);
      }
    }

    method QueueReply()
      requires WriterValid()
      modifies this`queue, this`closed, this`written, this`log, this`reply, this`queued, this`request
      ensures WriterValid() && ConnState() == Enqueue(old(ConnState()), Wanted(old(sleep), old(mustClose), old(request)))
      ensures request == 0
    {
      reply := Increment(reply);
      var rp := NextReply(queued + 1);
      ValuesAppend(queue, rp);
      queue, request, queued := queue + [rp], 0, queued + 1;
      log := log + [Awake(rp.Value())];
      assert ConnState() == Queued(old(ConnState()), rp.Value());
      ProcessReplies();
    }

    /** The reply to the request that was read, as queue_reply sets it up. */
    method NextReply(ghost n: nat) returns (rp: PendingReply)
      requires -INT_MAX - 1 <= instance <= INT_MAX && reply == Counted(n) && request <= ULONG_MAX
      ensures fresh(rp) && rp.connection == this && rp.Formatted()
      ensures rp.Value() == NewReply(instance, n, Wanted(sleep, mustClose, request))
      ensures rp.sleep == sleep
    {
      var p := Params(reply, instance, request);
      var body, text := p.Body(), p.Format();
      SizesFit(p);
      assert |body| < 256;
      assert |text| < 512;
      rp := new PendingReply(this, text, p);
      if request != 0 {
        rp.SetRequest();
      }
      if sleep != 0 {
        rp.SetSleeping(sleep);
      }
      if mustClose {
        rp.SetMustClose();
      }
    }

    /** Puts str, the text of r, on the wire. */
    method AsyncWrite(str: string, ghost r: Reply)
      requires str == r.params.Format()
      modifies this`written
      ensures written == old(written) + [r]
    {
      written := written + [r];
    }

    method ProcessReplies()
      requires WriterValid()
      modifies this`queue, this`closed, this`written
      ensures WriterValid() && ConnState() == Drain(old(ConnState()))
    {
      if closed {
        return;
      }
      while queue != []
        invariant WriterValid() && !closed
        invariant Drain(ConnState()) == Drain(old(ConnState()))
        decreases |queue|
      {
        var r := queue[0];
        if r.IsSleeping() {
          return;
        }
        if !r.hasRequest && r.mustClose {
          queue, closed := [], true;
          return;
        }
        assert r in queue && r.Formatted();
        AsyncWrite(r.str, r.Value());
        queue := queue[1..];
        if r.mustClose {
          queue, closed := [], true;
          return;
        }
      }
    }
  }
}
