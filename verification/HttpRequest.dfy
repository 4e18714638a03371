/** The requests that the test fixture generates, and what the server's reading makes of a stream. */
module HttpRequest {
  import opened HttpScan
  import opened HttpHeader
  import opened HttpMessage
  import opened HttpText

  function FieldLine(key: string, value: string): string { key + ": " + value }

  function FieldLines(fs: seq<Field>): seq<string> {
    if fs == [] then [] else [FieldLine(fs[0].key, fs[0].value)] + FieldLines(fs[1..])
  }

  /** generate_request, request_close and generate_request_with_close. */
  datatype Request =
    | Ordinary(request: int, sleep: int)
    | CloseOnly(sleep: int)
    | WithClose(request: int, sleep: int)
  {
    function Header(): seq<Field> {
      match this
      case Ordinary(request, sleep) =>
        [Field("Host", "localhost:9001"), Field("Accept", "*/*"),
         Field("X-Request", DecimalInt(request)), Field("X-Sleep", DecimalInt(sleep))]
      case CloseOnly(sleep) =>
        [Field("X-Sleep", DecimalInt(sleep)), Field("X-must-close", "yes")]
      case WithClose(request, sleep) =>
        [Field("Host", "localhost:9001"), Field("Accept", "*/*"),
         Field("X-Request", DecimalInt(request)), Field("X-Sleep", DecimalInt(sleep)),
         Field("X-must-close", "yes")]
    }

    /** The request line and the header fields, each ended by CR LF, and an empty line. */
    function Print(): string { Message(["GET / HTTP/1.1"] + FieldLines(Header())) }

    /** The arguments are of C++ type int. */
    ghost predicate InRange() {
      && -INT_MAX - 1 <= sleep <= INT_MAX
      && (!CloseOnly? ==> -INT_MAX - 1 <= request <= INT_MAX)
    }

    /** What the server is to remember of the request: the numbers as unsigned longs. */
    function Meaning(): Wanted {
      Wanted(sleep % (ULONG_MAX + 1), !Ordinary?, if CloseOnly? then 0 else request % (ULONG_MAX + 1))
    }
  }

  /** m_sleep, m_must_close and m_request of tcp_connection. */
  datatype Wanted = Wanted(sleep: nat, mustClose: bool, request: nat)

  const NOTHING: Wanted := Wanted(0, false, 0)

  function OnField(w: Wanted, f: Field): Wanted {
    if f.key == "X-Sleep" then w.(sleep := StrToUL(f.value))
    else if f.key == "X-must-close" then w.(mustClose := true)
    else if f.key == "X-Request" then w.(request := StrToUL(f.value))
    else w
  }

  /** The reading state of a connection. */
  datatype Reader = Reader(scan: Scan, wanted: Wanted)

  const READY: Reader := Reader(START, NOTHING)

  /** The loop body of handle_read: the new state, and the reply to queue, if any. */
  function ReadChar(r: Reader, c: char): (Reader, seq<Wanted>)
    requires r.scan.eom < 4
  {
    var (scan, e) := ScanChar(r.scan, c);
    match e
    case None => (Reader(scan, r.wanted), [])
    case Some(HeaderField(f)) => (Reader(scan, OnField(r.wanted, f)), [])
    case Some(EndOfMessage) => (Reader(scan, NOTHING), [r.wanted])
  }

  function ReadAll(r: Reader, s: string): (res: (Reader, seq<Wanted>))
    requires r.scan.eom < 4
    ensures res.0.scan.eom < 4
    decreases |s|
  {
    if s == [] then (r, [])
    else
      var (next, w) := ReadChar(r, s[0]);
      var (last, ws) := ReadAll(next, s[1..]);
      (last, w + ws)
  }

  /** Reading does not depend on how the stream is cut into chunks. */
  lemma {:induction false} ReadAppend(r: Reader, a: string, b: string)
    requires r.scan.eom < 4
    ensures var (mid, ws) := ReadAll(r, a);
      ReadAll(r, a + b) == (ReadAll(mid, b).0, ws + ReadAll(mid, b).1)
    decreases |a|
  {
    if a == [] {
      assert a + b == b;
      assert [] + ReadAll(r, b).1 == ReadAll(r, b).1;
    } else {
      var (next, w) := ReadChar(r, a[0]);
      assert (a + b)[0] == a[0] && (a + b)[1..] == a[1..] + b;
      ReadAppend(next, a[1..], b);
      var (mid, ws) := ReadAll(next, a[1..]);
      Associative(w, ws, ReadAll(mid, b).1);
    }
  }

  /** Header fields and message ends, interpreted. */
  function Interpret(w: Wanted, es: seq<Event>): (Wanted, seq<Wanted>)
    decreases |es|
  {
    if es == [] then (w, [])
    else
      match es[0]
      case HeaderField(f) => Interpret(OnField(w, f), es[1..])
      case EndOfMessage => var (last, ws) := Interpret(NOTHING, es[1..]); (last, [w] + ws)
  }

  lemma {:induction false} ReadIsInterpret(r: Reader, s: string)
    requires r.scan.eom < 4
    ensures var (scan, es) := ScanAll(r.scan, s);
      var (w, ws) := Interpret(r.wanted, es);
      ReadAll(r, s) == (Reader(scan, w), ws)
    decreases |s|
  {
    if s != [] {
      var (next, e) := ScanChar(r.scan, s[0]);
      var rest := ScanAll(next, s[1..]).1;
      ReadIsInterpret(ReadChar(r, s[0]).0, s[1..]);
      InterpretFirst(r.wanted, e, rest);
      var ws := ReadAll(ReadChar(r, s[0]).0, s[1..]).1;
      assert [] + ws == ws;
    }
  }

  lemma {:induction false} InterpretFirst(w: Wanted, e: Option<Event>, rest: seq<Event>)
    ensures Interpret(w, Events(e) + rest) ==
      match e
      case None => Interpret(w, rest)
      case Some(HeaderField(f)) => Interpret(OnField(w, f), rest)
      case Some(EndOfMessage) => (Interpret(NOTHING, rest).0, [w] + Interpret(NOTHING, rest).1)
  {
    if e.Some? {
      assert ([e.value] + rest)[1..] == rest;
    } else {
      assert [] + rest == rest;
    }
  }

  ghost predicate FieldOk(f: Field) {
    && f.key != [] && CR !in f.key && LF !in f.key && ':' !in f.key
    && CR !in f.value && LF !in f.value
  }

  lemma {:induction false} FieldLineParses(f: Field)
    requires FieldOk(f)
    ensures IsLine(FieldLine(f.key, f.value)) && ParseLine(FieldLine(f.key, f.value) + [CR]) == Some(f)
  {
    ParseLineMeans(FieldLine(f.key, f.value) + [CR], f);
  }

  function Headers(fs: seq<Field>): seq<Event> {
    if fs == [] then [] else [HeaderField(fs[0])] + Headers(fs[1..])
  }

  /** Printed fields are lines that parse to these fields. */
  lemma {:induction false} FieldLinesParse(fs: seq<Field>)
    requires forall i :: 0 <= i < |fs| ==> FieldOk(fs[i])
    ensures AreLines(FieldLines(fs))
    ensures Fields(FieldLines(fs)) == Headers(fs)
    decreases |fs|
  {
    if fs != [] {
      var rest := FieldLines(fs[1..]);
      FieldLineParses(fs[0]);
      FieldLinesParse(fs[1..]);
      assert FieldLines(fs)[1..] == rest;
    }
  }

  /** A message of a first line without colon, and of fields, is read as these fields. */
  lemma {:induction false} ScanFields(first: string, fs: seq<Field>)
    requires IsLine(first) && ':' !in first
    requires forall i :: 0 <= i < |fs| ==> FieldOk(fs[i])
    ensures ScanAll(START, Message([first] + FieldLines(fs))) == (START, Headers(fs) + [EndOfMessage])
  {
    var lines := [first] + FieldLines(fs);
    FieldLinesParse(fs);
    FirstLineFields(first, FieldLines(fs));
    FirstLine(first, FieldLines(fs));
    ScanMessage(lines);
  }

  lemma {:induction false} FirstLine(first: string, rest: seq<string>)
    requires IsLine(first) && AreLines(rest)
    ensures AreLines([first] + rest)
  {
  }

  lemma {:induction false} FirstLineFields(first: string, rest: seq<string>)
    requires ':' !in first
    ensures Fields([first] + rest) == Fields(rest)
  {
  }

  function OnFields(w: Wanted, fs: seq<Field>): Wanted
    decreases |fs|
  {
    if fs == [] then w else OnFields(OnField(w, fs[0]), fs[1..])
  }

  lemma {:induction false} InterpretFields(w: Wanted, fs: seq<Field>)
    ensures Interpret(w, Headers(fs) + [EndOfMessage]) == (NOTHING, [OnFields(w, fs)])
    decreases |fs|
  {
    if fs == [] {
      assert Headers(fs) + [EndOfMessage] == Events(Some(EndOfMessage)) + [];
      InterpretFirst(w, Some(EndOfMessage), []);
      assert [w] + [] == [w];
    } else {
      var rest := Headers(fs[1..]) + [EndOfMessage];
      assert Headers(fs) + [EndOfMessage] == Events(Some(HeaderField(fs[0]))) + rest;
      InterpretFirst(w, Some(HeaderField(fs[0])), rest);
      InterpretFields(OnField(w, fs[0]), fs[1..]);
    }
  }

  lemma {:induction false} NumberIsOk(key: string, n: int)
    requires key != [] && CR !in key && LF !in key && ':' !in key
    ensures FieldOk(Field(key, DecimalInt(n)))
  {
    forall c | c in DecimalInt(n) ensures c != CR && c != LF {
      IntCharacters(n, c);
    }
  }

  lemma {:induction false} HostOk()
    ensures FieldOk(Field("Host", "localhost:9001"))
  {
  }

  lemma {:induction false} AcceptOk()
    ensures FieldOk(Field("Accept", "*/*"))
  {
  }

  lemma {:induction false} CloseOk()
    ensures FieldOk(Field("X-must-close", "yes"))
  {
  }

  lemma {:induction false} HeaderOk(q: Request, i: nat)
    requires i < |q.Header()|
    ensures FieldOk(q.Header()[i])
  {
    HostOk();
    AcceptOk();
    CloseOk();
    NumberIsOk("X-Sleep", q.sleep);
    if !q.CloseOnly? {
      NumberIsOk("X-Request", q.request);
    }
  }

  /** What the fields of a request do to the wanted reply. */
  lemma {:induction false} FieldMeans(w: Wanted, n: int)
    requires -ULONG_MAX <= n <= ULONG_MAX
    ensures OnField(w, Field("Host", "localhost:9001")) == OnField(w, Field("Accept", "*/*")) == w
    ensures OnField(w, Field("X-must-close", "yes")) == w.(mustClose := true)
    ensures OnField(w, Field("X-Sleep", DecimalInt(n))) == w.(sleep := n % (ULONG_MAX + 1))
    ensures OnField(w, Field("X-Request", DecimalInt(n))) == w.(request := n % (ULONG_MAX + 1))
  {
    StrToULRoundTrip(n);
    assert |"Host"| == 4 && |"Accept"| == 6 && |"X-Sleep"| == 7 && |"X-Request"| == 9 && |"X-must-close"| == 12;
  }

  lemma {:induction false} OnFieldsCons(w: Wanted, fs: seq<Field>)
    requires fs != []
    ensures OnFields(w, fs) == OnFields(OnField(w, fs[0]), fs[1..])
  {
  }

  lemma {:induction false} HeaderMeans(q: Request)
    requires q.InRange()
    ensures OnFields(NOTHING, q.Header()) == q.Meaning()
  {
    var h, m := q.Header(), q.Meaning();
    if q.CloseOnly? {
      TailMeans(NOTHING, h, q.sleep, true);
    } else {
      var w := NOTHING.(request := m.request);
      FieldMeans(NOTHING, q.request);
      OnFieldsCons(NOTHING, h);
      OnFieldsCons(NOTHING, h[1..]);
      OnFieldsCons(NOTHING, h[2..]);
      assert h[1..][0] == h[1] && h[1..][1..] == h[2..] && h[2..][0] == h[2] && h[2..][1..] == h[3..];
      TailMeans(w, h[3..], q.sleep, q.WithClose?);
    }
  }

  /** The last one or two fields of a request. */
  lemma {:induction false} TailMeans(w: Wanted, fs: seq<Field>, sleep: int, close: bool)
    requires -ULONG_MAX <= sleep <= ULONG_MAX && !w.mustClose
    requires fs == [Field("X-Sleep", DecimalInt(sleep))] + if close then [Field("X-must-close", "yes")] else []
    ensures OnFields(w, fs) == w.(sleep := sleep % (ULONG_MAX + 1), mustClose := close)
  {
    FieldMeans(w, sleep);
    OnFieldsCons(w, fs);
    var v := w.(sleep := sleep % (ULONG_MAX + 1));
    if close {
      FieldMeans(v, 0);
      assert fs[1..] == [Field("X-must-close", "yes")];
      OnFieldsCons(v, fs[1..]);
      assert fs[1..][1..] == [];
    } else {
      assert fs[1..] == [];
    }
  }

  /** The value of the last field with this key. */
  function LastValue(fs: seq<Field>, key: string): Option<string> {
    if fs == [] then None
    else if fs[|fs| - 1].key == key then Some(fs[|fs| - 1].value)
    else LastValue(fs[..|fs| - 1], key)
  }

  function NumberOf(v: Option<string>): nat { if v.Some? then StrToUL(v.value) else 0 }

  lemma {:induction false} OnFieldsLast(w: Wanted, fs: seq<Field>, f: Field)
    ensures OnFields(w, fs + [f]) == OnField(OnFields(w, fs), f)
    decreases |fs|
  {
    if fs == [] {
      assert (fs + [f])[1..] == [];
    } else {
      assert (fs + [f])[0] == fs[0] && (fs + [f])[1..] == fs[1..] + [f];
      OnFieldsLast(OnField(w, fs[0]), fs[1..], f);
    }
  }

  /** What any header fields ask for: the last X-Sleep and X-Request count, and any X-must-close, whatever
      its value. */
  lemma {:induction false} FieldsAsk(fs: seq<Field>)
    ensures OnFields(NOTHING, fs).sleep == NumberOf(LastValue(fs, "X-Sleep"))
    ensures OnFields(NOTHING, fs).request == NumberOf(LastValue(fs, "X-Request"))
    ensures OnFields(NOTHING, fs).mustClose <==> LastValue(fs, "X-must-close").Some?
    decreases |fs|
  {
    if fs != [] {
      var rest, f := fs[..|fs| - 1], fs[|fs| - 1];
      assert fs == rest + [f];
      FieldsAsk(rest);
      OnFieldsLast(NOTHING, rest, f);
      assert |"X-Sleep"| == 7 && |"X-Request"| == 9 && |"X-must-close"| == 12;
    }
  }

  /** Any message with a first line and well-formed fields, read by a connection that is ready: one reply
      is wanted, as the fields ask. */
  lemma {:induction false} ReadMessage(first: string, fs: seq<Field>)
    requires IsLine(first) && ':' !in first && forall i :: 0 <= i < |fs| ==> FieldOk(fs[i])
    ensures ReadAll(READY, Message([first] + FieldLines(fs))) ==
      (READY, [Wanted(NumberOf(LastValue(fs, "X-Sleep")), LastValue(fs, "X-must-close").Some?,
                      NumberOf(LastValue(fs, "X-Request")))])
  {
    FieldsAsk(fs);
    ScanFields(first, fs);
    InterpretFields(NOTHING, fs);
    ReadIsInterpret(READY, Message([first] + FieldLines(fs)));
  }

  /** One request, read by a connection that is ready: one reply is wanted, as the request says. */
  lemma {:induction false} ReadRequest(q: Request)
    requires q.InRange()
    ensures ReadAll(READY, q.Print()) == (READY, [q.Meaning()])
  {
    forall i | 0 <= i < |q.Header()| ensures FieldOk(q.Header()[i]) {
      HeaderOk(q, i);
    }
    HeaderMeans(q);
    ScanFields("GET / HTTP/1.1", q.Header());
    InterpretFields(NOTHING, q.Header());
    ReadIsInterpret(READY, q.Print());
  }

  function PrintAll(qs: seq<Request>): string {
    if qs == [] then [] else qs[0].Print() + PrintAll(qs[1..])
  }

  function Meanings(qs: seq<Request>): seq<Wanted> { seq(|qs|, i requires 0 <= i < |qs| => qs[i].Meaning()) }

  /** Any list of generated requests, read back: one wanted reply per request, in order, with its
      request number, sleep and must-close flag. */
  lemma {:induction false} ReadRequests(qs: seq<Request>)
    requires forall i :: 0 <= i < |qs| ==> qs[i].InRange()
    ensures ReadAll(READY, PrintAll(qs)) == (READY, Meanings(qs))
    decreases |qs|
  {
    if qs == [] {
      assert Meanings(qs) == [];
    } else {
      ReadRequest(qs[0]);
      ReadRequests(qs[1..]);
      ReadAppend(READY, qs[0].Print(), PrintAll(qs[1..]));
      assert Meanings(qs) == [qs[0].Meaning()] + Meanings(qs[1..]);
    }
  }

  /** The numbers come back as they are exactly when they are not negative. */
  lemma {:induction false} NonNegativeMeaning(q: Request)
    requires q.InRange()
    ensures q.Meaning().sleep == q.sleep <==> q.sleep >= 0
    ensures !q.CloseOnly? ==> (q.Meaning().request == q.request <==> q.request >= 0)
  {
  }
}
