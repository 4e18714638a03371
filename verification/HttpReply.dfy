/** The replies that the server formats, and their framing on the wire. */
module HttpReply {
  import opened HttpScan
  import opened HttpHeader
  import opened HttpMessage
  import opened HttpText
  import opened HttpRequest

  /** m_reply, m_instance and m_request when the reply is formatted. */
  datatype Params = Params(counter: int, instance: int, request: nat) {
    /** Two C++ ints and an unsigned long. */
    ghost predicate InRange() {
      && -INT_MAX - 1 <= counter <= INT_MAX
      && -INT_MAX - 1 <= instance <= INT_MAX
      && request <= ULONG_MAX
    }

    function Body(): string {
      "Reply " + DecimalInt(counter) + " on connection " + DecimalInt(instance) + " for request #" + Decimal(request)
    }

    function Header(): seq<Field> {
      [Field("Keep-Alive", "timeout=10 max=400"),
       Field("Content-Length", Decimal(|Body()| + 27)),
       Field("Content-Type", "text/html"),
       Field("X-Connection", DecimalInt(instance)),
       Field("X-Request", Decimal(request)),
       Field("X-Reply", DecimalInt(counter))]
    }

    function Head(): string { Message(["HTTP/1.1 200 OK"] + FieldLines(Header())) }

    function Content(): string { "<html><body>" + Body() + "</body></html>\n" }

    function Format(): string { Head() + Content() }
  }

  /** The Content-Length that is printed is the length of what follows the head. */
  lemma {:induction false} ContentLengthIsExact(p: Params)
    ensures |p.Content()| == |p.Body()| + 27
  {
  }

  lemma {:induction false} TextBound(lines: seq<string>, k: nat)
    requires forall i :: 0 <= i < |lines| ==> |lines[i]| <= k
    ensures |Text(lines)| <= (k + 2) * |lines|
    decreases |lines|
  {
    if lines != [] {
      TextBound(lines[1..], k);
    }
  }

  lemma {:induction false} FieldLinesBound(fs: seq<Field>, k: nat)
    requires forall i :: 0 <= i < |fs| ==> |fs[i].key| + |fs[i].value| + 2 <= k
    ensures |FieldLines(fs)| == |fs| && forall i :: 0 <= i < |fs| ==> |FieldLines(fs)[i]| <= k
    decreases |fs|
  {
    if fs != [] {
      FieldLinesBound(fs[1..], k);
    }
  }

  /** Neither snprintf truncates: both assertions on the sizes hold. */
  lemma {:induction false} SizesFit(p: Params)
    requires p.InRange()
    ensures |p.Body()| < 256 && |p.Format()| < 512
  {
    NumberLengths(p.counter, p.request);
    NumberLengths(p.instance, 0);
    assert |p.Body()| <= 77;
    NumberLengths(0, |p.Body()| + 27);
    FieldLinesBound(p.Header(), 36);
    var lines := ["HTTP/1.1 200 OK"] + FieldLines(p.Header());
    TextBound(lines, 36);
    assert |Text(lines)| <= 38 * 7;
  }

  //
  // The client
  //

  /** Where the first head on the wire ends: after the first CR LF CR LF. */
  function HeadEnd(s: string): (n: Option<nat>)
    ensures n.Some? ==> 4 <= n.value <= |s|
  {
    if |s| < 4 then None
    else if s[..4] == EOM then Some(4)
    else match HeadEnd(s[1..]) case None => None case Some(n) => Some(n + 1)
  }

  /** What follows the first CR LF. */
  function AfterLine(s: string): (rest: string)
    ensures s != [] ==> |rest| < |s|
  {
    if s == [] then [] else if [CR, LF] <= s then s[2..] else AfterLine(s[1..])
  }

  /** The first line of s, without its CR. */
  function Line(s: string): string {
    if s == [] || s[0] == CR then [] else [s[0]] + Line(s[1..])
  }

  /** The value of the first field with this key in a head. */
  function ValueOf(head: string, key: string): string
    decreases |head|
  {
    if head == [] then []
    else if key + ": " <= head then Line(head[|key| + 2..])
    else ValueOf(AfterLine(head), key)
  }

  function ContentLength(head: string): nat { ReadDigits(ValueOf(head, "Content-Length"), 0) }

  /** The messages on the wire, each as long as its Content-Length says (section 6.2 of RFC 9112). */
  function Split(wire: string): seq<string>
    decreases |wire|
  {
    match HeadEnd(wire)
    case None => []
    case Some(n) =>
      var end := n + ContentLength(wire[..n]);
      if end > |wire| then [] else [wire[..end]] + Split(wire[end..])
  }

  predicate EmptyLineEnds(s: string, n: int) { 4 <= n <= |s| && s[n - 4..n] == EOM }

  lemma {:induction false} LaterEmptyLine(s: string, m: int)
    requires s != []
    ensures EmptyLineEnds(s, m + 1) <==> EmptyLineEnds(s[1..], m) || (m == 3 && |s| >= 4 && s[..4] == EOM)
  {
    if 4 <= m < |s| {
      assert s[1..][m - 4..m] == s[m - 3..m + 1];
    }
  }

  lemma {:induction false} HeadEndIsFirst(s: string)
    ensures match HeadEnd(s)
            case None => forall m :: !EmptyLineEnds(s, m)
            case Some(n) => EmptyLineEnds(s, n) && forall m :: EmptyLineEnds(s, m) ==> n <= m
    decreases |s|
  {
    if |s| >= 4 {
      HeadEndIsFirst(s[1..]);
      forall m | EmptyLineEnds(s, m) ensures EmptyLineEnds(s[1..], m - 1) || m == 4 {
        LaterEmptyLine(s, m - 1);
      }
      if HeadEnd(s[1..]).Some? {
        LaterEmptyLine(s, HeadEnd(s[1..]).value);
      }
    }
  }

  lemma {:induction false} HeadEndSkips(w: string, t: string)
    requires CR !in w
    ensures HeadEnd(w + t) == match HeadEnd(t) case None => None case Some(n) => Some(|w| + n)
    decreases |w|
  {
    if w == [] {
      assert w + t == t;
    } else {
      assert (w + t)[0] == w[0] != CR && (w + t)[1..] == w[1..] + t;
      HeadEndSkips(w[1..], t);
    }
  }

  /** What comes after a line, up to and including the empty line. */
  function Remainder(lines: seq<string>): string { [CR, LF] + Message(lines) }

  lemma {:induction false} HeadEndOfRemainder(lines: seq<string>, rest: string)
    requires AreLines(lines)
    ensures HeadEnd(Remainder(lines) + rest) == Some(|Remainder(lines)|)
    decreases |lines|
  {
    var s := Remainder(lines) + rest;
    if lines == [] {
      assert s[..4] == EOM;
    } else {
      var t := lines[0] + (Remainder(lines[1..]) + rest);
      assert s == [CR, LF] + t;
      assert s[1..] == [LF] + t && s[1..][1..] == t && s[2] == lines[0][0];
      assert s[..4][2] != CR && s[1..][..4][0] != CR;
      HeadEndOfRemainder(lines[1..], rest);
      HeadEndSkips(lines[0], Remainder(lines[1..]) + rest);
    }
  }

  /** The head of a message ends where its empty line ends, whatever follows. */
  lemma {:induction false} HeadEndOfMessage(lines: seq<string>, rest: string)
    requires lines != [] && AreLines(lines)
    ensures HeadEnd(Message(lines) + rest) == Some(|Message(lines)|)
  {
    assert Message(lines) + rest == lines[0] + (Remainder(lines[1..]) + rest);
    HeadEndOfRemainder(lines[1..], rest);
    HeadEndSkips(lines[0], Remainder(lines[1..]) + rest);
  }

  lemma {:induction false} AfterLineSkips(w: string, t: string)
    requires CR !in w
    ensures AfterLine(w + [CR, LF] + t) == t
    decreases |w|
  {
    var s := w + [CR, LF] + t;
    if w != [] {
      assert s[0] == w[0] && s[1..] == w[1..] + [CR, LF] + t;
      AfterLineSkips(w[1..], t);
    }
  }

  lemma {:induction false} LineIs(w: string, t: string)
    requires CR !in w
    ensures Line(w + [CR, LF] + t) == w
    decreases |w|
  {
    if w != [] {
      assert (w + [CR, LF] + t)[0] == w[0] && (w + [CR, LF] + t)[1..] == w[1..] + [CR, LF] + t;
      LineIs(w[1..], t);
    }
  }

  /** A line that does not start with this key and a colon is passed over. */
  lemma {:induction false} OtherLine(w: string, t: string, key: string)
    requires IsLine(w) && !(key + ": " <= w + [CR, LF] + t)
    ensures ValueOf(w + [CR, LF] + t, key) == ValueOf(t, key)
  {
    AfterLineSkips(w, t);
  }

  lemma {:induction false} KeyColon(key: string, s: string)
    requires key + ": " <= s
    ensures |key| < |s| && s[|key|] == ':' && forall i :: 0 <= i < |key| ==> s[i] == key[i] && s[i] in key
  {
    assert s[|key|] == (key + ": ")[|key|];
    assert forall i :: 0 <= i < |key| ==> s[i] == (key + ": ")[i] == key[i];
  }

  /** The first colon of a line that starts with a key and a colon is after the key. */
  lemma {:induction false} KeyEnds(key: string, s: string, colon: nat)
    requires ':' !in key && key + ": " <= s
    requires colon < |s| && s[colon] == ':' && forall i :: 0 <= i < colon ==> s[i] != ':'
    ensures key == s[..colon]
  {
    KeyColon(key, s);
    assert s[..|key|] == key;
  }

  lemma {:induction false} OtherField(f: Field, t: string, key: string)
    requires FieldOk(f) && ':' !in key && f.key != key
    ensures ValueOf(FieldLine(f.key, f.value) + [CR, LF] + t, key) == ValueOf(t, key)
  {
    var w := FieldLine(f.key, f.value);
    var s := w + [CR, LF] + t;
    FieldLineParses(f);
    assert s[..|f.key|] == f.key && s[|f.key|] == ':';
    forall i | 0 <= i < |f.key| ensures s[i] != ':' {
      assert s[i] == f.key[i];
    }
    if key + ": " <= s {
      KeyEnds(key, s, |f.key|);
    }
    OtherLine(w, t, key);
  }

  lemma {:induction false} OwnField(f: Field, t: string)
    requires FieldOk(f)
    ensures ValueOf(FieldLine(f.key, f.value) + [CR, LF] + t, f.key) == f.value
  {
    var s := FieldLine(f.key, f.value) + [CR, LF] + t;
    assert s[|f.key| + 2..] == f.value + [CR, LF] + t;
    LineIs(f.value, t);
  }

  /** A client finds the value of any field whose key is the first of its kind. */
  lemma {:induction false} FieldFound(fs: seq<Field>, i: nat, t: string)
    requires i < |fs| && (forall j :: 0 <= j < |fs| ==> FieldOk(fs[j])) && forall j :: 0 <= j < i ==> fs[j].key != fs[i].key
    ensures ValueOf(Text(FieldLines(fs)) + t, fs[i].key) == fs[i].value
    decreases i
  {
    var rest := Text(FieldLines(fs[1..])) + t;
    var first := FieldLine(fs[0].key, fs[0].value);
    assert FieldLines(fs)[1..] == FieldLines(fs[1..]);
    assert Text(FieldLines(fs)) + t == first + [CR, LF] + rest;
    if i == 0 {
      OwnField(fs[0], rest);
    } else {
      OtherField(fs[0], rest, fs[i].key);
      FieldFound(fs[1..], i - 1, t);
    }
  }

  lemma {:induction false} KeepAliveOk()
    ensures FieldOk(Field("Keep-Alive", "timeout=10 max=400"))
  {
  }

  lemma {:induction false} ContentTypeOk()
    ensures FieldOk(Field("Content-Type", "text/html"))
  {
  }

  lemma {:induction false} ReplyHeaderOk(p: Params, i: nat)
    requires i < |p.Header()|
    ensures FieldOk(p.Header()[i])
  {
    KeepAliveOk();
    ContentTypeOk();
    NumberIsOk("Content-Length", |p.Body()| + 27);
    NumberIsOk("X-Connection", p.instance);
    NumberIsOk("X-Request", p.request);
    NumberIsOk("X-Reply", p.counter);
  }

  lemma {:induction false} StatusLine()
    ensures IsLine("HTTP/1.1 200 OK") && ':' !in "HTTP/1.1 200 OK"
  {
  }

  /** A first line without colon is not a field. */
  lemma {:induction false} FoundInMessage(first: string, fs: seq<Field>, i: nat)
    requires IsLine(first) && ':' !in first
    requires i < |fs| && (forall j :: 0 <= j < |fs| ==> FieldOk(fs[j])) && forall j :: 0 <= j < i ==> fs[j].key != fs[i].key
    ensures ValueOf(Message([first] + FieldLines(fs)), fs[i].key) == fs[i].value
  {
    var key, t := fs[i].key, Text(FieldLines(fs)) + [CR, LF];
    var s := first + [CR, LF] + t;
    assert ([first] + FieldLines(fs))[1..] == FieldLines(fs);
    assert Message([first] + FieldLines(fs)) == s;
    forall i | 0 <= i <= |first| ensures s[i] != ':' {
      assert s[i] == if i < |first| then first[i] else CR;
    }
    assert s[|first|] == CR && FieldOk(fs[i]);
    if key + ": " <= s {
      KeyColon(key, s);
    }
    OtherLine(first, t, key);
    FieldFound(fs, i, [CR, LF]);
  }

  lemma {:induction false} KeysDiffer(p: Params, i: nat, j: nat)
    requires j < i < 6 && |p.Header()| == 6
    ensures p.Header()[i].key != p.Header()[j].key
  {
    assert |"Keep-Alive"| == 10 && |"Content-Length"| == 14 && |"X-Request"| == 9 && |"X-Reply"| == 7;
    assert |"Content-Type"| == |"X-Connection"| == 12 && "Content-Type"[0] == 'C' && "X-Connection"[0] == 'X';
  }

  lemma {:induction false} HeaderFound(p: Params, i: nat)
    requires i < |p.Header()|
    ensures ValueOf(p.Head(), p.Header()[i].key) == p.Header()[i].value
  {
    var h := p.Header();
    forall j | 0 <= j < |h| ensures FieldOk(h[j]) {
      ReplyHeaderOk(p, j);
    }
    forall j | 0 <= j < i ensures h[j].key != h[i].key {
      KeysDiffer(p, i, j);
    }
    StatusLine();
    FoundInMessage("HTTP/1.1 200 OK", h, i);
  }

  lemma {:induction false} HeaderNumbers(p: Params)
    ensures |p.Header()| == 6 && p.Header()[1].key == "Content-Length" && p.Header()[3].key == "X-Connection"
    ensures p.Header()[4].key == "X-Request" && p.Header()[5].key == "X-Reply"
    ensures p.Header()[1].value == Decimal(|p.Body()| + 27) && p.Header()[3].value == DecimalInt(p.instance)
    ensures p.Header()[4].value == Decimal(p.request) && p.Header()[5].value == DecimalInt(p.counter)
  {
  }

  /** What a client finds in the head of a reply: the length of the content, and the numbers of the
      connection, the request and the reply. */
  lemma {:induction false} ReplyFields(p: Params)
    ensures ValueOf(p.Head(), "Content-Length") == Decimal(|p.Body()| + 27)
    ensures ValueOf(p.Head(), "X-Connection") == DecimalInt(p.instance)
    ensures ValueOf(p.Head(), "X-Request") == Decimal(p.request)
    ensures ValueOf(p.Head(), "X-Reply") == DecimalInt(p.counter)
  {
    HeaderNumbers(p);
    HeaderFound(p, 1);
    HeaderFound(p, 3);
    HeaderFound(p, 4);
    HeaderFound(p, 5);
  }

  lemma {:induction false} ReplyContentLength(p: Params)
    ensures ContentLength(p.Head()) == |p.Content()|
  {
    ReplyFields(p);
    ContentLengthIsExact(p);
    ReadDecimal(|p.Content()|);
  }

  lemma {:induction false} SplitMessage(head: string, content: string, rest: string)
    requires HeadEnd(head + (content + rest)) == Some(|head|)
    requires ContentLength(head) == |content|
    ensures Split(head + content + rest) == [head + content] + Split(rest)
  {
    var wire := head + content + rest;
    assert wire == head + (content + rest);
    assert wire[..|head|] == head;
    assert wire[..|head| + |content|] == head + content;
    assert wire[|head| + |content|..] == rest;
  }

  /** One reply in front of anything is split off whole. */
  lemma {:induction false} SplitFirst(p: Params, rest: string)
    ensures Split(p.Format() + rest) == [p.Format()] + Split(rest)
  {
    forall i | 0 <= i < |p.Header()| ensures FieldOk(p.Header()[i]) {
      ReplyHeaderOk(p, i);
    }
    StatusLine();
    FieldLinesParse(p.Header());
    FirstLine("HTTP/1.1 200 OK", FieldLines(p.Header()));
    HeadEndOfMessage(["HTTP/1.1 200 OK"] + FieldLines(p.Header()), p.Content() + rest);
    ReplyContentLength(p);
    SplitMessage(p.Head(), p.Content(), rest);
  }

  function FormatAll(ps: seq<Params>): string {
    if ps == [] then [] else ps[0].Format() + FormatAll(ps[1..])
  }

  function Formats(ps: seq<Params>): seq<string> {
    if ps == [] then [] else [ps[0].Format()] + Formats(ps[1..])
  }

  /** Replies written one after the other are told apart by a client, uniquely. */
  lemma {:induction false} SplitReplies(ps: seq<Params>)
    ensures Split(FormatAll(ps)) == Formats(ps)
    decreases |ps|
  {
    if ps != [] {
      SplitFirst(ps[0], FormatAll(ps[1..]));
      SplitReplies(ps[1..]);
    }
  }

  //
  // The text
  //

  predicate InNumber(c: char) { c == '-' || IsDigit(c) }

  /** The numbers that a text contains. */
  function Numbers(s: string): seq<string> {
    if s == [] then []
    else if !InNumber(s[0]) then Numbers(s[1..])
    else
      var more := Numbers(s[1..]);
      if |s| > 1 && InNumber(s[1]) && more != [] then [[s[0]] + more[0]] + more[1..] else [[s[0]]] + more
  }

  lemma {:induction false} NumbersSkip(w: string, t: string)
    requires forall c :: c in w ==> !InNumber(c)
    ensures Numbers(w + t) == Numbers(t)
    decreases |w|
  {
    if w == [] {
      assert w + t == t;
    } else {
      assert (w + t)[0] == w[0] && (w + t)[1..] == w[1..] + t;
      NumbersSkip(w[1..], t);
    }
  }

  lemma {:induction false} NumbersTake(n: string, t: string)
    requires n != [] && (forall c :: c in n ==> InNumber(c)) && t != [] && !InNumber(t[0])
    ensures Numbers(n + t) == [n] + Numbers(t)
    decreases |n|
  {
    assert (n + t)[0] == n[0] && (n + t)[1..] == n[1..] + t;
    if |n| > 1 {
      NumbersTake(n[1..], t);
      assert [n[0]] + n[1..] == n;
    } else {
      assert n[1..] + t == t && n == [n[0]];
    }
  }

  lemma {:induction false} Words()
    ensures forall c :: c in "<html><body>Reply " ==> !InNumber(c)
    ensures forall c :: c in " on connection " ==> !InNumber(c)
    ensures forall c :: c in " for request #" ==> !InNumber(c)
    ensures forall c :: c in "</body></html>\n" ==> !InNumber(c)
  {
  }

  lemma {:induction false} NumberWord(n: int, w: string, t: string)
    requires w != [] && forall c :: c in w ==> !InNumber(c)
    ensures Numbers(DecimalInt(n) + (w + t)) == [DecimalInt(n)] + Numbers(t)
  {
    forall c | c in DecimalInt(n) ensures InNumber(c) {
      IntCharacters(n, c);
    }
    assert (w + t)[0] == w[0] && w[0] in w;
    NumbersTake(DecimalInt(n), w + t);
    NumbersSkip(w, t);
  }

  lemma {:induction false} ContentText(p: Params)
    ensures p.Content() == "<html><body>Reply " + (DecimalInt(p.counter) + (" on connection " + (DecimalInt(p.instance)
                             + (" for request #" + (DecimalInt(p.request) + ("</body></html>\n" + []))))))
  {
  }

  lemma {:induction false} TextNumbers(a: string, i: int, b: string, j: int, c: string, k: int, d: string)
    requires forall x :: x in a || x in b || x in c || x in d ==> !InNumber(x)
    requires b != [] && c != [] && d != []
    ensures Numbers(a + (DecimalInt(i) + (b + (DecimalInt(j) + (c + (DecimalInt(k) + (d + []))))))) ==
      [DecimalInt(i), DecimalInt(j), DecimalInt(k)]
  {
    var tail := DecimalInt(k) + (d + []);
    var middle := DecimalInt(j) + (c + tail);
    NumberWord(k, d, []);
    NumberWord(j, c, tail);
    NumberWord(i, b, middle);
    NumbersSkip(a, DecimalInt(i) + (b + middle));
  }

  /** What a reader finds in the content of a reply: the numbers of the reply, of the connection and of
      the request, in this order. */
  lemma {:induction false} ContentNumbers(p: Params)
    ensures Numbers(p.Content()) == [DecimalInt(p.counter), DecimalInt(p.instance), Decimal(p.request)]
  {
    Words();
    ContentText(p);
    TextNumbers("<html><body>Reply ", p.counter, " on connection ", p.instance, " for request #", p.request,
                "</body></html>\n");
  }
}
