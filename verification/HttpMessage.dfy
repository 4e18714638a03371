/**
 The two machines side by side, as tcp_connection::handle_read feeds them, and what they report
 of whole messages.
 */
module HttpMessage {
  import opened HttpScan
  import opened HttpHeader

  datatype Scan = Scan(eom: nat, header: HeaderState)

  const START: Scan := Scan(0, FRESH)

  datatype Event = EndOfMessage | HeaderField(field: Field)

  /** One character: both machines are fed, and both are reset at the end of a message. */
  function ScanChar(sc: Scan, c: char): (Scan, Option<Event>)
    requires sc.eom < 4
  {
    var eom, header := Advance(EOM, sc.eom, c), Feed(sc.header, c);
    if eom == 4 then (START, Some(EndOfMessage))
    else if header.phase.Matched? then (Scan(eom, header), Some(HeaderField(Field(header.key, header.value))))
    else (Scan(eom, header), None)
  }

  function Events(e: Option<Event>): seq<Event> { if e.Some? then [e.value] else [] }

  /** The scan after s, and the events on the way. */
  function ScanAll(sc: Scan, s: string): (r: (Scan, seq<Event>))
    requires sc.eom < 4
    ensures r.0.eom < 4
    decreases |s|
  {
    if s == [] then (sc, [])
    else
      var (next, e) := ScanChar(sc, s[0]);
      var (last, es) := ScanAll(next, s[1..]);
      (last, Events(e) + es)
  }

  lemma {:induction false} ScanAppend(sc: Scan, a: string, b: string)
    requires sc.eom < 4
    ensures var (mid, es) := ScanAll(sc, a);
      ScanAll(sc, a + b) == (ScanAll(mid, b).0, es + ScanAll(mid, b).1)
    decreases |a|
  {
    if a == [] {
      assert a + b == b;
      assert [] + ScanAll(sc, b).1 == ScanAll(sc, b).1;
    } else {
      var (next, e) := ScanChar(sc, a[0]);
      assert (a + b)[0] == a[0] && (a + b)[1..] == a[1..] + b;
      ScanAppend(next, a[1..], b);
      var (mid, es) := ScanAll(next, a[1..]);
      assert Events(e) + (es + ScanAll(mid, b).1) == (Events(e) + es) + ScanAll(mid, b).1;
    }
  }

  lemma {:induction false} ScanOne(sc: Scan, c: char)
    requires sc.eom < 4
    ensures ScanAll(sc, [c]) == (ScanChar(sc, c).0, Events(ScanChar(sc, c).1))
  {
    var (next, e) := ScanChar(sc, c);
    assert [c][1..] == [];
    assert ScanAll(next, []) == (next, []);
    assert Events(e) + [] == Events(e);
  }

  /** The event on the character before position n, from the two machines taken separately. */
  function EventAt(s: string, n: nat): seq<Event>
    requires 0 < n <= |s|
  {
    var h := StateAfter(s, n);
    if FiresAt(s, n) then [EndOfMessage]
    else if h.phase.Matched? then [HeaderField(Field(h.key, h.value))]
    else []
  }

  /** On any stream the scan is the matcher and the header machine, each on its own: the reset of the
      header machine at the end of a message changes nothing. */
  lemma {:induction false} ScanIsBoth(s: string, n: nat)
    requires n <= |s|
    ensures ScanAll(START, s[..n]).0 == Scan(EomState(s, n), StateAfter(s, n))
    ensures n > 0 ==> ScanAll(START, s[..n]).1 == ScanAll(START, s[..n - 1]).1 + EventAt(s, n)
    decreases n
  {
    if n > 0 {
      ScanIsBoth(s, n - 1);
      assert s[..n] == s[..n - 1] + [s[n - 1]];
      ScanAppend(START, s[..n - 1], [s[n - 1]]);
      ScanOne(ScanAll(START, s[..n - 1]).0, s[n - 1]);
      if FiresAt(s, n) {
        BlankLine(s, n);
      }
    }
  }

  lemma {:induction false} EomStateSuffix(s: string, n: nat)
    requires n <= |s|
    ensures EomState(s, n) <= n
    ensures forall k :: 0 <= k < EomState(s, n) ==> s[n - EomState(s, n) + k] == EOM[k]
    decreases n
  {
    if n > 0 {
      EomStateSuffix(s, n - 1);
    }
  }

  /** The line that ends a message is empty, and no header field. */
  lemma {:induction false} BlankLine(s: string, n: nat)
    requires n <= |s| && FiresAt(s, n)
    ensures StateAfter(s, n) == FRESH
  {
    EomStateSuffix(s, n - 1);
    var m := n - 4;
    assert s[m + 1] == LF && s[m + 2] == CR && s[m + 3] == LF;
    assert LineStart(s, m + 2) == m + 2;
    Resynchronises(s, m + 2);
    assert StateAfter(s, m + 3) == HeaderState(Key, [CR], "", false);
  }

  /** A line of a message, without its CR LF. */
  ghost predicate IsLine(w: string) { w != [] && CR !in w && LF !in w }

  ghost predicate AreLines(lines: seq<string>) {
    forall i :: 0 <= i < |lines| ==> IsLine(lines[i])
  }

  function Text(lines: seq<string>): string {
    if lines == [] then [] else lines[0] + [CR, LF] + Text(lines[1..])
  }

  function Message(lines: seq<string>): string { Text(lines) + [CR, LF] }

  /** The header fields among the lines, line by line. */
  function Fields(lines: seq<string>): seq<Event> {
    if lines == [] then []
    else
      var f := ParseLine(lines[0] + [CR]);
      (if f.Some? then [HeaderField(f.value)] else []) + Fields(lines[1..])
  }

  ghost predicate LineBegins(sc: Scan) {
    (sc.eom == 0 || sc.eom == 2) && (sc.header == FRESH || sc.header.phase.Matched?)
  }

  lemma {:induction false} ScanBody(sc: Scan, w: string)
    requires LineBegins(sc) && IsLine(w)
    ensures ScanAll(sc, w) == (Scan(0, InLine(w)), [])
    decreases |w|
  {
    var p, c := w[..|w| - 1], w[|w| - 1];
    assert c in w && forall x :: x in p ==> x in w;
    if p == [] {
      assert w == [c];
      ScanOne(sc, c);
      BodyChar(sc, c);
    } else {
      assert w == p + [c];
      ScanAppend(sc, p, [c]);
      ScanBody(sc, p);
      ScanOne(Scan(0, InLine(p)), c);
      BodyChar(Scan(0, InLine(p)), c);
    }
  }

  lemma {:induction false} BodyChar(sc: Scan, c: char)
    requires sc.eom == 0 || sc.eom == 2
    requires c != CR && c != LF
    ensures ScanChar(sc, c) == (Scan(0, Feed(sc.header, c)), None)
    ensures sc.header.phase.Matched? ==> Feed(sc.header, c) == Feed(FRESH, c)
  {
  }

  lemma {:induction false} ScanLine(sc: Scan, w: string)
    requires LineBegins(sc) && IsLine(w)
    ensures ScanAll(sc, w + [CR, LF]).0.eom == 2 && LineBegins(ScanAll(sc, w + [CR, LF]).0)
    ensures ScanAll(sc, w + [CR, LF]).1 == Fields([w])
  {
    var h := InLine(w + [CR]);
    ScanBody(sc, w);
    ScanAppend(sc, w, [CR, LF]);
    assert (w + [CR])[..|w|] == w;
    assert h == Feed(InLine(w), CR);
    NotMatchedWithin(InLine(w), CR);
    assert LF !in w + [CR];
    InLineReads(w + [CR]);
    ReadsEnd(w + [CR], h);
    ScanTwo(Scan(0, InLine(w)), CR, LF);
    assert Fields([w][1..]) == [];
  }

  lemma {:induction false} ScanTwo(sc: Scan, a: char, b: char)
    requires sc.eom < 4
    ensures var (mid, e) := ScanChar(sc, a);
      ScanAll(sc, [a, b]) == (ScanChar(mid, b).0, Events(e) + Events(ScanChar(mid, b).1))
  {
    assert [a, b] == [a] + [b];
    ScanAppend(sc, [a], [b]);
    ScanOne(sc, a);
    ScanOne(ScanChar(sc, a).0, b);
  }

  lemma {:induction false} ScanLines(sc: Scan, lines: seq<string>)
    requires LineBegins(sc) && AreLines(lines)
    ensures LineBegins(ScanAll(sc, Text(lines)).0) && (lines != [] ==> ScanAll(sc, Text(lines)).0.eom == 2)
    ensures ScanAll(sc, Text(lines)).1 == Fields(lines)
    decreases |lines|
  {
    if lines != [] {
      var first, rest := lines[0] + [CR, LF], lines[1..];
      ScanLine(sc, lines[0]);
      ScanAppend(sc, first, Text(rest));
      ScanLines(ScanAll(sc, first).0, rest);
      assert Fields([lines[0]]) + Fields(rest) == Fields(lines) by {
        assert Fields([lines[0]][1..]) == [];
      }
      if rest == [] {
        assert first + Text(rest) == first;
      }
    }
  }

  /** A message of any lines is reported as its header fields, in order, and its end; and the scan is
      ready for the next message. */
  lemma {:induction false} ScanMessage(lines: seq<string>)
    requires lines != [] && AreLines(lines)
    ensures ScanAll(START, Message(lines)) == (START, Fields(lines) + [EndOfMessage])
  {
    ScanLines(START, lines);
    var (mid, es) := ScanAll(START, Text(lines));
    ScanAppend(START, Text(lines), [CR, LF]);
    ScanTwo(mid, CR, LF);
    ScanEnd(mid);
    assert Events(None) + Events(Some(EndOfMessage)) == [EndOfMessage];
  }

  lemma {:induction false} ScanEnd(sc: Scan)
    requires LineBegins(sc) && sc.eom == 2
    ensures ScanChar(sc, CR) == (Scan(3, Feed(FRESH, CR)), None)
    ensures ScanChar(Scan(3, Feed(FRESH, CR)), LF) == (START, Some(EndOfMessage))
  {
  }
}
