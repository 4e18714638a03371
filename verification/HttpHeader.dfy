/** class header of tests/HtmlPipeLineServerFixture.h: the header field machine. */
module HttpHeader {
  import opened HttpScan

  datatype HeaderPhase = Begin | Key | Colon | Value | CarriageReturn | Matched

  datatype Field = Field(key: string, value: string)

  datatype HeaderState = HeaderState(phase: HeaderPhase, key: string, value: string, error: bool)

  const FRESH: HeaderState := HeaderState(Begin, "", "", false)

  /** One character. A line feed ends whatever was going on. */
  function Feed(m: HeaderState, c: char): HeaderState {
    var h := if m.phase.Matched? then FRESH else m;
    var next :=
      match h.phase
      case Key => if c == ':' then h.(phase := Colon) else h.(key := h.key + [c])
      case Begin => h.(key := h.key + [c], phase := Key)
      case Colon => if c == ' ' then h.(phase := Value) else h.(error := true)
      case Value => if c == CR then h.(phase := CarriageReturn) else h.(value := h.value + [c])
      case CarriageReturn => if c == LF && !h.error then h.(phase := Matched) else h.(error := true)
      case Matched => h;
    if c == LF && !next.phase.Matched? then FRESH else next
  }

  class Header {
    var key: string
    var value: string
    var phase: HeaderPhase
    var error: bool

    function State(): HeaderState
      reads this
    {
      HeaderState(phase, key, value, error)
    }

    constructor ()
      ensures State() == FRESH
    {
      key, value, phase, error := "", "", Begin, false;
    }

    method Reset()
      modifies this
      ensures State() == FRESH
    {
      key, value, phase, error := "", "", Begin, false;
    }

    method FeedChar(c: char)
      modifies this
      ensures State() == Feed(old(State()), c)
    {
      if phase.Matched? {
        Reset();
      }
      match phase {
        case Key =>
          if c == ':' {
            phase := Colon;
          } else {
            key := key + [c];
            phase := Key;
          }
        case Begin =>
          key := key + [c];
          phase := Key;
        case Colon =>
          if c == ' ' {
            phase := Value;
          } else {
            error := true;
          }
        case Value =>
          if c == CR {
            phase := CarriageReturn;
          } else {
            value := value + [c];
          }
        case CarriageReturn =>
          if c == LF {
            if !error {
              phase := Matched;
              return;
            } else {
              Reset();
            }
          } else {
            error := true;
          }
        case Matched =>
      }
      if c == LF {
        Reset();
      }
    }
  }

  /** The state after n characters of s. */
  function StateAfter(s: string, n: nat): HeaderState
    requires n <= |s|
  {
    if n == 0 then FRESH else Feed(StateAfter(s, n - 1), s[n - 1])
  }

  /** The index of the first c at or after from, or the length if there is none. */
  function First(w: string, from: nat, c: char): (i: nat)
    ensures i <= |w| && (i < |w| ==> from <= i && w[i] == c)
    decreases |w| - from
  {
    if from >= |w| then |w| else if w[from] == c then from else First(w, from + 1, c)
  }

  lemma {:induction false} FirstSkips(w: string, from: nat, c: char)
    ensures forall j :: from <= j < First(w, from, c) ==> w[j] != c
    decreases |w| - from
  {
    if from < |w| && w[from] != c {
      FirstSkips(w, from + 1, c);
    }
  }

  /** A line (without its line feed) read as a header field: the key up to the first colon that is
      not the first character, a space, the value, and a final carriage return. */
  function ParseLine(line: string): Option<Field> {
    var colon := First(line, 1, ':');
    if colon + 2 < |line| && line[colon + 1] == ' ' && First(line, colon + 2, CR) == |line| - 1
    then Some(Field(line[..colon], line[colon + 2..|line| - 1]))
    else None
  }

  ghost predicate IsHeaderLine(line: string, f: Field) {
    && line == f.key + ": " + f.value + [CR]
    && f.key != [] && (forall i :: 1 <= i < |f.key| ==> f.key[i] != ':')
    && CR !in f.value
  }

  lemma {:induction false} FirstIs(w: string, from: nat, c: char, i: nat)
    requires from <= i < |w| && w[i] == c && forall j :: from <= j < i ==> w[j] != c
    ensures First(w, from, c) == i
    decreases i - from
  {
    if from < i {
      FirstIs(w, from + 1, c, i);
    }
  }

  lemma {:induction false} HeaderLineParses(line: string, f: Field)
    requires IsHeaderLine(line, f)
    ensures ParseLine(line) == Some(f)
  {
    var k, v := |f.key|, |f.value|;
    assert forall i :: 0 <= i < k ==> line[i] == f.key[i];
    assert forall i :: 0 <= i < v ==> line[k + 2 + i] == f.value[i];
    assert line[k] == ':' && line[k + 1] == ' ' && line[k + 2 + v] == CR;
    FirstIs(line, 1, ':', k);
    forall j | k + 2 <= j < k + 2 + v ensures line[j] != CR {
      assert line[j] == f.value[j - k - 2];
    }
    FirstIs(line, k + 2, CR, k + 2 + v);
    assert line[..k] == f.key;
    assert line[k + 2..k + 2 + v] == f.value;
  }

  lemma {:induction false} ParsedIsHeaderLine(line: string)
    requires ParseLine(line).Some?
    ensures IsHeaderLine(line, ParseLine(line).value)
  {
    var colon, end := First(line, 1, ':'), |line| - 1;
    var f := ParseLine(line).value;
    FirstSkips(line, 1, ':');
    FirstSkips(line, colon + 2, CR);
    assert line == line[..colon] + [line[colon], line[colon + 1]] + line[colon + 2..end] + [line[end]];
    assert [line[colon], line[colon + 1]] == ": ";
  }

  /** The lines `key: value CR` with a non-empty key without colon after its first character, and
      a value without CR, in exactly one way. */
  lemma {:induction false} ParseLineMeans(line: string, f: Field)
    ensures ParseLine(line) == Some(f) <==> IsHeaderLine(line, f)
  {
    if IsHeaderLine(line, f) {
      HeaderLineParses(line, f);
    }
    if ParseLine(line).Some? {
      ParsedIsHeaderLine(line);
    }
  }

  /** Where the line that character n belongs to starts. */
  function LineStart(s: string, n: nat): (start: nat)
    requires n <= |s|
    ensures start <= n && (start > 0 ==> s[start - 1] == LF)
    ensures forall i :: start <= i < n ==> s[i] != LF
  {
    if n == 0 || s[n - 1] == LF then n else LineStart(s, n - 1)
  }

  /** What the machine has made of the beginning w of a line. */
  ghost predicate Reads(w: string, h: HeaderState) {
    var colon := First(w, 1, ':');
    if w == [] then h == FRESH || h.phase.Matched?
    else if colon == |w| then h == HeaderState(Key, w, "", false)
    else
      && h.key == w[..colon]
      && if colon + 1 == |w| then h == HeaderState(Colon, w[..colon], "", false)
         else if w[colon + 1] != ' ' then h.error && (h.phase.Colon? || h.phase.Value? || h.phase.CarriageReturn?)
         else
           var cr := First(w, colon + 2, CR);
           if cr == |w| then h == HeaderState(Value, w[..colon], w[colon + 2..], false)
           else h == HeaderState(CarriageReturn, w[..colon], w[colon + 2..cr], cr + 1 < |w|)
  }

  lemma {:induction false} FirstStep(w: string, c: char, from: nat, x: char)
    ensures First(w + [c], from, x) ==
      if First(w, from, x) < |w| then First(w, from, x) else if from <= |w| && c == x then |w| else |w| + 1
    decreases |w| - from
  {
    var u := w + [c];
    assert u[|w|] == c;
    if from < |w| {
      assert u[from] == w[from];
      FirstStep(w, c, from + 1, x);
    }
  }

  lemma {:induction false} ReadsStep(w: string, h: HeaderState, c: char)
    requires Reads(w, h) && c != LF
    ensures Reads(w + [c], Feed(h, c))
  {
    var colon, u := First(w, 1, ':'), w + [c];
    FirstStep(w, c, 1, ':');
    if w == [] {
    } else if colon == |w| {
      assert u[..|w|] == w;
    } else {
      assert u[..colon] == w[..colon];
      if colon + 1 == |w| {
        assert u[colon + 2..] == [];
        FirstStep(w, c, colon + 2, CR);
      } else if w[colon + 1] == ' ' {
        ReadsStepValue(w, h, c);
      }
    }
  }

  lemma {:induction false} ReadsStepValue(w: string, h: HeaderState, c: char)
    requires Reads(w, h) && c != LF
    requires First(w, 1, ':') + 1 < |w| && w[First(w, 1, ':') + 1] == ' '
    ensures Reads(w + [c], Feed(h, c))
  {
    var colon, u := First(w, 1, ':'), w + [c];
    var cr, key := First(w, colon + 2, CR), w[..colon];
    FirstStep(w, c, 1, ':');
    FirstStep(w, c, colon + 2, CR);
    assert u[..colon] == key;
    if cr < |w| {
      assert u[colon + 2..cr] == w[colon + 2..cr];
      assert Feed(h, c) == HeaderState(CarriageReturn, key, w[colon + 2..cr], true);
    } else if c == CR {
      assert u[colon + 2..|w|] == w[colon + 2..];
      assert Feed(h, c) == HeaderState(CarriageReturn, key, w[colon + 2..], false);
    } else {
      assert u[colon + 2..] == w[colon + 2..] + [c];
      assert Feed(h, c) == HeaderState(Value, key, w[colon + 2..] + [c], false);
    }
  }

  lemma {:induction false} ReadsEnd(w: string, h: HeaderState)
    requires Reads(w, h)
    ensures match ParseLine(w)
            case Some(f) => Feed(h, LF) == HeaderState(Matched, f.key, f.value, false)
            case None => Feed(h, LF) == FRESH
  {
  }

  /** The state after the beginning w of a line. */
  function InLine(w: string): HeaderState {
    if w == [] then FRESH else Feed(InLine(w[..|w| - 1]), w[|w| - 1])
  }

  lemma {:induction false} InLineReads(w: string)
    requires LF !in w
    ensures Reads(w, InLine(w))
    decreases |w|
  {
    if w != [] {
      var p, c := w[..|w| - 1], w[|w| - 1];
      InLineReads(p);
      assert w == p + [c];
      ReadsStep(p, InLine(p), c);
    }
  }

  /** Every line feed is a point of resynchronisation: within a line the machine depends on that
      line only. */
  lemma {:induction false} Resynchronises(s: string, n: nat)
    requires n <= |s|
    ensures var start := LineStart(s, n);
      if start == n then StateAfter(s, n) == FRESH || StateAfter(s, n).phase.Matched?
      else StateAfter(s, n) == InLine(s[start..n])
    decreases n
  {
    if n > 0 {
      Resynchronises(s, n - 1);
      var start, h := LineStart(s, n - 1), StateAfter(s, n - 1);
      NextState(s, n);
      if s[n - 1] == LF {
        AfterLineFeed(h);
      } else {
        if h.phase.Matched? {
          AfterMatch(h, s[n - 1]);
        }
        var w := s[start..n];
        assert w[..|w| - 1] == s[start..n - 1] && w[|w| - 1] == s[n - 1];
        assert InLine(w) == Feed(InLine(s[start..n - 1]), s[n - 1]);
      }
    }
  }

  lemma {:induction false} NextState(s: string, n: nat)
    requires 0 < n <= |s|
    ensures StateAfter(s, n) == Feed(StateAfter(s, n - 1), s[n - 1])
  {
  }

  lemma {:induction false} AfterLineFeed(h: HeaderState)
    ensures Feed(h, LF) == FRESH || Feed(h, LF).phase.Matched?
  {
  }

  /** A matched machine takes the next character as a fresh one does. */
  lemma {:induction false} AfterMatch(h: HeaderState, c: char)
    requires h.phase.Matched?
    ensures Feed(h, c) == Feed(FRESH, c)
  {
  }

  /** The machine over a stream equals a parser per line: after character n it is in the matched
      state exactly if that character ends a line that is a header field, and then with the key and
      value of that field. */
  lemma {:induction false} MatchesHeaderLines(s: string, n: nat)
    requires 0 < n <= |s|
    ensures StateAfter(s, n).phase.Matched? <==>
      s[n - 1] == LF && ParseLine(s[LineStart(s, n - 1)..n - 1]).Some?
    ensures StateAfter(s, n).phase.Matched? ==>
      IsHeaderLine(s[LineStart(s, n - 1)..n - 1], Field(StateAfter(s, n).key, StateAfter(s, n).value))
  {
    Resynchronises(s, n - 1);
    var line := s[LineStart(s, n - 1)..n - 1];
    InLineReads(line);
    if s[n - 1] == LF {
      ReadsEnd(line, InLine(line));
      ParseLineMeans(line, Field(StateAfter(s, n).key, StateAfter(s, n).value));
    } else {
      NotMatchedWithin(StateAfter(s, n - 1), s[n - 1]);
    }
  }

  lemma {:induction false} NotMatchedWithin(h: HeaderState, c: char)
    requires c != LF
    ensures !Feed(h, c).phase.Matched?
  {
  }
}
