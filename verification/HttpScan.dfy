/**
 The two incremental character machines of tests/HtmlPipeLineServerFixture.h: `parser`, which
 finds the end of a message, and `header`, which finds header fields.
 */
module HttpScan {

  datatype Option<T> = None | Some(value: T)

  const CR: char := '\r'
  const LF: char := '\n'
  const EOM: string := [CR, LF, CR, LF]

  //
  // The end-of-message matcher
  //

  /** class parser: matches str, without going back in the input. */
  class Parser {
    const str: string
    var matched: bool
    var ptr: nat

    ghost predicate Valid()
      reads this
    {
      str != [] && ptr <= |str| && (matched <==> ptr == |str|)
    }

    constructor (str: string)
      requires str != []
      ensures Valid() && this.str == str && ptr == 0 && !matched
    {
      this.str := str;
      matched, ptr := false, 0;
    }

    method Reset()
      requires Valid()
      modifies this
      ensures Valid() && ptr == 0 && !matched
    {
      matched, ptr := false, 0;
    }

    /** Reads str[ptr], so it may not be called again after a match without Reset. */
    method Feed(c: char)
      requires Valid() && !matched
      modifies this
      ensures Valid() && ptr == Advance(str, old(ptr), c)
    {
      if c != str[ptr] {
        Reset();
      } else {
        ptr := ptr + 1;
        matched := ptr == |str|;
      }
    }
  }

  function Advance(str: string, ptr: nat, c: char): (next: nat)
    requires ptr < |str|
    ensures next <= |str|
  {
    if c == str[ptr] then ptr + 1 else 0
  }

  /** The state of the CR LF CR LF matcher, reset after each match, after n characters of s. */
  function EomState(s: string, n: nat): (ptr: nat)
    requires n <= |s|
    ensures ptr < 4
  {
    if n == 0 then 0
    else
      var next := Advance(EOM, EomState(s, n - 1), s[n - 1]);
      if next == 4 then 0 else next
  }

  /** The matcher fires on the character before position e. */
  predicate FiresAt(s: string, e: nat)
    requires e <= |s|
  {
    e > 0 && Advance(EOM, EomState(s, e - 1), s[e - 1]) == 4
  }

  /** The last k characters before position n, all of them after position last, begin an end of message. */
  predicate Partly(s: string, n: nat, last: nat, k: nat)
    requires n <= |s|
  {
    && n >= last + k
    && match k
       case 1 => s[n - 1] == CR
       case 2 => s[n - 2] == CR && s[n - 1] == LF
       case 3 => s[n - 3] == CR && s[n - 2] == LF && s[n - 1] == CR
       case 4 => s[n - 4] == CR && s[n - 3] == LF && s[n - 2] == CR && s[n - 1] == LF
       case _ => true
  }

  /** The end of the last of the leftmost non-overlapping occurrences in the first n characters. */
  function LastEnd(s: string, n: nat): (last: nat)
    requires n <= |s|
    ensures last <= n && (last > 0 ==> last >= 4 && s[last - 1] == LF)
  {
    if n == 0 then 0
    else if Partly(s, n, LastEnd(s, n - 1), 4) then n
    else LastEnd(s, n - 1)
  }

  /** e is the end of one of the leftmost non-overlapping occurrences of CR LF CR LF. */
  predicate IsEnd(s: string, e: nat) {
    0 < e <= |s| && LastEnd(s, e) == e
  }

  lemma {:induction false} EndMeansOccurrence(s: string, e: nat)
    requires e <= |s|
    ensures Partly(s, e, 0, 4) <==> e >= 4 && s[e - 4..e] == EOM
  {
  }

  lemma {:induction false} LastEndIsEnd(s: string, n: nat)
    requires n <= |s|
    ensures LastEnd(s, n) > 0 ==> IsEnd(s, LastEnd(s, n))
    ensures forall f :: LastEnd(s, n) < f <= n ==> !IsEnd(s, f)
    decreases n
  {
    if n > 0 {
      LastEndIsEnd(s, n - 1);
    }
  }

  /** IsEnd says what it should: an occurrence that no earlier end overlaps. */
  lemma {:induction false} IsEndMeans(s: string, e: nat)
    requires e <= |s|
    ensures IsEnd(s, e) <==> e >= 4 && s[e - 4..e] == EOM && forall f: nat :: e - 4 < f < e ==> !IsEnd(s, f)
  {
    EndMeansOccurrence(s, e);
    if e > 0 {
      var last := LastEnd(s, e - 1);
      LastEndIsEnd(s, e - 1);
      assert IsEnd(s, e) <==> Partly(s, e, 0, 4) && last + 4 <= e;
      if last + 4 <= e {
        assert forall f: nat :: e - 4 < f < e ==> !IsEnd(s, f);
      } else if last > 0 {
        assert IsEnd(s, last);
      }
    }
  }

  /** The number of consecutive CRs that end at s[i]. */
  function CrRun(s: string, i: nat): nat
    requires i < |s|
  {
    if s[i] != CR then 0 else if i == 0 then 1 else 1 + CrRun(s, i - 1)
  }

  /** How much of an end of message the first n characters end with. */
  function Partial(s: string, n: nat): (k: nat)
    requires n <= |s|
    ensures k <= n && k < 4 && (k > 0 ==> s[n - k] == CR)
  {
    var last := LastEnd(s, n);
    if Partly(s, n, last, 3) then 3 else if Partly(s, n, last, 2) then 2 else if Partly(s, n, last, 1) then 1 else 0
  }

  /** The partial match starts with the last of an odd number of CRs. */
  predicate Odd(s: string, n: nat)
    requires n <= |s|
  {
    var k := Partial(s, n);
    k > 0 && CrRun(s, n - k) % 2 == 1
  }

  /** The matcher follows a partial match, unless an even number of CRs led to it. */
  function Tracked(k: nat, odd: bool): (n: nat)
    ensures k < 4 ==> n < 4
  {
    if odd then k else if k == 3 then 1 else 0
  }

  ghost predicate InStep(s: string, n: nat)
    requires n <= |s|
  {
    EomState(s, n) == Tracked(Partial(s, n), Odd(s, n))
  }

  lemma {:induction false} StateStep(k: nat, odd: bool, c: char)
    requires k < 4 && (k == 0 ==> !odd)
    ensures Advance(EOM, Tracked(k, odd), c) ==
      (if c == CR then if k == 0 || (k == 1 && !odd) then 1 else if k == 2 then if odd then 3 else 1 else 0
       else if c == LF && odd && (k == 1 || k == 3) then k + 1
       else if c == LF && k == 3 then 2
       else 0)
  {
  }

  /** How the partial match and its run of CRs change with character n. */
  lemma {:induction false} PartialStep(s: string, n: nat)
    requires n < |s|
    ensures var k, c := Partial(s, n), s[n];
      && (IsEnd(s, n + 1) <==> c == LF && k == 3)
      && (IsEnd(s, n + 1) ==> Partial(s, n + 1) == 0)
      && (!IsEnd(s, n + 1) ==>
            Partial(s, n + 1) == (if c == CR then if k == 2 then 3 else 1 else if c == LF && k == 1 then 2 else 0))
  {
  }

  lemma {:induction false} OddStep(s: string, n: nat)
    requires n < |s| && !IsEnd(s, n + 1)
    ensures var k, c := Partial(s, n), s[n];
      Odd(s, n + 1) <==> (c == CR && (k == 0 || (k == 1 && !Odd(s, n)) || (k == 2 && Odd(s, n))))
                         || (c == LF && k == 1 && Odd(s, n))
  {
    var k, c := Partial(s, n), s[n];
    PartialStep(s, n);
    if c == CR && k != 2 && n > 0 {
      if k == 0 {
        LastIsNotCr(s, n);
      } else if k == 3 {
        assert CrRun(s, n - 2) == 0;
        assert CrRun(s, n - 1) == 1;
      }
      assert CrRun(s, n) == 1 + CrRun(s, n - 1);
    }
  }

  lemma {:induction false} LastIsNotCr(s: string, n: nat)
    requires 0 < n <= |s| && Partial(s, n) == 0
    ensures s[n - 1] != CR
  {
  }

  /** One more character keeps matcher and input in step, and the matcher fires at the end of a
      message exactly if the run of CRs before it is odd. */
  lemma {:induction false} InStepNext(s: string, n: nat)
    requires n < |s| && InStep(s, n)
    ensures FiresAt(s, n + 1) <==> IsEnd(s, n + 1) && CrRun(s, n - 3) % 2 == 1
    ensures (IsEnd(s, n + 1) ==> FiresAt(s, n + 1)) ==> InStep(s, n + 1)
  {
    PartialStep(s, n);
    StateStep(Partial(s, n), Odd(s, n), s[n]);
    if !IsEnd(s, n + 1) {
      OddStep(s, n);
    }
  }

  /** Every end of message in the first n characters starts with the last of an odd number of CRs. */
  ghost predicate OddRuns(s: string, n: nat)
    requires n <= |s|
  {
    forall e :: 4 <= e <= n && IsEnd(s, e) ==> CrRun(s, e - 4) % 2 == 1
  }

  ghost predicate FiresRight(s: string, n: nat)
    requires n <= |s|
  {
    forall e :: 0 <= e <= n ==> (FiresAt(s, e) <==> IsEnd(s, e))
  }

  lemma {:induction false} Fires(s: string, n: nat)
    requires n <= |s| && OddRuns(s, n)
    ensures FiresRight(s, n) && InStep(s, n)
    decreases n
  {
    if n > 0 {
      Fires(s, n - 1);
      InStepNext(s, n - 1);
      assert IsEnd(s, n) ==> n >= 4;
    }
  }

  /** Of a stream, the matcher fires exactly at the ends of the leftmost non-overlapping occurrences
      of CR LF CR LF, if and only if each of these starts with the last of an odd number of CRs. */
  lemma {:induction false} FiresExactly(s: string)
    ensures FiresRight(s, |s|) <==> OddRuns(s, |s|)
  {
    if OddRuns(s, |s|) {
      Fires(s, |s|);
    } else {
      MissesOne(s, |s|);
    }
  }

  lemma {:induction false} MissesOne(s: string, n: nat)
    requires n <= |s| && !OddRuns(s, n)
    ensures !FiresRight(s, n)
    decreases n
  {
    if OddRuns(s, n - 1) {
      Fires(s, n - 1);
      InStepNext(s, n - 1);
    } else {
      MissesOne(s, n - 1);
    }
  }

  /** It does not fire at all on CR CR LF CR LF, which ends with an end of message. */
  lemma {:induction false} MissesAfterDoubleCr()
    ensures var s := [CR, CR, LF, CR, LF];
      IsEnd(s, 5) && !OddRuns(s, 5) && forall e :: 0 <= e <= 5 ==> !FiresAt(s, e)
  {
    var s := [CR, CR, LF, CR, LF];
    assert EomState(s, 1) == 1 && EomState(s, 2) == 0 && EomState(s, 3) == 0 && EomState(s, 4) == 1;
    assert LastEnd(s, 1) == LastEnd(s, 2) == LastEnd(s, 3) == LastEnd(s, 4) == 0;
    var e := 5;
    assert CrRun(s, 0) == 1 && CrRun(s, e - 4) == 2 && IsEnd(s, e);
  }

  /** In particular when no two CRs follow each other. */
  lemma {:induction false} FiresWithoutDoubleCr(s: string)
    requires forall i :: 0 < i < |s| ==> !(s[i - 1] == CR && s[i] == CR)
    ensures FiresRight(s, |s|)
  {
    forall e | 4 <= e <= |s| && IsEnd(s, e) ensures CrRun(s, e - 4) % 2 == 1 {
      if e > 4 {
        assert CrRun(s, e - 5) == 0;
      }
    }
    FiresExactly(s);
  }
}
