/** Decimal numbers as the server and its client print and read them. */
module HttpText {

  const ULONG_MAX: int := 0xFFFF_FFFF_FFFF_FFFF
  const INT_MAX: int := 0x7FFF_FFFF

  /** ++ on an int, wrapping around. */
  function Increment(i: int): int { if i == INT_MAX then -INT_MAX - 1 else i + 1 }

  /** What an int holds after n increments from 0. */
  function Counted(n: nat): (i: int)
    ensures -INT_MAX - 1 <= i <= INT_MAX && (n <= INT_MAX ==> i == n)
  {
    if n == 0 then 0 else Increment(Counted(n - 1))
  }

  function Digit(d: nat): char
    requires d < 10
  {
    "0123456789"[d]
  }

  /** operator<< and %lu */
  function Decimal(n: nat): (s: string)
    ensures s != []
  {
    if n < 10 then [Digit(n)] else Decimal(n / 10) + [Digit(n % 10)]
  }

  /** operator<< and %d */
  function DecimalInt(n: int): string {
    if n < 0 then "-" + Decimal(-n) else Decimal(n)
  }

  predicate IsDigit(c: char) { '0' <= c <= '9' }

  predicate IsSpace(c: char) { c in {' ', '\t', '\n', '\U{000b}', '\U{000c}', '\r'} }

  function ReadDigits(s: string, acc: nat): nat {
    if s == [] || !IsDigit(s[0]) then acc else ReadDigits(s[1..], acc * 10 + (s[0] as nat - '0' as nat))
  }

  function SkipSpace(s: string): string {
    if s != [] && IsSpace(s[0]) then SkipSpace(s[1..]) else s
  }

  /** strtoul(s, NULL, 10) with a 64-bit unsigned long: leading space, an optional sign, digits up to
      the first other character. Too large a number gives ULONG_MAX; a minus sign negates modulo 2^64. */
  function StrToUL(s: string): (n: nat)
    ensures n <= ULONG_MAX
  {
    var t := SkipSpace(s);
    var negative := t != [] && t[0] == '-';
    var v := ReadDigits(if t != [] && (t[0] == '-' || t[0] == '+') then t[1..] else t, 0);
    if v > ULONG_MAX then ULONG_MAX else if negative && v > 0 then ULONG_MAX + 1 - v else v
  }

  lemma {:induction false} DecimalDigits(n: nat)
    ensures forall i :: 0 <= i < |Decimal(n)| ==> IsDigit(Decimal(n)[i])
    decreases n
  {
    if n >= 10 {
      DecimalDigits(n / 10);
    }
  }

  lemma {:induction false} ReadDigitsAppend(a: string, b: string, acc: nat)
    requires forall i :: 0 <= i < |a| ==> IsDigit(a[i])
    ensures ReadDigits(a + b, acc) == ReadDigits(b, ReadDigits(a, acc))
    decreases |a|
  {
    if a == [] {
      assert a + b == b;
    } else {
      assert (a + b)[1..] == a[1..] + b;
      assert IsDigit(a[0]);
      ReadDigitsAppend(a[1..], b, acc * 10 + (a[0] as nat - '0' as nat));
    }
  }

  lemma {:induction false} ReadDecimal(n: nat)
    ensures ReadDigits(Decimal(n), 0) == n
    decreases n
  {
    if n < 10 {
      assert ReadDigits([Digit(n)], 0) == ReadDigits([], n);
    } else {
      DecimalDigits(n / 10);
      ReadDecimal(n / 10);
      ReadDigitsAppend(Decimal(n / 10), [Digit(n % 10)], 0);
      assert ReadDigits([Digit(n % 10)], n / 10) == ReadDigits([], n / 10 * 10 + n % 10);
    }
  }

  /** What is printed with << is read back by strtoul, modulo 2^64. */
  lemma {:induction false} StrToULRoundTrip(n: int)
    requires -ULONG_MAX <= n <= ULONG_MAX
    ensures StrToUL(DecimalInt(n)) == n % (ULONG_MAX + 1)
  {
    var m := if n < 0 then -n else n;
    ReadDecimal(m);
    DecimalDigits(m);
    if n < 0 {
      assert DecimalInt(n)[1..] == Decimal(m);
      assert n % (ULONG_MAX + 1) == ULONG_MAX + 1 - m;
    } else {
      assert IsDigit(Decimal(m)[0]);
    }
  }

  lemma {:induction false} ReadsNumber(n: nat, tail: string)
    requires tail != [] ==> !IsDigit(tail[0])
    ensures ReadDigits(Decimal(n) + tail, 0) == n && IsDigit((Decimal(n) + tail)[0])
  {
    DecimalDigits(n);
    ReadDecimal(n);
    ReadDigitsAppend(Decimal(n), tail, 0);
    assert (Decimal(n) + tail)[0] == Decimal(n)[0];
  }

  /** strtoul on any number in decimal, with anything around it that it is to pass over: space and a sign
      before, and no digit right after. */
  lemma {:induction false} StrToULReads(space: string, sign: string, n: nat, tail: string)
    requires (forall c :: c in space ==> IsSpace(c)) && (sign == "" || sign == "+" || sign == "-")
    requires tail != [] ==> !IsDigit(tail[0])
    ensures StrToUL(space + (sign + (Decimal(n) + tail))) ==
      if n > ULONG_MAX then ULONG_MAX else if sign == "-" && n > 0 then ULONG_MAX + 1 - n else n
  {
    var digits := Decimal(n) + tail;
    ReadsNumber(n, tail);
    if sign == "" {
      assert sign + digits == digits;
    } else {
      assert (sign + digits)[0] == sign[0] && (sign + digits)[1..] == digits;
    }
    SkipsSpace(space, sign + digits);
  }

  lemma {:induction false} SkipsSpace(space: string, t: string)
    requires forall c :: c in space ==> IsSpace(c)
    requires t != [] && !IsSpace(t[0])
    ensures SkipSpace(space + t) == t
    decreases |space|
  {
    if space == [] {
      assert space + t == t;
    } else {
      assert (space + t)[0] == space[0] && (space + t)[1..] == space[1..] + t;
      SkipsSpace(space[1..], t);
    }
  }

  function Pow10(k: nat): nat { if k == 0 then 1 else 10 * Pow10(k - 1) }

  lemma {:induction false} DecimalLength(n: nat, k: nat)
    requires n < Pow10(k) && k > 0
    ensures |Decimal(n)| <= k
    decreases k
  {
    assert Pow10(k) == 10 * Pow10(k - 1);
    if n >= 10 {
      DecimalLength(n / 10, k - 1);
    }
  }

  /** The longest int and unsigned long have 11 and 20 characters. */
  lemma {:induction false} NumberLengths(i: int, u: nat)
    requires -INT_MAX - 1 <= i <= INT_MAX && u <= ULONG_MAX
    ensures |DecimalInt(i)| <= 11 && |Decimal(u)| <= 20
  {
    assert Pow10(5) == 100000;
    assert Pow10(10) == 10000000000;
    assert Pow10(15) == 1000000000000000;
    assert Pow10(20) == 100000000000000000000;
    DecimalLength(if i < 0 then -i else i, 10);
    DecimalLength(u, 20);
  }

  lemma {:induction false} IntCharacters(n: int, c: char)
    requires c in DecimalInt(n)
    ensures c == '-' || IsDigit(c)
  {
    var m := if n < 0 then -n else n;
    DecimalDigits(m);
  }

  lemma {:induction false} Associative<T>(a: seq<T>, b: seq<T>, c: seq<T>)
    ensures (a + b) + c == a + (b + c)
  {
  }
}
