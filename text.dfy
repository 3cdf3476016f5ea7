/**
 * The pieces of Go's `strconv` and `strings` packages that the model uses:
 * decimal formatting and parsing (`strconv.Itoa`), first and last index of a
 * character (`strings.Index`, `strings.LastIndex`) and `strings.ReplaceAll`
 * for a one-character pattern.
 */
module Text {
  import opened Wrappers

  predicate IsDigit(c: char) {
    '0' <= c <= '9'
  }

  predicate AllDigits(s: string) {
    forall i :: 0 <= i < |s| ==> IsDigit(s[i])
  }

  function DigitChar(d: nat): (c: char)
    requires d < 10
    ensures IsDigit(c)
  {
    (d + '0' as int) as char
  }

  function DigitValue(c: char): (d: nat)
    requires IsDigit(c)
    ensures d < 10 && DigitChar(d) == c
  {
    c as int - '0' as int
  }

  /** The decimal digits of `n`, most significant first, without leading zeros. */
  function NatToDecimal(n: nat): (s: string)
    ensures |s| >= 1 && AllDigits(s)
    ensures |s| > 1 ==> s[0] != '0'
  {
    if n < 10 then [DigitChar(n)] else NatToDecimal(n / 10) + [DigitChar(n % 10)]
  }

  /** The number a string of decimal digits denotes (the empty string denotes 0). */
  function DecimalValue(s: string): nat
    requires AllDigits(s)
  {
    if s == [] then 0 else DecimalValue(s[..|s| - 1]) * 10 + DigitValue(s[|s| - 1])
  }

  lemma {:induction false} DecimalRoundTrip(n: nat)
    ensures DecimalValue(NatToDecimal(n)) == n
  {
    if n >= 10 {
      var s := NatToDecimal(n);
      assert s[..|s| - 1] == NatToDecimal(n / 10);
      DecimalRoundTrip(n / 10);
    }
  }

  lemma NatToDecimalInjective(a: nat, b: nat)
    ensures NatToDecimal(a) == NatToDecimal(b) ==> a == b
  {
    DecimalRoundTrip(a);
    DecimalRoundTrip(b);
  }

  /** `strconv.Itoa`: a leading `-` for negative numbers, then the decimal digits. */
  function Itoa(n: int): (s: string)
    ensures n >= 0 ==> s == NatToDecimal(n)
    ensures n < 0 <==> (|s| > 0 && s[0] == '-')
  {
    if n < 0 then "-" + NatToDecimal(-n) else NatToDecimal(n)
  }

  /** Reads back what `Itoa` writes: an optional `-`, then at least one digit. */
  function Atoi(s: string): Option<int> {
    if |s| > 1 && s[0] == '-' && AllDigits(s[1..]) then Some(-(DecimalValue(s[1..]) as int))
    else if |s| > 0 && AllDigits(s) then Some(DecimalValue(s))
    else None
  }

  lemma ItoaRoundTrip(n: int)
    ensures Atoi(Itoa(n)) == Some(n)
  {
    var s := Itoa(n);
    if n < 0 {
      var t := NatToDecimal(-n);
      assert s[1..] == t && s[0] == '-' && |s| > 1;
      DecimalRoundTrip(-n);
      assert Atoi(s) == Some(-(DecimalValue(t) as int));
    } else {
      assert IsDigit(s[0]);
      DecimalRoundTrip(n);
      assert Atoi(s) == Some(DecimalValue(s));
    }
  }

  lemma ItoaHasNoSeparators(n: int)
    ensures n >= 0 ==> '-' !in Itoa(n)
    ensures '%' !in Itoa(n) && ']' !in Itoa(n) && ';' !in Itoa(n)
  {
    var s := Itoa(n);
    if n >= 0 {
      assert forall i :: 0 <= i < |s| ==> s[i] != '-';
    } else {
      var t := NatToDecimal(-n);
      assert s == "-" + t;
      assert forall i :: 0 <= i < |t| ==> t[i] != '%' && t[i] != ']' && t[i] != ';';
    }
  }

  /** `strings.LastIndex` for a one-character pattern: -1 when `c` does not occur. */
  function LastIndex(s: string, c: char): (i: int)
    ensures -1 <= i < |s|
    ensures i >= 0 ==> s[i] == c && c !in s[i + 1..]
    ensures i == -1 <==> c !in s
  {
    if s == [] then -1
    else if s[|s| - 1] == c then |s| - 1
    else
      var i := LastIndex(s[..|s| - 1], c);
      assert s == s[..|s| - 1] + [s[|s| - 1]];
      i
  }

  /** `strings.Index` for a one-character pattern: -1 when `c` does not occur. */
  function Index(s: string, c: char): (i: int)
    ensures -1 <= i < |s|
    ensures i >= 0 ==> s[i] == c && c !in s[..i]
    ensures i == -1 <==> c !in s
  {
    if s == [] then -1
    else if s[0] == c then 0
    else
      var i := Index(s[1..], c);
      assert s == [s[0]] + s[1..];
      if i == -1 then -1 else i + 1
  }

  /** The last `c` is found where it was put when nothing after it is a `c`. */
  lemma {:induction false} LastIndexBeforeFreeSuffix(a: string, c: char, b: string)
    requires c !in b
    ensures LastIndex(a + [c] + b, c) == |a|
  {
    var s := a + [c] + b;
    if b != [] {
      assert s[..|s| - 1] == a + [c] + b[..|b| - 1];
      assert b[|b| - 1] in b;
      LastIndexBeforeFreeSuffix(a, c, b[..|b| - 1]);
    }
  }

  /** The first `c` is found where it was put when nothing before it is a `c`. */
  lemma {:induction false} IndexAfterFreePrefix(a: string, c: char, b: string)
    requires c !in a
    ensures Index(a + [c] + b, c) == |a|
  {
    var s := a + [c] + b;
    if a != [] {
      assert s[1..] == a[1..] + [c] + b;
      assert a[0] in a;
      IndexAfterFreePrefix(a[1..], c, b);
    }
  }

  /** `strings.ReplaceAll` for a one-character pattern: each `c` becomes `r`. */
  function ReplaceAll(s: string, c: char, r: string): string {
    if s == [] then []
    else (if s[0] == c then r else [s[0]]) + ReplaceAll(s[1..], c, r)
  }

  /** Once every `c` is replaced by text without one, no `c` is left. */
  lemma {:induction false} ReplaceAllRemoves(s: string, c: char, r: string)
    requires c !in r
    ensures c !in ReplaceAll(s, c, r)
  {
    if s != [] {
      ReplaceAllRemoves(s[1..], c, r);
    }
  }

  /** Text without a `c` is left as it is. */
  lemma {:induction false} ReplaceAllWithout(s: string, c: char, r: string)
    requires c !in s
    ensures ReplaceAll(s, c, r) == s
  {
    if s != [] {
      assert s[0] != c && c !in s[1..];
      ReplaceAllWithout(s[1..], c, r);
      assert [s[0]] + s[1..] == s;
    }
  }

  lemma {:induction false} ReplaceAllAppend(a: string, b: string, c: char, r: string)
    ensures ReplaceAll(a + b, c, r) == ReplaceAll(a, c, r) + ReplaceAll(b, c, r)
  {
    if a != [] {
      assert (a + b)[1..] == a[1..] + b;
      ReplaceAllAppend(a[1..], b, c, r);
    } else {
      assert a + b == b;
    }
  }
}
