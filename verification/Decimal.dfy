/**
 The decimal text the operator stores replica counts in: Itoa writes it, Atoi reads it
 back, and Narrow is the conversion from Go's 64-bit int to int32 that follows the read.
 */
module Decimal {
  import opened Options

  type int32 = x: int | -0x8000_0000 <= x < 0x8000_0000

  /** Go's conversion to int32: keep the low 32 bits, read as two's complement. */
  function Narrow(v: int): int32 {
    (v + 0x8000_0000) % 0x1_0000_0000 - 0x8000_0000
  }

  predicate FitsInt64(v: int) {
    -0x8000_0000_0000_0000 <= v < 0x8000_0000_0000_0000
  }

  predicate IsDigit(c: char) { '0' <= c <= '9' }

  predicate AllDigits(s: string) { forall i :: 0 <= i < |s| ==> IsDigit(s[i]) }

  function Digit(d: int): char
    requires 0 <= d < 10
  {
    (d + '0' as int) as char
  }

  function Digits(n: nat): string {
    if n < 10 then [Digit(n)] else Digits(n / 10) + [Digit(n % 10)]
  }

  function Value(s: string): nat
    requires AllDigits(s)
  {
    if s == "" then 0 else 10 * Value(s[..|s| - 1]) + (s[|s| - 1] as int - '0' as int)
  }

  function Itoa(n: int): string {
    if n < 0 then "-" + Digits(-n) else Digits(n)
  }

  /** The digits of a number, negated on request, if there are any and the result fits 64 bits. */
  function Magnitude(body: string, negative: bool): Option<int> {
    if body == "" || !AllDigits(body) then
      None
    else
      var digits: int := Value(body);
      var v := if negative then -digits else digits;
      if FitsInt64(v) then Some(v) else None
  }

  /** An optional sign, then at least one digit and nothing else. */
  function Atoi(s: string): Option<int> {
    if s != "" && s[0] == '-' then Magnitude(s[1..], true)
    else if s != "" && s[0] == '+' then Magnitude(s[1..], false)
    else Magnitude(s, false)
  }

  lemma {:induction false} DigitsValue(n: nat)
    ensures Digits(n) != "" && AllDigits(Digits(n)) && Value(Digits(n)) == n
  {
    if n < 10 {
      assert Digits(n)[..0] == "";
    } else {
      DigitsValue(n / 10);
      var s := Digits(n);
      assert s[..|s| - 1] == Digits(n / 10);
    }
  }

  lemma MagnitudeOfDigits(n: nat, negative: bool)
    requires FitsInt64(if negative then -(n as int) else n)
    ensures Magnitude(Digits(n), negative) == Some(if negative then -(n as int) else n)
  {
    DigitsValue(n);
  }

  /** Whatever 64-bit integer is written is the integer read back. */
  lemma AtoiItoa(n: int)
    requires FitsInt64(n)
    ensures Atoi(Itoa(n)) == Some(n)
  {
    if n < 0 {
      MagnitudeOfDigits(-n, true);
      assert ("-" + Digits(-n))[1..] == Digits(-n);
    } else {
      MagnitudeOfDigits(n, false);
      DigitsValue(n);
      assert IsDigit(Digits(n)[0]);
    }
  }

  /** Narrowing is harmless exactly on the int32 values. */
  lemma NarrowIsIdentityIff(v: int)
    ensures Narrow(v) == v <==> -0x8000_0000 <= v < 0x8000_0000
  {
  }

  /** What it keeps is the low 32 bits. */
  lemma NarrowKeepsTheLowBits(v: int)
    ensures (Narrow(v) - v) % 0x1_0000_0000 == 0
  {
  }

  // ----- What is read at all -----

  function Zeros(k: nat): string { seq(k, i => '0') }

  lemma {:induction false} ValueOfZeros(k: nat)
    ensures AllDigits(Zeros(k)) && Value(Zeros(k)) == 0
  {
    if k > 0 {
      assert Zeros(k)[..k - 1] == Zeros(k - 1);
      ValueOfZeros(k - 1);
    }
  }

  lemma OneMoreDigitRead(s: string, d: int)
    requires AllDigits(s) && 0 <= d < 10
    ensures AllDigits(s + [Digit(d)]) && Value(s + [Digit(d)]) == 10 * Value(s) + d
  {
    assert (s + [Digit(d)])[..|s|] == s;
  }

  lemma {:induction false} LeadingZeros(k: nat, n: nat)
    ensures var s := Zeros(k) + Digits(n); s != "" && AllDigits(s) && Value(s) == n
  {
    if n < 10 {
      ValueOfZeros(k);
      OneMoreDigitRead(Zeros(k), n);
    } else {
      LeadingZeros(k, n / 10);
      OneMoreDigitRead(Zeros(k) + Digits(n / 10), n % 10);
      assert Zeros(k) + Digits(n) == (Zeros(k) + Digits(n / 10)) + [Digit(n % 10)];
    }
  }

  /** Digits with some value are the digits of that value after some zeros. */
  lemma {:induction false} DigitsAreCanonical(s: string) returns (k: nat)
    requires s != "" && AllDigits(s)
    ensures s == Zeros(k) + Digits(Value(s))
  {
    var front, last := s[..|s| - 1], s[|s| - 1];
    assert s == front + [last];
    var d := last as int - '0' as int;
    assert Digit(d) == last;
    if front == "" {
      k := 0;
    } else {
      k := DigitsAreCanonical(front);
      if Value(front) == 0 {
        k := k + 1;
        assert Zeros(k) == Zeros(k - 1) + "0";
      } else {
        assert Value(s) / 10 == Value(front) && Value(s) % 10 == d;
      }
    }
  }

  /** A text is a sign or none, any number of zeros, and the digits of n. */
  ghost predicate Spells(s: string, sign: string, n: nat) {
    sign in {"", "+", "-"} && exists k: nat :: s == sign + (Zeros(k) + Digits(n))
  }

  lemma SplitSign(s: string) returns (sign: string, body: string)
    ensures s == sign + body && sign in {"", "+", "-"}
    ensures Atoi(s) == Magnitude(body, sign == "-")
  {
    if s != "" && s[0] == '-' {
      sign, body := "-", s[1..];
    } else if s != "" && s[0] == '+' {
      sign, body := "+", s[1..];
    } else {
      sign, body := "", s;
    }
  }

  lemma JoinSign(sign: string, body: string)
    requires sign in {"", "+", "-"} && body != "" && IsDigit(body[0])
    ensures Atoi(sign + body) == Magnitude(body, sign == "-")
  {
    if sign == "" {
      assert sign + body == body;
    } else {
      assert (sign + body)[1..] == body;
    }
  }

  lemma WhatIsReadIsSpelled(s: string)
    requires Atoi(s).Some?
    ensures exists sign, n: nat :: Spells(s, sign, n) && Atoi(s).value == if sign == "-" then -(n as int) else n
  {
    var sign, body := SplitSign(s);
    var k := DigitsAreCanonical(body);
    assert Spells(s, sign, Value(body));
  }

  lemma DigitsAreRead(sign: string, body: string, n: nat)
    requires sign in {"", "+", "-"} && body != "" && AllDigits(body) && Value(body) == n
    ensures var v := if sign == "-" then -(n as int) else n;
            Atoi(sign + body) == if FitsInt64(v) then Some(v) else None
  {
    JoinSign(sign, body);
  }

  lemma WhatIsSpelledIsRead(s: string, sign: string, n: nat)
    requires Spells(s, sign, n)
    ensures var v := if sign == "-" then -(n as int) else n;
            Atoi(s) == if FitsInt64(v) then Some(v) else None
  {
    var k: nat :| s == sign + (Zeros(k) + Digits(n));
    LeadingZeros(k, n);
    DigitsAreRead(sign, Zeros(k) + Digits(n), n);
  }

  /** Text reads as v exactly when it spells v in decimal and v fits 64 bits; any other text is an
      error. */
  lemma AtoiReadsIff(s: string, v: int)
    ensures Atoi(s) == Some(v)
            <==> && -0x8000_0000_0000_0000 <= v < 0x8000_0000_0000_0000
                 && exists sign, n: nat :: Spells(s, sign, n) && v == if sign == "-" then -(n as int) else n
  {
    if Atoi(s).Some? {
      WhatIsReadIsSpelled(s);
    }
    forall sign, n: nat | Spells(s, sign, n)
      ensures var v := if sign == "-" then -(n as int) else n; Atoi(s) == if FitsInt64(v) then Some(v) else None
    {
      WhatIsSpelledIsRead(s, sign, n);
    }
  }

  lemma OneMoreDigit(n: nat, d: int)
    requires n > 0 && 0 <= d < 10
    ensures Digits(10 * n + d) == Digits(n) + [Digit(d)]
  {
  }

  /** The base is ten and the greatest digit comes first. */
  lemma DecimalIsBaseTen()
    ensures Itoa(0) == "0" && Itoa(10) == "10" && Itoa(-905) == "-905"
  {
    OneMoreDigit(1, 0);
    OneMoreDigit(9, 0);
    OneMoreDigit(90, 5);
  }
}
