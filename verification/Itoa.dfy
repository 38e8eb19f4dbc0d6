/** `itoa` of `curatorapi.go`: a number's digits, written from the back of a buffer of 20 bytes. */
module Itoa {
  import opened Text

  /** The range of Go's `int`. */
  newtype GoInt = x: int | -0x8000_0000_0000_0000 <= x < 0x8000_0000_0000_0000

  function Power(n: nat): nat {
    if n == 0 then 1 else 10 * Power(n - 1)
  }

  lemma TwentyDigits(i: GoInt)
    ensures i as int < Power(20)
  {
    assert Power(20) == 10 * Power(19) && Power(19) == 10 * Power(18) && Power(18) == 10 * Power(17);
    assert Power(17) == 10 * Power(16) && Power(16) == 10 * Power(15) && Power(15) == 10 * Power(14);
    assert Power(14) == 10 * Power(13) && Power(13) == 10 * Power(12) && Power(12) == 10 * Power(11);
    assert Power(11) == 10 * Power(10) && Power(10) == 10 * Power(9) && Power(9) == 10 * Power(8);
    assert Power(8) == 10 * Power(7) && Power(7) == 10 * Power(6) && Power(6) == 10 * Power(5);
    assert Power(5) == 10 * Power(4) && Power(4) == 10 * Power(3) && Power(3) == 10 * Power(2);
    assert Power(2) == 10 * Power(1) && Power(1) == 10 * Power(0);
  }

  /** What is still to be written in front of the digits that are there. */
  function Rest(n: nat): string {
    if n == 0 then "" else Decimal(n)
  }

  lemma DigitOff(n: nat)
    requires n > 0
    ensures Rest(n) == Rest(n / 10) + [Digit(n % 10)]
    ensures Digit(n % 10) == '0' + (n % 10) as char
  {
    assert n < 10 ==> n / 10 == 0 && n % 10 == n;
  }

  /** `n` is still to be written in front of `written`, in `p` bytes. */
  predicate Writing(i: nat, n: nat, p: nat, written: string) {
    n < Power(p) && Rest(n) + written == Rest(i)
  }

  lemma WriteDigit(i: nat, n: nat, p: nat, written: string)
    requires Writing(i, n, p, written) && n > 0
    ensures p > 0 && Writing(i, n / 10, p - 1, ['0' + (n % 10) as char] + written)
  {
    Room(n, p);
    DigitOff(n);
    hide Rest, Power, Digit;
    assert Rest(n / 10) + [Digit(n % 10)] + written == Rest(n / 10) + ([Digit(n % 10)] + written);
  }

  lemma Starts(i: GoInt)
    requires i >= 0
    ensures Writing(i as int, i as int, 20, "")
  {
    hide Rest, Power;
    TwentyDigits(i);
  }

  lemma Ends(i: nat, p: nat, written: string)
    requires Writing(i, 0, p, written)
    ensures written == Rest(i)
  {
    assert "" + written == written;
  }

  /** Nothing in a 64-bit number overruns the buffer; a negative number has no digits. */
  method Write(i: GoInt) returns (r: string)
    ensures r == if i < 0 then "" else Decimal(i as int)
  {
    hide Decimal, Writing;
    if i == 0 {
      ZeroDigit();
      return "0";
    }
    var b := new char[20];
    var p := b.Length;
    var n := i as int;
    assert b[p..] == "";
    if i > 0 {
      Starts(i);
    }
    while n > 0
      invariant 0 <= p <= 20
      invariant if i < 0 then n == i as int && p == 20 else n >= 0 && Writing(i as int, n, p, b[p..])
    {
      WriteDigit(i as int, n, p, b[p..]);
      ghost var written := b[p..];
      p := p - 1;
      b[p] := '0' + (n % 10) as char;
      assert b[p..] == [b[p]] + written;
      n := n / 10;
    }
    if i > 0 {
      Ends(i as int, p, b[p..]);
    }
    r := b[p..];
  }

  lemma ZeroDigit()
    ensures Decimal(0) == "0"
  {}

  lemma Room(n: nat, p: nat)
    requires 0 < n < Power(p)
    ensures p > 0 && n / 10 < Power(p - 1)
  {}

  function Value(s: string): nat {
    if s == "" then 0
    else
      var c := s[|s| - 1];
      10 * Value(s[..|s| - 1]) + if '0' <= c <= '9' then (c - '0') as int else 0
  }

  /** The digits read back as the number. */
  lemma {:induction false} DecimalReadsBack(n: nat)
    ensures Value(Decimal(n)) == n
  {
    if n < 10 {
      assert [Digit(n)][..0] == "";
    } else {
      DecimalReadsBack(n / 10);
      ValueMore(Decimal(n / 10), n % 10);
    }
  }

  lemma ValueMore(s: string, d: nat)
    requires d < 10
    ensures Value(s + [Digit(d)]) == 10 * Value(s) + d
  {
    assert (s + [Digit(d)])[..|s|] == s;
  }
}
