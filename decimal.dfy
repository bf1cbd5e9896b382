/** ASCII decimal digit strings: reading them (`int(...)` on a run of
    digits), writing a number as `str(n)`, and zero padding as in the
    `%d`, `%m` and `%Y` directives of `strftime`. */
module Decimal {

  predicate IsDigit(c: char) {
    '0' <= c <= '9'
  }

  predicate AllDigits(s: string) {
    forall i :: 0 <= i < |s| ==> IsDigit(s[i])
  }

  function DigitValue(c: char): (v: nat)
    requires IsDigit(c)
    ensures v < 10
  {
    c as int - '0' as int
  }

  function DigitChar(v: nat): (c: char)
    requires v < 10
    ensures IsDigit(c) && DigitValue(c) == v
  {
    ('0' as int + v) as char
  }

  /** The number a digit string denotes, read left to right. */
  function Value(s: string): nat
    requires AllDigits(s)
  {
    if s == [] then 0 else Value(s[..|s| - 1]) * 10 + DigitValue(s[|s| - 1])
  }

  /** `str(n)`: the shortest decimal spelling of n. */
  function Show(n: nat): (s: string)
    ensures AllDigits(s) && 1 <= |s|
    ensures n < 10 <==> |s| == 1
    ensures n < 100 <==> |s| <= 2
    ensures n < 1000 <==> |s| <= 3
    ensures n < 10000 <==> |s| <= 4
  {
    if n < 10 then [DigitChar(n)] else Show(n / 10) + [DigitChar(n % 10)]
  }

  /** Zeros on the left up to width w. */
  function Pad(s: string, w: nat): (r: string)
    requires AllDigits(s)
    ensures AllDigits(r)
    ensures |r| == if |s| >= w then |s| else w
    decreases w - |s|
  {
    if |s| >= w then s else Pad("0" + s, w)
  }

  /** Reading back what Show wrote gives the number. */
  lemma {:induction false} ValueShow(n: nat)
    ensures Value(Show(n)) == n
  {
    if n >= 10 {
      var s := Show(n);
      assert s[..|s| - 1] == Show(n / 10);
      ValueShow(n / 10);
    }
  }

  /** A leading zero does not change the value. */
  lemma {:induction false} ValueLeadingZero(s: string)
    requires AllDigits(s)
    ensures AllDigits("0" + s) && Value("0" + s) == Value(s)
    decreases |s|
  {
    var z := "0" + s;
    assert AllDigits(z) by {
      forall i | 0 <= i < |z| ensures IsDigit(z[i]) {
        if i > 0 { assert z[i] == s[i - 1]; }
      }
    }
    if s != [] {
      var init := s[..|s| - 1];
      assert z[..|z| - 1] == "0" + init;
      ValueLeadingZero(init);
    }
  }

  lemma {:induction false} ValuePad(s: string, w: nat)
    requires AllDigits(s)
    ensures Value(Pad(s, w)) == Value(s)
    decreases w - |s|
  {
    if |s| < w {
      ValueLeadingZero(s);
      ValuePad("0" + s, w);
    }
  }

  /** The zero-padded spelling of n reads back as n. */
  lemma ValueShowPadded(n: nat, w: nat)
    ensures Value(Pad(Show(n), w)) == n
  {
    ValuePad(Show(n), w);
    ValueShow(n);
  }
}
