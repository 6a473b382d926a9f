/** Rendering of non-negative integers as text, as Rust's `{}` and `{:04}`
    format specifiers do for unsigned values, together with a parser that
    reads such text back. */
module Format {

  predicate IsDigit(c: char)
  {
    '0' <= c <= '9'
  }

  predicate AllDigits(s: string)
  {
    forall i :: 0 <= i < |s| ==> IsDigit(s[i])
  }

  function DigitChar(d: nat): (c: char)
    requires d < 10
    ensures IsDigit(c) && c as int - '0' as int == d
  {
    ('0' as int + d) as char
  }

  function DigitValue(c: char): (d: nat)
    requires IsDigit(c)
    ensures d < 10 && DigitChar(d) == c
  {
    c as int - '0' as int
  }

  /** Shortest decimal text of `n`: digits only, no leading zero. */
  function Decimal(n: nat): (s: string)
    ensures 1 <= |s|
    ensures AllDigits(s)
    ensures s[0] == '0' ==> n == 0
    ensures n < 10 <==> |s| == 1
    decreases n
  {
    if n < 10 then [DigitChar(n)] else Decimal(n / 10) + [DigitChar(n % 10)]
  }

  /** Value of a digit string, most significant digit first. */
  function ParseDecimal(s: string): nat
    requires AllDigits(s)
    decreases |s|
  {
    if |s| == 0 then 0
    else ParseDecimal(s[..|s| - 1]) * 10 + DigitValue(s[|s| - 1])
  }

  lemma {:induction false} ParseDecimalInvertsDecimal(n: nat)
    ensures ParseDecimal(Decimal(n)) == n
    decreases n
  {
    var s := Decimal(n);
    if n >= 10 {
      ParseDecimalInvertsDecimal(n / 10);
      assert s[..|s| - 1] == Decimal(n / 10);
    }
  }

  /** Decimal text of a signed integer, with a leading minus sign when
      negative, as `{}` prints an `i32`. */
  function SignedDecimal(n: int): (s: string)
    ensures n >= 0 ==> s == Decimal(n)
    ensures n < 0 ==> s == "-" + Decimal(-n)
  {
    if n < 0 then "-" + Decimal(-n) else Decimal(n)
  }

  /** `k` zero characters. */
  function Zeros(k: nat): (z: string)
    ensures |z| == k && AllDigits(z)
    ensures forall i :: 0 <= i < k ==> z[i] == '0'
  {
    seq(k, _ => '0')
  }

  /** `s` left-padded with zeros to at least `width` characters; longer
      text is kept whole. */
  function ZeroPad(s: string, width: nat): (r: string)
    ensures |r| == if |s| >= width then |s| else width
    ensures |r| >= |s| && r[|r| - |s|..] == s
    ensures forall i :: 0 <= i < |r| - |s| ==> r[i] == '0'
  {
    if |s| >= width then s else Zeros(width - |s|) + s
  }

  lemma {:induction false} ParseDecimalSkipsLeadingZero(s: string)
    requires AllDigits(s)
    ensures ParseDecimal(['0'] + s) == ParseDecimal(s)
    decreases |s|
  {
    if |s| > 0 {
      var t := ['0'] + s;
      assert t[..|t| - 1] == ['0'] + s[..|s| - 1];
      ParseDecimalSkipsLeadingZero(s[..|s| - 1]);
    } else {
      assert ['0'] + s == [DigitChar(0)];
    }
  }

  lemma {:induction false} ParseDecimalSkipsLeadingZeros(k: nat, s: string)
    requires AllDigits(s)
    ensures AllDigits(Zeros(k) + s)
    ensures ParseDecimal(Zeros(k) + s) == ParseDecimal(s)
    decreases k
  {
    if k > 0 {
      ParseDecimalSkipsLeadingZeros(k - 1, s);
      var t := Zeros(k - 1) + s;
      assert Zeros(k) == ['0'] + Zeros(k - 1);
      assert Zeros(k) + s == ['0'] + t;
      ParseDecimalSkipsLeadingZero(t);
    } else {
      assert Zeros(k) + s == s;
    }
  }

  /** Zero padding does not change the value the text denotes. */
  lemma ZeroPadKeepsValue(n: nat, width: nat)
    ensures AllDigits(ZeroPad(Decimal(n), width))
    ensures ParseDecimal(ZeroPad(Decimal(n), width)) == n
  {
    var s := Decimal(n);
    ParseDecimalInvertsDecimal(n);
    if |s| < width {
      ParseDecimalSkipsLeadingZeros(width - |s|, s);
      assert ZeroPad(s, width) == Zeros(width - |s|) + s;
    } else {
      assert ZeroPad(s, width) == s;
    }
  }
}
