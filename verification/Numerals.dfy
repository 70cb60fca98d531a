/** Decimal formatting of naturals and the tags built from it. */
module Numerals {
  import opened Seqs
  import opened Text

  predicate AllDigits(s: string) {
    forall i :: 0 <= i < |s| ==> IsAsciiDigit(s[i])
  }

  function Digit(d: nat): (c: char)
    requires d < 10
    ensures IsAsciiDigit(c) && c as int - '0' as int == d
  {
    '0' + d as char
  }

  /** `format!("{}", n)`. */
  function Decimal(n: nat): (s: string)
    ensures s != "" && AllDigits(s)
  {
    if n < 10 then [Digit(n)] else Decimal(n / 10) + [Digit(n % 10)]
  }

  /** `format!("{:04}", n)`: padded with zeros to four digits, never cut. */
  function Padded4(n: nat): (s: string)
    ensures |s| >= 4 && AllDigits(s)
  {
    ZeroPad(Decimal(n))
  }

  function ZeroPad(s: string): (r: string)
    requires AllDigits(s)
    ensures AllDigits(r) && |r| >= 4
    decreases 4 - |s|
  {
    if |s| >= 4 then s else ZeroPad("0" + s)
  }

  /** The number a digit string denotes. */
  function Value(s: string): nat
    requires AllDigits(s)
  {
    if s == "" then 0
    else 10 * Value(s[..|s| - 1]) + (s[|s| - 1] as int - '0' as int)
  }

  lemma {:induction false} ValueOfDecimal(n: nat)
    ensures Value(Decimal(n)) == n
  {
    if n >= 10 {
      ValueOfDecimal(n / 10);
      var p := Decimal(n / 10);
      InitSnoc(p, Digit(n % 10));
    } else {
      assert [Digit(n)][..0] == "";
    }
  }

  lemma {:induction false} ValueLeadingZero(s: string)
    requires AllDigits(s)
    ensures Value("0" + s) == Value(s)
  {
    if s == "" {
      assert ("0" + s)[..0] == "";
    } else {
      ValueLeadingZero(s[..|s| - 1]);
      assert ("0" + s)[..|s|] == "0" + s[..|s| - 1];
    }
  }

  lemma {:induction false} ValueOfPad(s: string)
    requires AllDigits(s)
    ensures Value(ZeroPad(s)) == Value(s)
    decreases 4 - |s|
  {
    if |s| < 4 {
      ValueLeadingZero(s);
      ValueOfPad("0" + s);
    }
  }

  lemma DecimalInjective(m: nat, n: nat)
    ensures Decimal(m) == Decimal(n) <==> m == n
  {
    ValueOfDecimal(m);
    ValueOfDecimal(n);
  }

  /** Zero-padded numbers stay distinct, also past four digits. */
  lemma Padded4Injective(m: nat, n: nat)
    ensures Padded4(m) == Padded4(n) <==> m == n
  {
    ValueOfDecimal(m);
    ValueOfDecimal(n);
    ValueOfPad(Decimal(m));
    ValueOfPad(Decimal(n));
  }

  /** A string `p + [c] + digits` with `c` not a digit splits there only. */
  lemma TagUnique(p: string, c: char, d: string, q: string, e: char, f: string)
    requires !IsAsciiDigit(c) && AllDigits(d)
    requires !IsAsciiDigit(e) && AllDigits(f)
    requires p + [c] + d == q + [e] + f
    ensures p == q && c == e && d == f
  {
    var s, t := p + [c] + d, q + [e] + f;
    assert s[|p|] == c && t[|q|] == e;
    assert forall k :: |p| < k < |s| ==> s[k] == d[k - |p| - 1];
    assert forall k :: |q| < k < |t| ==> t[k] == f[k - |q| - 1];
    assert p == s[..|p|] && q == t[..|q|];
    assert d == s[|p| + 1..] && f == t[|q| + 1..];
  }
}
