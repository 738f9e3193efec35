/** Numbers as decimal text: what printf writes and what strtoul and the digit loops read back. */
module Decimal {
  predicate IsDigit(c: char) {
    '0' <= c <= '9'
  }

  function DigitValue(c: char): (v: nat)
    requires IsDigit(c)
    ensures v < 10
  {
    c as int - '0' as int
  }

  function DigitChar(v: nat): (c: char)
    requires v < 10
    ensures IsDigit(c) && DigitValue(c) == v
  {
    (v + '0' as int) as char
  }

  predicate AllDigits(s: string) {
    forall i :: 0 <= i < |s| ==> IsDigit(s[i])
  }

  /** %lu */
  function Digits(n: nat): (s: string)
    ensures s != [] && AllDigits(s)
  {
    if n < 10 then [DigitChar(n)] else Digits(n / 10) + [DigitChar(n % 10)]
  }

  function Value(s: string): nat
    requires AllDigits(s)
  {
    if s == [] then 0 else Value(s[..|s| - 1]) * 10 + DigitValue(s[|s| - 1])
  }

  lemma {:induction false} ValueOfDigits(n: nat)
    ensures Value(Digits(n)) == n
  {
    var s := Digits(n);
    if n >= 10 {
      ValueOfDigits(n / 10);
      assert s[..|s| - 1] == Digits(n / 10);
    } else {
      assert s[..|s| - 1] == "";
      assert Value("") == 0;
    }
  }

  function Power10(k: nat): (p: nat)
    ensures p > 0
  {
    if k == 0 then 1 else 10 * Power10(k - 1)
  }

  /** A number below ten to the k prints in at most k characters. */
  lemma {:induction false} DigitsFit(n: nat, k: nat)
    requires k > 0 && n < Power10(k)
    ensures |Digits(n)| <= k
  {
    if n >= 10 {
      DigitsFit(n / 10, k - 1);
    }
  }

  /** The number of digits s starts with. */
  function Run(s: string): (q: nat)
    ensures q <= |s| && AllDigits(s[..q])
    ensures q < |s| ==> !IsDigit(s[q])
  {
    if s == [] || !IsDigit(s[0]) then 0
    else
      var q := 1 + Run(s[1..]);
      assert forall i :: 0 <= i < q ==> IsDigit(s[i]) by {
        assert forall i :: 1 <= i < q ==> s[i] == s[1..][i - 1] == s[1..][..q - 1][i - 1];
      }
      q
  }

  /** The number s starts with; zero when it starts with none. */
  function Number(s: string): nat {
    Value(s[..Run(s)])
  }

  lemma {:induction false} RunIs(s: string, q: nat)
    requires q <= |s| && AllDigits(s[..q]) && (q < |s| ==> !IsDigit(s[q]))
    ensures Run(s) == q
  {
    if q > 0 {
      assert s[1..][..q - 1] == s[..q][1..];
      assert IsDigit(s[..q][0]);
      RunIs(s[1..], q - 1);
    }
  }

  /** One digit more. */
  lemma {:induction false} ValueMore(s: string, n: nat)
    requires n < |s| && AllDigits(s[..n]) && IsDigit(s[n])
    ensures AllDigits(s[..n + 1]) && Value(s[..n + 1]) == Value(s[..n]) * 10 + DigitValue(s[n])
  {
    assert s[..n + 1][..n] == s[..n];
  }

  /** A printed number is read back whole. */
  lemma {:induction false} ReadBack(n: nat, rest: string)
    requires rest == "" || !IsDigit(rest[0])
    ensures Run(Digits(n) + rest) == |Digits(n)| && Number(Digits(n) + rest) == n
  {
    var s := Digits(n) + rest;
    assert s[..|Digits(n)|] == Digits(n);
    RunIs(s, |Digits(n)|);
    ValueOfDigits(n);
  }

  /** The digit loop: the number at position p of s, and the position after it. */
  method ReadNumber(s: string, p: nat) returns (v: nat, q: nat)
    requires p <= |s|
    ensures v == Number(s[p..]) && q == p + Run(s[p..]) <= |s|
  {
    var rest := s[p..];
    var n: nat := 0;
    v := 0;
    while n < |rest| && IsDigit(rest[n])
      invariant n <= |rest| && AllDigits(rest[..n]) && v == Value(rest[..n])
    {
      ValueMore(rest, n);
      v := v * 10 + DigitValue(rest[n]);
      n := n + 1;
    }
    RunIs(rest, n);
    q := p + n;
  }
}
