/** Parsing of unsigned integers as Go's `strconv.ParseUint` does it for an explicit base. */
module Strconv {
  import opened Wrappers

  /** The value of a digit or letter, or a number no base reaches. */
  function DigitValue(c: char): (d: nat)
    ensures d < 36 || d == 255
  {
    if '0' <= c <= '9' then (c - '0') as nat
    else if 'a' <= c <= 'z' then (c - 'a') as nat + 10
    else if 'A' <= c <= 'Z' then (c - 'A') as nat + 10
    else 255
  }

  predicate IsDigits(s: string, base: nat) {
    forall i :: 0 <= i < |s| ==> DigitValue(s[i]) < base
  }

  /** The number that the digits of `s` spell, most significant first. */
  function Value(s: string, base: nat): nat {
    if s == "" then 0
    else Value(s[..|s| - 1], base) * base + DigitValue(s[|s| - 1])
  }

  /** `None` stands for both of Go's errors: a bad digit and a value that does not fit. */
  function ParseUint(s: string, base: nat, limit: nat): Option<nat> {
    if s == "" || !IsDigits(s, base) || Value(s, base) >= limit then None
    else Some(Value(s, base))
  }

  lemma {:induction false} ValueConcat(s: string, t: string, base: nat)
    requires base > 0
    ensures Value(s + t, base) == Value(s, base) * Power(base, |t|) + Value(t, base)
    decreases |t|
  {
    if t == "" {
      assert s + t == s;
    } else {
      var front, last := t[..|t| - 1], t[|t| - 1];
      ValueConcat(s, front, base);
      assert (s + t)[..|s + t| - 1] == s + front;
      Distribute(Value(s, base), Power(base, |front|), Value(front, base), base);
    }
  }

  lemma Distribute(v: nat, p: nat, w: nat, b: nat)
    ensures (v * p + w) * b == v * (b * p) + w * b
  {
  }

  function Power(base: nat, k: nat): (p: nat)
    ensures base > 0 ==> p > 0
  {
    if k == 0 then 1 else base * Power(base, k - 1)
  }

  /** A digit string of length k spells a number below base^k. */
  lemma {:induction false} ValueBound(s: string, base: nat)
    requires IsDigits(s, base) && base > 0
    ensures Value(s, base) < Power(base, |s|)
    decreases |s|
  {
    if s != "" {
      var n := |s| - 1;
      ValueBound(s[..n], base);
      ScaleBound(Value(s[..n], base), Power(base, n), DigitValue(s[n]), base);
    }
  }

  lemma ScaleBound(v: nat, p: nat, d: nat, b: nat)
    requires v < p && d < b
    ensures v * b + d < b * p
  {
    assert (v + 1) * b <= p * b;
  }

  // ---------- Decimal numbers ----------

  predicate IsDecimal(s: string) {
    s != "" && forall i :: 0 <= i < |s| ==> '0' <= s[i] <= '9'
  }

  lemma DecimalDigits(s: string)
    ensures s != "" && IsDigits(s, 10) <==> IsDecimal(s)
  {
    assert forall c: char :: DigitValue(c) < 10 <==> '0' <= c <= '9';
  }

  /** A number as it is written in decimal. */
  function Decimal(n: nat): string {
    if n < 10 then ['0' + n as char] else Decimal(n / 10) + ['0' + (n % 10) as char]
  }

  /** A decimal number that is written down and parsed is itself again, if it fits. */
  lemma {:induction false} DecimalParses(n: nat, limit: nat)
    ensures IsDecimal(Decimal(n)) && Value(Decimal(n), 10) == n
    ensures ParseUint(Decimal(n), 10, limit) == if n < limit then Some(n) else None
  {
    var s := Decimal(n);
    if n < 10 {
      assert s[..0] == "";
      assert Value(s[..0], 10) == 0;
    } else {
      DecimalParses(n / 10, limit);
      assert s[..|s| - 1] == Decimal(n / 10);
    }
    DecimalDigits(s);
  }

  /** The digits of base 16, in either case. */
  lemma HexDigits(s: string)
    ensures IsDigits(s, 16) <==>
              forall i :: 0 <= i < |s| ==> '0' <= s[i] <= '9' || 'a' <= s[i] <= 'f' || 'A' <= s[i] <= 'F'
  {
    assert forall c: char ::
        DigitValue(c) < 16 <==> '0' <= c <= '9' || 'a' <= c <= 'f' || 'A' <= c <= 'F';
  }
}
