/** Decimal digit strings and the numbers they denote. */
module Digits {
  import opened Prelude

  predicate IsDigit(c: char) {
    '0' <= c <= '9'
  }

  predicate AllDigits(s: string) {
    forall i :: 0 <= i < |s| ==> IsDigit(s[i])
  }

  function DigitValue(c: char): nat
    requires IsDigit(c)
  {
    (c - '0') as nat
  }

  function Val(s: string): nat
    requires AllDigits(s)
  {
    if s == "" then 0 else 10 * Val(s[..|s| - 1]) + DigitValue(s[|s| - 1])
  }

  /** `n * 10^k` */
  function Shift(n: nat, k: nat): nat {
    if k == 0 then n else 10 * Shift(n, k - 1)
  }

  /** `n / 10^k`, when that is an integer. */
  function Unshift(n: nat, k: nat): Option<nat> {
    if k == 0 then Some(n) else if n % 10 == 0 then Unshift(n / 10, k - 1) else None
  }

  function Repeat(c: char, n: nat): (s: string)
    ensures |s| == n && forall i :: 0 <= i < n ==> s[i] == c
  {
    if n == 0 then "" else Repeat(c, n - 1) + [c]
  }

  function DigitChar(d: nat): char
    requires d < 10
  {
    '0' + d as char
  }

  /** The decimal numeral of `n`, without leading zeros. */
  function Dec(n: nat): (s: string)
    ensures AllDigits(s) && |s| > 0
  {
    if n < 10 then [DigitChar(n)] else Dec(n / 10) + [DigitChar(n % 10)]
  }

  function PadStart(s: string, width: nat): string {
    if |s| >= width then s else Repeat('0', width - |s|) + s
  }

  /** How many leading characters are digits. */
  function DigitRun(s: string): (n: nat)
    ensures n <= |s| && AllDigits(s[..n])
    ensures n < |s| ==> !IsDigit(s[n])
  {
    if s == "" || !IsDigit(s[0]) then 0 else
      var n := DigitRun(s[1..]);
      assert s[..n + 1] == [s[0]] + s[1..][..n];
      n + 1
  }

  lemma {:induction false} DigitRunOf(digits: string, rest: string)
    requires AllDigits(digits) && (rest != "" ==> !IsDigit(rest[0]))
    ensures DigitRun(digits + rest) == |digits|
  {
    if digits == "" {
      assert digits + rest == rest;
    } else {
      assert (digits + rest)[1..] == digits[1..] + rest;
      DigitRunOf(digits[1..], rest);
    }
  }

  // ----- Values -----

  lemma {:induction false} DecVal(n: nat)
    ensures Val(Dec(n)) == n
  {
    if n >= 10 {
      DecVal(n / 10);
      assert Dec(n)[..|Dec(n)| - 1] == Dec(n / 10);
    }
  }

  /** A remainder below `10^k` spoils the division unless it is zero. */
  lemma {:induction false} UnshiftRemainder(m: nat, n: nat, r: nat, k: nat)
    requires r < Shift(1, k) && m == Shift(n, k) + r
    ensures Unshift(m, k) == if r == 0 then Some(n) else None
  {
    if k > 0 && r % 10 == 0 {
      UnshiftRemainder(m / 10, n, r / 10, k - 1);
    }
  }

  /** Concatenation shifts the first part. */
  lemma {:induction false} ValConcat(a: string, b: string)
    requires AllDigits(a) && AllDigits(b)
    ensures AllDigits(a + b) && Val(a + b) == Shift(Val(a), |b|) + Val(b)
  {
    if b == "" {
      assert a + b == a;
    } else {
      var init := b[..|b| - 1];
      ValConcat(a, init);
      assert (a + b)[..|a + b| - 1] == a + init;
    }
  }

  lemma {:induction false} ValBound(s: string)
    requires AllDigits(s)
    ensures Val(s) < Shift(1, |s|)
  {
    if s != "" {
      ValBound(s[..|s| - 1]);
    }
  }

  lemma {:induction false} ValZero(s: string)
    requires AllDigits(s)
    ensures Val(s) == 0 <==> forall i :: 0 <= i < |s| ==> s[i] == '0'
  {
    if s != "" {
      var init := s[..|s| - 1];
      ValZero(init);
      assert forall i :: 0 <= i < |init| ==> init[i] == s[i];
    }
  }

  lemma {:induction false} ShiftZero(k: nat)
    ensures Shift(0, k) == 0
  {
    if k > 0 {
      ShiftZero(k - 1);
    }
  }

  lemma {:induction false} LeadingZeros(s: string, k: nat)
    requires AllDigits(s)
    ensures AllDigits(Repeat('0', k) + s) && Val(Repeat('0', k) + s) == Val(s)
  {
    ValZero(Repeat('0', k));
    ValConcat(Repeat('0', k), s);
    ShiftZero(|s|);
  }

  lemma {:induction false} PadVal(n: nat, width: nat)
    requires |Dec(n)| <= width
    ensures var s := PadStart(Dec(n), width); |s| == width && AllDigits(s) && Val(s) == n
  {
    DecVal(n);
    if |Dec(n)| < width {
      LeadingZeros(Dec(n), width - |Dec(n)|);
    }
  }

  // ----- Multiplying digits by a power of ten -----

  /** `n * 10^shift`, when that is an integer. */
  function Scaled(n: nat, shift: int): Option<nat> {
    if shift >= 0 then Some(Shift(n, shift)) else Unshift(n, -shift)
  }

  predicate AllZero(s: string) {
    forall i :: 0 <= i < |s| ==> s[i] == '0'
  }

  /** The same on digits: append zeros, or drop digits that must be zeros. */
  function Rescale(s: string, shift: int): Option<string> {
    if shift >= 0 then Some(s + Repeat('0', shift))
    else
      var keep := if |s| + shift >= 0 then |s| + shift else 0;
      if AllZero(s[keep..]) then Some(s[..keep]) else None
  }

  lemma {:induction false} UnshiftSmall(n: nat, k: nat, j: nat)
    requires n < Shift(1, k) && k <= j
    ensures Unshift(n, j) == if n == 0 then Some(0) else None
  {
    if j > 0 && n % 10 == 0 {
      if k == 0 {
        UnshiftSmall(0, 0, j - 1);
      } else {
        UnshiftSmall(n / 10, k - 1, j - 1);
      }
    }
  }

  lemma {:induction false} AppendZeros(s: string, k: nat)
    requires AllDigits(s)
    ensures AllDigits(s + Repeat('0', k)) && Val(s + Repeat('0', k)) == Shift(Val(s), k)
  {
    ValZero(Repeat('0', k));
    ValConcat(s, Repeat('0', k));
  }

  lemma {:induction false} SplitVal(s: string, keep: nat)
    requires AllDigits(s) && keep <= |s|
    ensures Val(s) == Shift(Val(s[..keep]), |s| - keep) + Val(s[keep..])
  {
    assert s == s[..keep] + s[keep..];
    ValConcat(s[..keep], s[keep..]);
  }

  lemma {:induction false} DropDigits(s: string, keep: nat)
    requires AllDigits(s) && keep <= |s|
    ensures Unshift(Val(s), |s| - keep) == if AllZero(s[keep..]) then Some(Val(s[..keep])) else None
  {
    SplitVal(s, keep);
    ValZero(s[keep..]);
    ValBound(s[keep..]);
    UnshiftRemainder(Val(s), Val(s[..keep]), Val(s[keep..]), |s| - keep);
  }

  lemma {:induction false} DropAll(s: string, j: nat)
    requires AllDigits(s) && |s| <= j
    ensures Unshift(Val(s), j) == if AllZero(s) then Some(0) else None
  {
    ValZero(s);
    ValBound(s);
    UnshiftSmall(Val(s), |s|, j);
  }

  function ValOf(s: Option<string>): Option<nat>
    requires s.Some? ==> AllDigits(s.value)
  {
    if s.None? then None else Some(Val(s.value))
  }

  /** Shifting the digits is multiplying the value. */
  lemma {:induction false} RescaleVal(s: string, shift: int)
    requires AllDigits(s)
    ensures Rescale(s, shift).Some? ==> AllDigits(Rescale(s, shift).value)
    ensures Scaled(Val(s), shift) == ValOf(Rescale(s, shift))
  {
    if shift >= 0 {
      AppendZeros(s, shift);
    } else if |s| + shift >= 0 {
      DropDigits(s, |s| + shift);
    } else {
      DropAll(s, -shift);
      assert s[0..] == s;
    }
  }

  /** Leading zeros change neither whether nor to what value digits rescale. */
  lemma {:induction false} RescaleLeading(s: string, k: nat, shift: int)
    requires AllDigits(s)
    ensures AllDigits(Repeat('0', k) + s)
    ensures Rescale(s, shift).Some? ==> AllDigits(Rescale(s, shift).value)
    ensures Rescale(Repeat('0', k) + s, shift).Some? ==> AllDigits(Rescale(Repeat('0', k) + s, shift).value)
    ensures ValOf(Rescale(Repeat('0', k) + s, shift)) == ValOf(Rescale(s, shift))
  {
    LeadingZeros(s, k);
    RescaleVal(s, shift);
    RescaleVal(Repeat('0', k) + s, shift);
  }
}
