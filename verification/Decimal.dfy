/** Decimal numerals: Rust's `{:0w}` formatting and `str::parse::<u64>`. */
module Decimal {
  import opened Machine
  import opened Text

  function Digits(n: nat): Text {
    if n < 10 then [ZERO + n] else Digits(n / 10) + [ZERO + n % 10]
  }

  function Zeros(w: nat): Text {
    seq(w, _ => ZERO)
  }

  /** `format!("{:0w}", n)`: at least `w` digits, never truncated. */
  function Padded(n: nat, w: nat): Text {
    var d := Digits(n);
    if |d| < w then Zeros(w - |d|) + d else d
  }

  predicate AllDigits(t: Text) {
    forall i :: 0 <= i < |t| ==> ZERO <= t[i] < ZERO + 10
  }

  function Value(t: Text): nat
    requires AllDigits(t)
  {
    if t == [] then 0 else Value(t[..|t| - 1]) * 10 + (t[|t| - 1] - ZERO)
  }

  /** `t.parse::<u64>()`: one optional `+`, then at least one digit, and no overflow. */
  function ParseU64(t: Text): Option<u64> {
    var digits := if |t| > 1 && t[0] == PLUS then t[1..] else t;
    if digits != [] && AllDigits(digits) && Value(digits) <= U64_MAX then Some(Value(digits)) else None
  }

  ghost function Pow10(w: nat): nat {
    if w == 0 then 1 else 10 * Pow10(w - 1)
  }

  /** The last `w` decimal digits of `n`: what `Padded` is on numbers that fit. */
  ghost function Fixed(n: nat, w: nat): (t: Text)
    ensures |t| == w && AllDigits(t)
  {
    if w == 0 then [] else Fixed(n / 10, w - 1) + [ZERO + n % 10]
  }

  lemma {:induction false} PaddedIsFixed(n: nat, w: nat)
    requires 0 < w && n < Pow10(w)
    ensures Padded(n, w) == Fixed(n, w)
  {
    if n < 10 {
      FixedZeros(w - 1);
      assert n / 10 == 0;
      if w == 1 { assert Digits(n) == [ZERO + n]; }
    } else {
      assert Pow10(1) == 10;
      PaddedIsFixed(n / 10, w - 1);
      var d := Digits(n / 10);
      if |d| < w - 1 {
        assert Zeros(w - 1 - |d|) + d + [ZERO + n % 10] == Zeros(w - |Digits(n)|) + Digits(n);
      }
    }
  }

  lemma FixedZeros(w: nat)
    ensures Fixed(0, w) == Zeros(w)
  {
  }

  lemma {:induction false} FixedValue(n: nat, w: nat)
    requires n < Pow10(w)
    ensures Value(Fixed(n, w)) == n
  {
    if w > 0 {
      FixedValue(n / 10, w - 1);
      assert Fixed(n, w)[..w - 1] == Fixed(n / 10, w - 1);
    }
  }

  /** Fixed-width decimal text sorts as the numbers do. */
  lemma {:induction false} FixedOrder(a: nat, b: nat, w: nat)
    requires a < b && b < Pow10(w)
    ensures TextLt(Fixed(a, w), Fixed(b, w))
  {
    var x, y := [ZERO + a % 10], [ZERO + b % 10];
    if a / 10 < b / 10 {
      FixedOrder(a / 10, b / 10, w - 1);
      Irreflexive(Fixed(a / 10, w - 1));
      LtDecided(Fixed(a / 10, w - 1), x, Fixed(b / 10, w - 1), y);
    } else {
      assert a / 10 == b / 10;
      LtSamePrefix(Fixed(a / 10, w - 1), x, y);
    }
  }

  lemma U64Fits20()
    ensures U64_MAX < Pow10(20)
  {
    assert Pow10(5) == 100000;
    assert Pow10(10) == 10000000000;
    assert Pow10(15) == 1000000000000000;
  }

  lemma U32Fits10()
    ensures U32_MAX < Pow10(10)
  {
    assert Pow10(5) == 100000;
  }

  /** Every u64 prints as exactly 20 digits, parses back, and sorts numerically. */
  lemma Padded20(n: u64)
    ensures |Padded(n, 20)| == 20 && AllDigits(Padded(n, 20)) && COLON !in Padded(n, 20)
    ensures ParseU64(Padded(n, 20)) == Some(n)
  {
    U64Fits20();
    PaddedIsFixed(n, 20);
    FixedValue(n, 20);
  }

  lemma Padded20Less(a: u64, b: u64)
    requires a < b
    ensures TextLt(Padded(a, 20), Padded(b, 20))
  {
    U64Fits20();
    PaddedIsFixed(a, 20);
    PaddedIsFixed(b, 20);
    FixedOrder(a, b, 20);
  }

  lemma Padded20Order(a: u64, b: u64)
    ensures TextLt(Padded(a, 20), Padded(b, 20)) <==> a < b
    ensures Padded(a, 20) == Padded(b, 20) <==> a == b
  {
    var x, y := Padded(a, 20), Padded(b, 20);
    Irreflexive(x);
    if a < b {
      Padded20Less(a, b);
      if TextLt(y, x) { Transitive(x, y, x); }
    } else if b < a {
      Padded20Less(b, a);
      if TextLt(x, y) { Transitive(x, y, x); }
    }
  }

  /** Every u32 prints as exactly 10 digits, injectively. */
  lemma Padded10(a: u32, b: u32)
    ensures |Padded(a, 10)| == 10 && COLON !in Padded(a, 10)
    ensures Padded(a, 10) == Padded(b, 10) <==> a == b
  {
    U32Fits10();
    PaddedIsFixed(a, 10);
    PaddedIsFixed(b, 10);
    FixedValue(a, 10);
    FixedValue(b, 10);
  }

  lemma {:induction false} DigitsAre(n: nat)
    ensures Digits(n) != [] && AllDigits(Digits(n)) && Value(Digits(n)) == n && Digits(n)[0] != PLUS
  {
    if n >= 10 {
      DigitsAre(n / 10);
      assert Digits(n)[..|Digits(n)| - 1] == Digits(n / 10);
    } else {
      assert Digits(n)[..0] == [];
      assert Value([]) == 0;
    }
  }

  /** What parses as a number: every u64 as it prints, with a plus sign or without, and
      no number beyond; nothing but digits after an optional plus sign, and no empty text. */
  lemma ParsesExactly(n: nat, t: Text)
    ensures ParseU64(Digits(n)) == if n <= 0xFFFF_FFFF_FFFF_FFFF then Some(n) else None
    ensures ParseU64([PLUS] + Digits(n)) == ParseU64(Digits(n))
    ensures ParseU64([]) == None && ParseU64([PLUS]) == None
    ensures ParseU64(t).Some? ==> t != [] && forall i :: 0 <= i < |t| ==> 48 <= t[i] <= 57 || (i == 0 && t[i] == 43 && |t| > 1)
  {
    hide Digits, Value;
    DigitsAre(n);
    assert ([PLUS] + Digits(n))[1..] == Digits(n);
    if ParseU64(t).Some? && |t| > 1 && t[0] == PLUS {
      assert forall i :: 1 <= i < |t| ==> t[i] == t[1..][i - 1];
    }
  }

  /** `t` holds the decimal digits of `n`, `width` of them, from `at` on. */
  predicate Number(t: Text, at: nat, width: nat, n: nat) {
    at + width <= |t| && AllDigits(t[at..at + width]) && Value(t[at..at + width]) == n
  }

  lemma PaddedValue(n: nat, w: nat)
    requires 0 < w && n < Pow10(w)
    ensures AllDigits(Padded(n, w)) && Value(Padded(n, w)) == n
  {
    PaddedIsFixed(n, w);
    FixedValue(n, w);
  }
}
