// Decimal numerals, size strings and greatest common divisors
// (benchmarking/planning_eval/config.py).
module Decimals {
  import opened Wrappers

  // ----- Numerals -----

  predicate IsDigit(c: char) {
    '0' <= c <= '9'
  }

  function Digit(d: nat): (c: char)
    requires d < 10
    ensures IsDigit(c) && Value([c]) == d
  {
    '0' + d as char
  }

  function Digits(n: nat): (s: string)
    ensures |s| > 0 && forall i :: 0 <= i < |s| ==> IsDigit(s[i])
  {
    if n < 10 then [Digit(n)] else Digits(n / 10) + [Digit(n % 10)]
  }

  function Value(s: string): int {
    if |s| == 0 then 0 else 10 * Value(s[..|s| - 1]) + (s[|s| - 1] as int - '0' as int)
  }

  lemma {:induction false} ValueOfDigits(n: nat)
    ensures Value(Digits(n)) == n
    ensures n > 0 ==> Digits(n)[0] != '0'
  {
    if n >= 10 {
      ValueOfDigits(n / 10);
      var s := Digits(n / 10) + [Digit(n % 10)];
      assert s[..|s| - 1] == Digits(n / 10);
    }
  }

  function DigitPrefix(s: string): (n: nat)
    ensures n <= |s|
    ensures forall i :: 0 <= i < n ==> IsDigit(s[i])
    ensures n < |s| ==> !IsDigit(s[n])
  {
    if |s| == 0 || !IsDigit(s[0]) then 0 else 1 + DigitPrefix(s[1..])
  }

  lemma {:induction false} PrefixOfDigits(digits: string, rest: string)
    requires forall i :: 0 <= i < |digits| ==> IsDigit(digits[i])
    requires |rest| > 0 && !IsDigit(rest[0])
    ensures DigitPrefix(digits + rest) == |digits|
  {
    if |digits| == 0 {
      assert digits + rest == rest;
    } else {
      PrefixOfDigits(digits[1..], rest);
      assert (digits + rest)[1..] == digits[1..] + rest;
    }
  }

  // A numeral ends where its digits do.
  lemma NumeralThen(m: nat, a: string, n: nat, b: string)
    requires |a| > 0 && !IsDigit(a[0]) && |b| > 0 && !IsDigit(b[0])
    requires Digits(m) + a == Digits(n) + b
    ensures m == n && a == b
  {
    PrefixOfDigits(Digits(m), a);
    PrefixOfDigits(Digits(n), b);
    var k := |Digits(m)|;
    assert Digits(m) == (Digits(m) + a)[..k] == (Digits(n) + b)[..k] == Digits(n);
    assert a == (Digits(m) + a)[k..] == (Digits(n) + b)[k..] == b;
    ValueOfDigits(m);
    ValueOfDigits(n);
  }

  // ----- Sizes -----

  const UNITS: seq<string> := ["B", "KiB", "MiB", "GiB", "TiB"]

  function Multiplier(unit: nat): (m: int)
    requires unit < 5
    ensures m > 0
  {
    [1, 0x400, 0x10_0000, 0x4000_0000, 0x100_0000_0000][unit]
  }

  function UnitOf(suffix: string): (u: Option<nat>)
    ensures u.Some? ==> u.value < 5 && UNITS[u.value] == suffix
  {
    if suffix == "B" then Some(0)
    else if suffix == "KiB" then Some(1)
    else if suffix == "MiB" then Some(2)
    else if suffix == "GiB" then Some(3)
    else if suffix == "TiB" then Some(4)
    else None
  }

  // A nonzero leading digit, further digits, a unit, and nothing else.
  function ParseSize(s: string): Option<int> {
    var n := DigitPrefix(s);
    var unit := UnitOf(s[n..]);
    if n == 0 || s[0] == '0' || unit.None? then None
    else Some(Value(s[..n]) * Multiplier(unit.value))
  }

  // The largest unit that divides the value.
  function FormatUnit(value: nat, unit: nat): (u: nat)
    requires unit < 5
    ensures u < 5 && value % Multiplier(u) == 0
  {
    if unit == 0 || value % Multiplier(unit) == 0 then unit else FormatUnit(value, unit - 1)
  }

  function FormatSize(value: nat): string {
    var unit := FormatUnit(value, 4);
    Digits(value / Multiplier(unit)) + UNITS[unit]
  }

  function Power(unit: nat): int {
    if unit == 0 then 1 else 1024 * Power(unit - 1)
  }

  lemma MultiplierIsPower(unit: nat)
    requires unit < 5
    ensures Multiplier(unit) == Power(unit)
  {
    if unit > 0 {
      MultiplierIsPower(unit - 1);
    }
  }

  // A size text: a nonzero leading digit, further digits and a unit.
  ghost predicate Spells(s: string, n: nat, unit: nat) {
    && 0 < n <= |s| && unit < 5 && s[0] != '0' && s[n..] == UNITS[unit]
    && forall i :: 0 <= i < n ==> IsDigit(s[i])
  }

  // What parses is exactly a size text, and is its digits times a power of
  // 1024: none, KiB one, MiB two, GiB three, TiB four.
  lemma SizeMeans(s: string, value: int)
    ensures ParseSize(s) == Some(value) <==> exists n: nat, unit: nat ::
                                               Spells(s, n, unit) && value == Value(s[..n]) * Power(unit)
  {
    var n := DigitPrefix(s);
    if ParseSize(s) == Some(value) {
      var unit := UnitOf(s[n..]).value;
      MultiplierIsPower(unit);
      assert Spells(s, n, unit);
    }
    forall m: nat, unit: nat | Spells(s, m, unit)
      ensures m == n && UnitOf(s[n..]) == Some(unit) && Multiplier(unit) == Power(unit)
    {
      PrefixOfDigits(s[..m], UNITS[unit]);
      assert s == s[..m] + UNITS[unit];
      MultiplierIsPower(unit);
    }
  }

  // A size is printed in the largest unit that divides it.
  lemma {:induction false} LargestUnit(value: nat, unit: nat)
    requires unit < 5
    ensures FormatUnit(value, unit) <= unit
    ensures forall w :: FormatUnit(value, unit) < w <= unit ==> value % Multiplier(w) != 0
  {
    if unit > 0 && value % Multiplier(unit) != 0 {
      LargestUnit(value, unit - 1);
    }
  }

  // Every positive size survives being printed and parsed.
  lemma SizeRoundTrip(value: nat)
    requires value > 0
    ensures ParseSize(FormatSize(value)) == Some(value)
  {
    var unit := FormatUnit(value, 4);
    var m := Multiplier(unit);
    var count := value / m;
    assert value == count * m;
    assert count > 0;
    var s := FormatSize(value);
    PrefixOfDigits(Digits(count), UNITS[unit]);
    ValueOfDigits(count);
    assert s[..|Digits(count)|] == Digits(count) && s[|Digits(count)|..] == UNITS[unit];
    assert UnitOf(UNITS[unit]) == Some(unit);
  }

  // Whatever parses is a positive size.
  lemma ParsedIsPositive(s: string)
    requires ParseSize(s).Some?
    ensures ParseSize(s).value > 0
  {
    var n := DigitPrefix(s);
    LeadingDigit(s[..n]);
    var m := Multiplier(UnitOf(s[n..]).value);
    assert Value(s[..n]) * m > 0;
  }

  lemma {:induction false} LeadingDigit(s: string)
    requires |s| > 0 && s[0] != '0' && forall i :: 0 <= i < |s| ==> IsDigit(s[i])
    ensures Value(s) > 0
  {
    if |s| > 1 {
      LeadingDigit(s[..|s| - 1]);
    }
  }

  // ----- Greatest common divisors -----

  ghost predicate Divides(d: int, n: int) {
    exists k :: n == k * d
  }

  ghost predicate IsGcd(g: int, a: int, b: int) {
    g > 0 && Divides(g, a) && Divides(g, b) && forall d :: Divides(d, a) && Divides(d, b) ==> Divides(d, g)
  }

  lemma DividesSum(d: int, a: int, b: int, q: int)
    requires Divides(d, a) && Divides(d, b)
    ensures Divides(d, q * a + b) && Divides(d, b - q * a)
  {
    var i :| a == i * d;
    var j :| b == j * d;
    assert q * a + b == (q * i + j) * d;
    assert b - q * a == (j - q * i) * d;
  }

  lemma SameDivisors(a: int, b: int)
    requires b > 0
    ensures forall d :: Divides(d, a) && Divides(d, b) <==> Divides(d, b) && Divides(d, a % b)
  {
    var q, r := a / b, a % b;
    assert a == q * b + r;
    forall d | Divides(d, b)
      ensures Divides(d, a) <==> Divides(d, r)
    {
      if Divides(d, a) {
        DividesSum(d, b, a, q);
        assert r == a - q * b;
      }
      if Divides(d, r) {
        DividesSum(d, b, r, q);
      }
    }
  }

  function GcdOf(a: int, b: int): (g: int)
    requires a > 0 && b >= 0
    ensures g > 0
    decreases b
  {
    if b == 0 then a else GcdOf(b, a % b)
  }

  method Gcd(left: int, right: int) returns (g: int)
    requires left > 0 && right >= 0
    ensures g == GcdOf(left, right) && IsGcd(g, left, right)
  {
    var a, b := left, right;
    while b != 0
      invariant a > 0 && b >= 0 && GcdOf(a, b) == GcdOf(left, right)
      decreases b
    {
      a, b := b, a % b;
    }
    g := a;
    ghost var g', x, y := Bezout(left, right);
  }

  // ----- Reduced fractions -----

  predicate Reduced(n: int, d: int) {
    n > 0 && d > 0 && GcdOf(n, d) == 1
  }

  ghost predicate Combines(a: int, b: int, g: int, x: int, y: int) {
    a * x + b * y == g
  }

  // Bezout's identity, along Euclid's algorithm.
  lemma {:induction false} Bezout(a: int, b: int) returns (g: int, x: int, y: int)
    requires a > 0 && b >= 0
    ensures g == GcdOf(a, b) && IsGcd(g, a, b) && Combines(a, b, g, x, y)
    decreases b
  {
    if b == 0 {
      g, x, y := a, 1, 0;
      assert a == 1 * a && 0 == 0 * a;
      assert Divides(a, a) && Divides(a, 0);
    } else {
      var x', y';
      g, x', y' := Bezout(b, a % b);
      x, y := y', x' - (a / b) * y';
      SameDivisors(a, b);
      Rearranged(a, b, a / b, x', y');
    }
  }

  lemma Rearranged(a: int, b: int, q: int, x: int, y: int)
    requires b != 0 && q == a / b
    ensures b * x + (a % b) * y == a * y + b * (x - q * y)
  {
    assert a % b == a - q * b;
    assert (a - q * b) * y == a * y - b * (q * y);
    assert b * (x - q * y) == b * x - b * (q * y);
  }

  lemma FactorIsPositive(i: int, a: int)
    requires a > 0 && i * a > 0
    ensures i >= 1
  {}

  lemma ProductIsLarger(i: int, a: int)
    requires i >= 1 && a > 0
    ensures i * a >= a
  {}

  lemma CommonFactorCancels(n: int, d: int, e: int)
    requires n > 0 && n * e == n * d
    ensures d == e
  {}

  lemma NumeratorDivides(n: int, d: int, m: int, e: int)
    requires Reduced(n, d) && m * d == n * e
    ensures Divides(n, m)
  {
    var g, x, y := Bezout(n, d);
    assert m == m * (n * x + d * y) == (m * n) * x + (m * d) * y;
    assert (m * n) * x + (n * e) * y == (m * x + e * y) * n;
  }

  lemma MutualDivisors(a: int, b: int)
    requires a > 0 && b > 0 && Divides(a, b) && Divides(b, a)
    ensures a == b
  {
    var i :| b == i * a;
    var j :| a == j * b;
    FactorIsPositive(i, a);
    FactorIsPositive(j, b);
    ProductIsLarger(i, a);
    ProductIsLarger(j, b);
  }

  // Equal reduced fractions are written the same way.
  lemma ReducedFormIsUnique(n: int, d: int, m: int, e: int)
    requires Reduced(n, d) && Reduced(m, e) && n * e == m * d
    ensures n == m && d == e
  {
    NumeratorDivides(n, d, m, e);
    NumeratorDivides(m, e, n, d);
    MutualDivisors(n, m);
    CommonFactorCancels(n, d, e);
  }
}
