// Steps per update and the layers chosen for recomputation
// (baselines/common/geometry.py).
module LayerSpread {
  import opened Wrappers

  datatype Float = NotFinite | Finite(value: real)

  datatype GeometryError = NotPositive | PartialSequence | PartialUpdate | BadFraction

  // ----- accumulation_steps -----

  function AccumulationSteps(tokens: int, sequence: int, microbatch: int, world: int): Result<int, GeometryError> {
    if tokens < 1 || sequence < 1 || microbatch < 1 || world < 1 then Err(NotPositive)
    else if microbatch % sequence != 0 then Err(PartialSequence)
    else if tokens % world != 0 || (tokens / world) % microbatch != 0 then Err(PartialUpdate)
    else Ok(tokens / world / microbatch)
  }

  // Accepted exactly when some number of whole microbatches on every rank is
  // the update; that number is the answer.
  lemma StepsConserveTokens(tokens: int, sequence: int, microbatch: int, world: int, steps: int)
    requires tokens >= 1 && sequence >= 1 && microbatch >= 1 && world >= 1
    ensures AccumulationSteps(tokens, sequence, microbatch, world) == Ok(steps)
            <==> microbatch % sequence == 0 && steps * microbatch * world == tokens
  {
    if steps * microbatch * world == tokens {
      Multiple(steps * microbatch, world);
      Multiple(steps, microbatch);
    }
  }

  lemma Multiple(k: int, d: int)
    requires d > 0
    ensures (k * d) % d == 0 && k * d / d == k
  {
    QuotientIsUnique(k * d, d, k);
    assert k * d == d * (k * d / d) + (k * d) % d;
  }

  lemma QuotientIsUnique(x: int, n: int, q: int)
    requires n > 0 && n * q <= x < n * q + n
    ensures x / n == q
  {
    var p := x / n;
    assert x == n * p + x % n;
    assert n * p - n * q == n * (p - q);
    SmallFactor(n, p - q, 1);
  }

  lemma SmallFactor(n: int, d: int, bound: int)
    requires n > 0 && -bound * n < n * d < bound * n
    ensures -bound < d < bound
  {
    if d >= bound {
      MulAtLeast(d, bound, n);
    } else if d <= -bound {
      MulAtLeast(-d, bound, n);
    }
  }

  lemma MulAtLeast(a: int, b: int, d: int)
    requires a >= b && d >= 0
    ensures a * d >= b * d
  {}

  // ----- recompute_layers -----

  // layer_count * fraction, exactly.
  function Wanted(n: int, fraction: real): real {
    n as real * fraction
  }

  // round(): to the nearest integer, ties to the even one.
  function RoundHalfEven(x: real): int {
    var low := x.Floor;
    var rest := x - low as real;
    if rest < 0.5 || (rest == 0.5 && low % 2 == 0) then low else low + 1
  }

  // The indices below `upto` at which f rises.
  function Rises(f: int -> int, upto: nat): seq<int> {
    if upto == 0 then []
    else if f(upto) > f(upto - 1) then Rises(f, upto - 1) + [upto - 1]
    else Rises(f, upto - 1)
  }

  // The share of the first k of n layers when `count` are chosen.
  function EvenShare(n: int, count: int): int -> int
    requires n > 0
  {
    k => k * count / n
  }

  // `count` of n layers.
  function Selection(n: int, count: int): seq<int>
    requires n > 0
  {
    Rises(EvenShare(n, count), n)
  }

  // Refused exactly for a count or a fraction out of range; otherwise the
  // nearest whole number of layers, ascending, every run of consecutive layers
  // holding its even share to within less than one.
  function RecomputeLayers(layerCount: int, fraction: Float): (r: Result<seq<int>, GeometryError>)
    ensures r.Ok? <==> layerCount >= 1 && fraction.Finite? && 0.0 <= fraction.value <= 1.0
    ensures r.Ok? ==> NearestSpread(r.value, layerCount, Wanted(layerCount, fraction.value))
  {
    if layerCount < 1 || fraction.NotFinite? || !(0.0 <= fraction.value <= 1.0) then Err(BadFraction)
    else
      FractionSpread(layerCount, fraction.value);
      Ok(Selection(layerCount, RoundHalfEven(Wanted(layerCount, fraction.value))))
  }

  // How many of the chosen layers lie in [a, b).
  function Within(layers: seq<int>, a: int, b: int): nat {
    if |layers| == 0 then 0
    else Within(layers[..|layers| - 1], a, b) + if a <= layers[|layers| - 1] < b then 1 else 0
  }

  lemma RoundIsNearest(x: real)
    ensures -0.5 <= RoundHalfEven(x) as real - x <= 0.5
    ensures RoundHalfEven(x) as real - x == 0.5 || RoundHalfEven(x) as real - x == -0.5 ==> RoundHalfEven(x) % 2 == 0
  {}

  lemma RoundStaysBetween(x: real, n: int)
    requires 0.0 <= x <= n as real
    ensures 0 <= RoundHalfEven(x) <= n
  {}

  lemma StepIsZeroOrOne(n: int, count: int, k: int)
    requires n > 0 && 0 <= count <= n
    ensures k * count / n <= (k + 1) * count / n <= k * count / n + 1
  {
    var x, p := k * count, k * count / n;
    assert (k + 1) * count == x + count;
    assert x == n * p + x % n;
    if x + count < n * p + n {
      QuotientIsUnique(x + count, n, p);
    } else {
      assert n * (p + 1) == n * p + n;
      QuotientIsUnique(x + count, n, p + 1);
    }
  }

  ghost predicate Ascending(layers: seq<int>, top: int) {
    && (forall i :: 0 <= i < |layers| ==> 0 <= layers[i] < top)
    && (forall i, j :: 0 <= i < j < |layers| ==> layers[i] < layers[j])
  }

  lemma {:induction false} RisesIsAscending(f: int -> int, upto: nat)
    ensures Ascending(Rises(f, upto), upto)
  {
    if upto > 0 {
      RisesIsAscending(f, upto - 1);
      AscendingAppend(Rises(f, upto - 1), upto - 1);
    }
  }

  lemma AscendingAppend(layers: seq<int>, last: int)
    requires Ascending(layers, last) && 0 <= last
    ensures Ascending(layers + [last], last + 1) && Ascending(layers, last + 1)
  {}

  lemma WithinAppend(layers: seq<int>, last: int, a: int, b: int)
    ensures Within(layers + [last], a, b) == Within(layers, a, b) + if a <= last < b then 1 else 0
  {
    assert (layers + [last])[..|layers|] == layers;
  }

  ghost predicate RisesByAtMostOne(f: int -> int, k: int) {
    f(k) <= f(k + 1) <= f(k) + 1
  }

  lemma {:induction false} WithinSplits(layers: seq<int>, a: int, b: int)
    requires 0 <= a <= b
    ensures Within(layers, 0, b) == Within(layers, 0, a) + Within(layers, a, b)
  {
    if |layers| > 0 {
      WithinSplits(layers[..|layers| - 1], a, b);
    }
  }

  // A function that steps by zero or one rises f(a) - f(0) times below a.
  lemma {:induction false} PrefixCount(f: int -> int, upto: nat, a: nat)
    requires forall k :: 0 <= k < upto ==> RisesByAtMostOne(f, k)
    requires a <= upto
    ensures Within(Rises(f, upto), 0, a) == f(a) - f(0)
  {
    if upto > 0 {
      var last := upto - 1;
      PrefixCount(f, last, if a == upto then last else a);
      RisesIsAscending(f, last);
      assert RisesByAtMostOne(f, last);
      LastCount(Rises(f, last), last, a);
    }
  }

  // One more layer counts in the prefix that reaches it and in no shorter one.
  lemma LastCount(layers: seq<int>, last: nat, a: nat)
    requires Ascending(layers, last) && a <= last + 1
    ensures a <= last ==> Within(layers + [last], 0, a) == Within(layers, 0, a)
    ensures a == last + 1 ==>
              && Within(layers, 0, a) == Within(layers, 0, last)
              && Within(layers + [last], 0, a) == Within(layers, 0, last) + 1
  {
    WithinAppend(layers, last, 0, a);
    if a == last + 1 {
      LengthIsWithin(layers, last);
      LengthIsWithin(layers, last + 1);
    }
  }

  lemma {:induction false} LengthIsWithin(layers: seq<int>, top: int)
    requires Ascending(layers, top)
    ensures Within(layers, 0, top) == |layers|
  {
    if |layers| > 0 {
      LengthIsWithin(layers[..|layers| - 1], top);
    }
  }

  // n layers are chosen ascending, each prefix [0, k) holding f(k) of them.
  ghost predicate Spread(layers: seq<int>, n: int, f: int -> int) {
    && |layers| == f(n)
    && Ascending(layers, n)
    && (forall a, b :: 0 <= a <= b <= n ==> Within(layers, a, b) == f(b) - f(a))
  }

  lemma RisesSpread(f: int -> int, n: nat)
    requires f(0) == 0 && forall k :: 0 <= k < n ==> RisesByAtMostOne(f, k)
    ensures Spread(Rises(f, n), n, f)
  {
    var layers := Rises(f, n);
    forall a, b | 0 <= a <= b <= n
      ensures Within(layers, a, b) == f(b) - f(a)
    {
      PrefixCount(f, n, a);
      PrefixCount(f, n, b);
      WithinSplits(layers, a, b);
    }
    PrefixCount(f, n, n);
    RisesIsAscending(f, n);
    LengthIsWithin(layers, n);
  }

  lemma EvenShareSteps(n: int, count: int)
    requires n > 0 && 0 <= count <= n
    ensures forall k :: 0 <= k < n ==> RisesByAtMostOne(EvenShare(n, count), k)
  {
    forall k | 0 <= k < n
      ensures RisesByAtMostOne(EvenShare(n, count), k)
    {
      StepIsZeroOrOne(n, count, k);
    }
  }

  lemma EvenShareEnds(n: int, count: int)
    requires n > 0
    ensures EvenShare(n, count)(0) == 0 && EvenShare(n, count)(n) == count
  {
    ShareOfAll(n, count);
  }

  lemma ShareOfAll(n: int, count: int)
    requires n > 0
    ensures 0 * count / n == 0 && n * count / n == count
  {
    QuotientIsUnique(n * count, n, count);
    assert 0 * count == 0;
  }

  lemma EvenShareSpreads(n: int, count: int)
    requires n > 0 && 0 <= count <= n
    ensures Spread(Rises(EvenShare(n, count), n), n, EvenShare(n, count))
    ensures |Rises(EvenShare(n, count), n)| == count
  {
    EvenShareEnds(n, count);
    EvenShareSteps(n, count);
    RisesSpread(EvenShare(n, count), n);
  }

  // The number selected is the whole number nearest to the fraction of n, the
  // even one of two equally near, and lies between none and all of the layers.
  lemma CountIsNearest(n: int, fraction: real)
    requires n >= 1 && 0.0 <= fraction <= 1.0
    ensures var count := RoundHalfEven(Wanted(n, fraction));
            0 <= count <= n && Nearest(count, Wanted(n, fraction))
  {
    CountInRange(n, fraction);
    RoundIsNearest(Wanted(n, fraction));
  }

  // A selection holds exactly `count` layers, in ascending order, and every
  // run of consecutive layers [a, b) holds floor(b * count / n) -
  // floor(a * count / n) of them, its even share to within less than one.
  lemma SpreadIsEven(n: int, count: int, a: nat, b: nat)
    requires n > 0 && 0 <= count <= n && a <= b <= n
    ensures var layers := Selection(n, count);
            && |layers| == count && Ascending(layers, n)
            && Within(layers, a, b) == b * count / n - a * count / n
            && -n < n * Within(layers, a, b) - (b - a) * count < n
  {
    EvenShareSpreads(n, count);
    WindowShare(Selection(n, count), n, count, a, b);
  }

  lemma WindowShare(layers: seq<int>, n: int, count: int, a: nat, b: nat)
    requires n > 0 && a <= b <= n && Spread(layers, n, EvenShare(n, count))
    ensures -n < n * Within(layers, a, b) - (b - a) * count < n
  {
    ShareError(n, count, a, b);
    assert Within(layers, a, b) == EvenShare(n, count)(b) - EvenShare(n, count)(a);
  }

  lemma CountInRange(n: int, fraction: real)
    requires n >= 1 && 0.0 <= fraction <= 1.0
    ensures 0 <= RoundHalfEven(Wanted(n, fraction)) <= n
  {
    assert 0.0 <= Wanted(n, fraction) <= n as real;
    RoundStaysBetween(Wanted(n, fraction), n);
  }

  lemma ShareError(n: int, count: int, a: nat, b: nat)
    requires n > 0 && a <= b
    ensures -n < n * (b * count / n - a * count / n) - (b - a) * count < n
  {
    assert b * count == n * (b * count / n) + (b * count) % n;
    assert a * count == n * (a * count / n) + (a * count) % n;
    assert (b - a) * count == b * count - a * count;
    assert n * (b * count / n - a * count / n) == n * (b * count / n) - n * (a * count / n);
  }

  lemma FractionSpread(n: int, fraction: real)
    requires n >= 1 && 0.0 <= fraction <= 1.0
    ensures NearestSpread(Selection(n, RoundHalfEven(Wanted(n, fraction))), n, Wanted(n, fraction))
  {
    CountIsNearest(n, fraction);
    RoundedSpread(n, Wanted(n, fraction));
  }

  ghost predicate NearestSpread(layers: seq<int>, n: int, x: real) {
    IsSpread(layers, n, |layers|) && Nearest(|layers|, x)
  }

  lemma RoundedSpread(n: int, x: real)
    requires n >= 1 && 0 <= RoundHalfEven(x) <= n && Nearest(RoundHalfEven(x), x)
    ensures NearestSpread(Selection(n, RoundHalfEven(x)), n, x)
  {
    SelectionIsSpread(n, RoundHalfEven(x));
  }

  // The nearest whole number, the even one of two equally near.
  predicate Nearest(count: int, x: real) {
    -0.5 <= count as real - x <= 0.5 && (-0.5 < count as real - x < 0.5 || count % 2 == 0)
  }

  ghost predicate IsSpread(layers: seq<int>, n: int, count: int) {
    && 0 <= count <= n && |layers| == count && Ascending(layers, n)
    && forall a, b :: 0 <= a <= b <= n ==> Fair(n, count, b - a, Within(layers, a, b))
  }

  // A window of this length holding this many layers has its even share.
  predicate Fair(n: int, count: int, length: int, held: int) {
    -n < n * held - length * count < n
  }

  lemma SelectionIsSpread(n: int, count: int)
    requires n > 0 && 0 <= count <= n
    ensures IsSpread(Selection(n, count), n, count)
  {
    SpreadIsEven(n, count, 0, n);
    forall a, b | 0 <= a <= b <= n
      ensures Fair(n, count, b - a, Within(Selection(n, count), a, b))
    {
      SpreadIsEven(n, count, a, b);
    }
  }

  // Two runs of the same length never differ by more than one layer.
  lemma EqualRunsAgree(n: int, count: int, a: nat, b: nat, length: nat)
    requires n > 0 && 0 <= count <= n && a + length <= n && b + length <= n
    ensures -1 <= Within(Selection(n, count), a, a + length) - Within(Selection(n, count), b, b + length) <= 1
  {
    SpreadIsEven(n, count, a, a + length);
    SpreadIsEven(n, count, b, b + length);
    CloseMultiples(n, Within(Selection(n, count), a, a + length), Within(Selection(n, count), b, b + length),
                   length * count);
  }

  lemma CloseMultiples(n: int, x: int, y: int, share: int)
    requires n > 0 && -n < n * x - share < n && -n < n * y - share < n
    ensures -1 <= x - y <= 1
  {
    assert n * x - n * y == n * (x - y);
    SmallFactor(n, x - y, 2);
  }
}
