// The share of a span covered by sorted, disjoint intervals
// (qualification/gap_report.py, _overlap_fraction), with exact arithmetic.
module Overlap {
  type Interval = (real, real)

  // Sorted, disjoint and nonnegative.
  ghost predicate Lanes(other: seq<Interval>) {
    && (forall i :: 0 <= i < |other| ==> 0.0 <= other[i].0 <= other[i].1)
    && (forall i, j :: 0 <= i < j < |other| ==> other[i].1 <= other[j].0)
  }

  // Tuple order.
  predicate Less(a: Interval, b: Interval) {
    a.0 < b.0 || (a.0 == b.0 && a.1 < b.1)
  }

  // bisect.bisect_left: how many leading intervals come before the key.
  function BisectLeft(other: seq<Interval>, key: Interval): (index: nat)
    ensures index <= |other|
    ensures forall i :: 0 <= i < index ==> Less(other[i], key)
    ensures index < |other| ==> !Less(other[index], key)
  {
    if |other| == 0 || !Less(other[0], key) then 0 else 1 + BisectLeft(other[1..], key)
  }

  function Max(a: real, b: real): real {
    if a >= b then a else b
  }

  function Min(a: real, b: real): real {
    if a <= b then a else b
  }

  function Clipped(i: Interval, start: real, end: real): real {
    Max(0.0, Min(i.1, end) - Max(i.0, start))
  }

  // What an interval covers of a span is its length within it: all of it where
  // the span contains it, nothing where they do not meet, and the sum over the
  // two parts of any span that is cut.
  lemma ClippedIsLength(i: Interval, start: real, middle: real, end: real)
    requires i.0 <= i.1 && start <= middle <= end
    ensures start <= i.0 && i.1 <= end ==> Clipped(i, start, end) == i.1 - i.0
    ensures i.1 <= start || end <= i.0 ==> Clipped(i, start, end) == 0.0
    ensures Clipped(i, start, end) == Clipped(i, start, middle) + Clipped(i, middle, end)
  {}

  // What all the intervals together cover of the span.
  function Covered(other: seq<Interval>, start: real, end: real): real {
    if |other| == 0 then 0.0
    else Covered(other[..|other| - 1], start, end) + Clipped(other[|other| - 1], start, end)
  }

  lemma {:induction false} CoveredSplit(a: seq<Interval>, b: seq<Interval>, start: real, end: real)
    requires forall i :: 0 <= i < |b| ==> Clipped(b[i], start, end) == 0.0
    ensures Covered(a + b, start, end) == Covered(a, start, end)
  {
    if |b| == 0 {
      assert a + b == a;
    } else {
      assert (a + b)[..|a + b| - 1] == a + b[..|b| - 1];
      CoveredSplit(a, b[..|b| - 1], start, end);
    }
  }

  lemma {:induction false} NothingCovered(a: seq<Interval>, start: real, end: real)
    requires forall i :: 0 <= i < |a| ==> Clipped(a[i], start, end) == 0.0
    ensures Covered(a, start, end) == 0.0
  {
    CoveredSplit([], a, start, end);
    assert [] + a == a;
  }

  // Disjoint intervals never cover more of the span than lies before the end
  // of the last one.
  lemma {:induction false} CoveredIsBounded(other: seq<Interval>, start: real, end: real)
    requires Lanes(other) && start < end
    ensures 0.0 <= Covered(other, start, end)
    ensures |other| > 0 ==> Covered(other, start, end) <= Max(0.0, Min(other[|other| - 1].1, end) - start)
    ensures Covered(other, start, end) <= end - start
  {
    if |other| > 0 {
      CoveredIsBounded(other[..|other| - 1], start, end);
    }
  }

  // The loop skips every interval before the one preceding the bisection point
  // and stops at the first that starts past the span, yet sums what every
  // interval covers.
  method CoveredLength(start: real, end: real, other: seq<Interval>) returns (covered: real)
    requires Lanes(other) && start < end
    ensures covered == Covered(other, start, end)
    ensures 0.0 <= covered <= end - start
  {
    covered := 0.0;
    var bisected := BisectLeft(other, (start, -1.0));
    var index := if bisected > 0 then bisected - 1 else 0;
    SkippedCoverNothing(other, start, end, index);
    while index < |other| && other[index].0 < end
      invariant index <= |other|
      invariant covered == Covered(other[..index], start, end)
    {
      var low := Max(other[index].0, start);
      var high := Min(other[index].1, end);
      CoveredNext(other, index, start, end);
      if high > low {
        covered := covered + (high - low);
      }
      index := index + 1;
    }
    RestCoverNothing(other, start, end, index);
    CoveredIsBounded(other, start, end);
  }

  lemma CoveredNext(other: seq<Interval>, index: int, start: real, end: real)
    requires 0 <= index < |other|
    ensures Covered(other[..index + 1], start, end)
            == Covered(other[..index], start, end) + Clipped(other[index], start, end)
  {
    assert other[..index + 1][..index] == other[..index];
  }

  lemma RestCoverNothing(other: seq<Interval>, start: real, end: real, index: int)
    requires Lanes(other) && 0 <= index <= |other| && (index < |other| ==> other[index].0 >= end)
    ensures Covered(other, start, end) == Covered(other[..index], start, end)
  {
    var rest := other[index..];
    forall i | 0 <= i < |rest|
      ensures Clipped(rest[i], start, end) == 0.0
    {
      assert rest[i] == other[index + i];
      assert i > 0 ==> other[index].1 <= other[index + i].0;
    }
    CoveredSplit(other[..index], rest, start, end);
    assert other[..index] + rest == other;
  }

  method OverlapFraction(start: real, end: real, other: seq<Interval>) returns (fraction: real)
    requires Lanes(other)
    ensures fraction == if end <= start then 0.0 else Covered(other, start, end) / (end - start)
    ensures 0.0 <= fraction <= 1.0
  {
    if end <= start {
      return 0.0;
    }
    var covered := CoveredLength(start, end, other);
    Share(covered, end - start);
    fraction := covered / (end - start);
  }

  lemma Share(part: real, whole: real)
    requires 0.0 <= part <= whole && whole > 0.0
    ensures 0.0 <= part / whole <= 1.0
  {}

  lemma SkippedCoverNothing(other: seq<Interval>, start: real, end: real, index: nat)
    requires Lanes(other) && index <= |other|
    requires index > 0 ==> index < |other| && Less(other[index], (start, -1.0))
    ensures Covered(other[..index], start, end) == 0.0
  {
    forall i | 0 <= i < index
      ensures Clipped(other[i], start, end) == 0.0
    {
      assert other[i].1 <= other[index].0;
    }
    NothingCovered(other[..index], start, end);
  }
}
