// The sort-and-scan Pareto frontier (baselines/report.py, frontier) and the
// direct choice within a budget it must agree with (baselines/summary.py).
module Frontier {
  import opened Wrappers

  // A completed row: its cost on the horizontal axis and its worth on the
  // vertical one. Coordinates are exact.
  datatype Point = Point(x: real, y: real, path: string)

  // sorted(..., key=(x, -y)): ascending cost, descending worth within a cost.
  predicate Precedes(p: Point, q: Point) {
    p.x < q.x || (p.x == q.x && p.y >= q.y)
  }

  predicate Ordered(ps: seq<Point>) {
    forall i, j :: 0 <= i < j < |ps| ==> Precedes(ps[i], ps[j])
  }

  function Insert(p: Point, ps: seq<Point>): (r: seq<Point>) {
    if |ps| == 0 || Precedes(p, ps[0]) then [p] + ps else [ps[0]] + Insert(p, ps[1..])
  }

  function Sorted(ps: seq<Point>): (r: seq<Point>) {
    if |ps| == 0 then [] else Insert(ps[0], Sorted(ps[1..]))
  }

  lemma {:induction false} InsertKeepsOrder(p: Point, ps: seq<Point>)
    requires Ordered(ps)
    ensures Ordered(Insert(p, ps))
    ensures forall q :: q in Insert(p, ps) ==> q == p || q in ps
  {
    if |ps| > 0 && !Precedes(p, ps[0]) {
      var rest := ps[1..];
      InsertKeepsOrder(p, rest);
      forall q | q in Insert(p, rest)
        ensures Precedes(ps[0], q) && (q == p || q in ps)
      {
        if q != p {
          var i :| 0 <= i < |rest| && rest[i] == q;
          assert ps[i + 1] == q;
        }
      }
      OrderedCons(ps[0], Insert(p, rest));
    } else {
      forall q | q in ps
        ensures Precedes(p, q)
      {
        var i :| 0 <= i < |ps| && ps[i] == q;
        assert i > 0 ==> Precedes(ps[0], ps[i]);
      }
      OrderedCons(p, ps);
    }
  }

  lemma {:induction false} OrderedCons(p: Point, ps: seq<Point>)
    requires Ordered(ps) && forall q :: q in ps ==> Precedes(p, q)
    ensures Ordered([p] + ps)
  {
    var all := [p] + ps;
    forall i, j | 0 <= i < j < |all|
      ensures Precedes(all[i], all[j])
    {
      assert all[j] == ps[j - 1] && all[j] in ps;
      assert i > 0 ==> all[i] == ps[i - 1];
    }
  }

  lemma InsertKeepsMembers(p: Point, ps: seq<Point>)
    ensures multiset(Insert(p, ps)) == multiset(ps) + multiset{p}
  {
    if |ps| > 0 && !Precedes(p, ps[0]) {
      InsertKeepsMembers(p, ps[1..]);
      assert ps == [ps[0]] + ps[1..];
    }
  }

  lemma SortedSorts(ps: seq<Point>)
    ensures Ordered(Sorted(ps)) && multiset(Sorted(ps)) == multiset(ps)
  {
    if |ps| > 0 {
      assert ps == [ps[0]] + ps[1..];
      SortedSorts(ps[1..]);
      InsertKeepsOrder(ps[0], Sorted(ps[1..]));
      InsertKeepsMembers(ps[0], Sorted(ps[1..]));
    }
  }

  // "Less of x and no less of y, or no more of x and more of y."
  predicate Beats(q: Point, p: Point) {
    (q.x < p.x && q.y >= p.y) || (q.x <= p.x && q.y > p.y)
  }

  predicate Covers(q: Point, p: Point) {
    q.x <= p.x && q.y >= p.y
  }

  ghost predicate Covered(p: Point, result: seq<Point>) {
    exists i :: 0 <= i < |result| && Covers(result[i], p)
  }

  predicate Climbs(result: seq<Point>) {
    forall i, j :: 0 <= i < j < |result| ==> result[i].x < result[j].x && result[i].y < result[j].y
  }

  ghost predicate Within(result: seq<Point>, points: seq<Point>) {
    forall i :: 0 <= i < |result| ==> result[i] in points
  }

  ghost predicate IsFrontier(points: seq<Point>, result: seq<Point>) {
    Within(result, points) && Climbs(result)
    && forall p {:trigger Covered(p, result)} :: p in points ==> Covered(p, result)
  }

  // Every member kept so far comes before everything from position i on.
  ghost predicate Before(result: seq<Point>, order: seq<Point>, i: int) {
    forall k, j :: 0 <= k < |result| && 0 <= i <= j < |order| ==> Precedes(result[k], order[j])
  }

  ghost predicate AllCovered(ps: seq<Point>, result: seq<Point>) {
    forall j {:trigger Covered(ps[j], result)} :: 0 <= j < |ps| ==> Covered(ps[j], result)
  }

  method FrontierOf(points: seq<Point>) returns (result: seq<Point>)
    ensures IsFrontier(points, result)
  {
    result := [];
    var best: Option<real> := None;
    var order := Sorted(points);
    SortedSorts(points);
    for i := 0 to |order|
      invariant best == if |result| == 0 then None else Some(result[|result| - 1].y)
      invariant Within(result, order) && Climbs(result) && Before(result, order, i)
      invariant AllCovered(order[..i], result)
    {
      var item := order[i];
      ghost var before := result;
      if best.None? || item.y > best.value {
        KeepItem(order, i, result);
        result := result + [item];
        best := Some(item.y);
      }
      assert Precedes(result[|result| - 1], item);
      CoverNext(order, i, before, result);
    }
    assert order[..|order|] == order;
    CoverPoints(points, order, result);
  }

  lemma KeepItem(order: seq<Point>, i: int, result: seq<Point>)
    requires Ordered(order) && 0 <= i < |order|
    requires Within(result, order) && Climbs(result) && Before(result, order, i)
    requires |result| == 0 || order[i].y > result[|result| - 1].y
    ensures var r := result + [order[i]]; Within(r, order) && Climbs(r) && Before(r, order, i + 1)
  {
    forall k | 0 <= k < |result|
      ensures result[k].x < order[i].x && result[k].y < order[i].y
    {
      assert Precedes(result[k], order[i]);
      assert k < |result| - 1 ==> result[k].y < result[|result| - 1].y;
    }
  }

  lemma CoverNext(order: seq<Point>, i: int, before: seq<Point>, result: seq<Point>)
    requires 0 <= i < |order| && AllCovered(order[..i], before) && before <= result && |result| > 0
    requires Precedes(result[|result| - 1], order[i]) && result[|result| - 1].y >= order[i].y
    ensures AllCovered(order[..i + 1], result)
  {
    var front := order[..i + 1];
    forall j | 0 <= j < |front|
      ensures Covered(front[j], result)
    {
      if j < i {
        assert Covered(order[..i][j], before);
        StaysCovered(order[j], before, result);
      } else {
        assert Covers(result[|result| - 1], order[i]);
      }
    }
  }

  lemma CoverPoints(points: seq<Point>, order: seq<Point>, result: seq<Point>)
    requires multiset(points) == multiset(order) && AllCovered(order, result) && Within(result, order) && Climbs(result)
    ensures IsFrontier(points, result)
  {
    SameMembers(points, order);
    forall p | p in points
      ensures Covered(p, result)
    {
      var j :| 0 <= j < |order| && order[j] == p;
      assert Covered(order[j], result);
    }
  }

  lemma SameMembers(points: seq<Point>, order: seq<Point>)
    requires multiset(points) == multiset(order)
    ensures forall p :: p in order <==> p in points
  {
    assert forall p :: p in order <==> p in multiset(order);
    assert forall p :: p in points <==> p in multiset(points);
  }

  lemma StaysCovered(p: Point, before: seq<Point>, result: seq<Point>)
    requires Covered(p, before) && before <= result
    ensures Covered(p, result)
  {
    var i :| 0 <= i < |before| && Covers(before[i], p);
    assert result[i] == before[i];
  }

  ghost predicate HasValue(result: seq<Point>, p: Point) {
    exists i :: 0 <= i < |result| && SameValue(result[i], p)
  }

  predicate SameValue(p: Point, q: Point) {
    p.x == q.x && p.y == q.y
  }

  ghost predicate Beaten(p: Point, points: seq<Point>) {
    exists q :: q in points && Beats(q, p)
  }

  // A value is on the frontier exactly when some input has it and no input
  // beats it; strict growth makes it appear once.
  lemma FrontierIsNonDominated(points: seq<Point>, result: seq<Point>, p: Point)
    requires IsFrontier(points, result) && p in points
    ensures HasValue(result, p) <==> !Beaten(p, points)
  {
    if HasValue(result, p) {
      var a :| 0 <= a < |result| && SameValue(result[a], p);
      forall q | q in points
        ensures !Beats(q, p)
      {
        MemberIsUnbeaten(points, result, a, q);
      }
    }
    if !Beaten(p, points) {
      assert Covered(p, result);
      var i :| 0 <= i < |result| && Covers(result[i], p);
      assert result[i] in points;
      assert SameValue(result[i], p);
    }
  }

  lemma MemberIsUnbeaten(points: seq<Point>, result: seq<Point>, a: int, q: Point)
    requires IsFrontier(points, result) && 0 <= a < |result| && q in points
    ensures !Beats(q, result[a])
  {
    assert Covered(q, result);
    var b :| 0 <= b < |result| && Covers(result[b], q);
    assert b < a ==> result[b].y < result[a].y;
    assert a < b ==> result[a].x < result[b].x;
  }

  // Any two frontiers of one set of points have the same values in the same order.
  lemma {:induction false} FrontierIsUnique(points: seq<Point>, a: seq<Point>, b: seq<Point>, k: nat)
    requires IsFrontier(points, a) && IsFrontier(points, b) && k <= |a|
    ensures k <= |b| && forall i :: 0 <= i < k ==> SameValue(a[i], b[i])
  {
    if k > 0 {
      FrontierIsUnique(points, a, b, k - 1);
      var i := Matching(points, a, b, k - 1);
      if i > k - 1 {
        var j := Matching(points, b, a, k - 1);
      }
    }
  }

  lemma Matching(points: seq<Point>, a: seq<Point>, b: seq<Point>, k: nat) returns (i: nat)
    requires IsFrontier(points, a) && IsFrontier(points, b) && k < |a|
    ensures i < |b| && SameValue(b[i], a[k])
  {
    assert a[k] in points;
    assert SameValue(a[k], a[k]);
    FrontierIsNonDominated(points, a, a[k]);
    FrontierIsNonDominated(points, b, a[k]);
    i :| 0 <= i < |b| && SameValue(b[i], a[k]);
  }

  // ----- The budget scan -----

  // max(fitting, key=y) over the points within the bound: the first of the best.
  method BestWithin(points: seq<Point>, bound: real) returns (best: Option<Point>)
    ensures best.Some? <==> Fits(points, bound)
    ensures best.Some? ==> BestFit(points, bound, best.value)
  {
    best := None;
    for i := 0 to |points|
      invariant best.None? <==> forall j :: 0 <= j < i ==> points[j].x > bound
      invariant best.Some? ==>
                  && best.value in points && best.value.x <= bound
                  && forall j :: 0 <= j < i && points[j].x <= bound ==> points[j].y <= best.value.y
    {
      if points[i].x <= bound && (best.None? || points[i].y > best.value.y) {
        best := Some(points[i]);
      }
    }
  }

  function LastWithin(result: seq<Point>, bound: real): (last: Option<Point>)
    ensures last.Some? ==> last.value in result && last.value.x <= bound
  {
    if |result| == 0 then None
    else if result[|result| - 1].x <= bound then Some(result[|result| - 1])
    else LastWithin(result[..|result| - 1], bound)
  }

  lemma {:induction false} LastWithinIsLast(result: seq<Point>, bound: real, k: nat)
    requires Climbs(result) && k < |result| && result[k].x <= bound
    ensures LastWithin(result, bound).Some? && result[k].y <= LastWithin(result, bound).value.y
  {
    var last := |result| - 1;
    if result[last].x > bound {
      LastWithinIsLast(result[..last], bound, k);
    }
  }

  ghost predicate Fits(points: seq<Point>, bound: real) {
    exists p :: p in points && p.x <= bound
  }

  ghost predicate BestFit(points: seq<Point>, bound: real, p: Point) {
    p in points && p.x <= bound && forall q :: q in points && q.x <= bound ==> q.y <= p.y
  }

  // For every bound: some point fits exactly when a frontier member does, and
  // the last member within the bound is worth the best that fits.
  lemma BudgetAgreesWithFrontier(points: seq<Point>, result: seq<Point>, bound: real)
    requires IsFrontier(points, result)
    ensures Fits(points, bound) <==> LastWithin(result, bound).Some?
    ensures LastWithin(result, bound).Some? ==> BestFit(points, bound, LastWithin(result, bound).value)
  {
    var last := LastWithin(result, bound);
    if last.Some? {
      var k :| 0 <= k < |result| && result[k] == last.value;
      assert last.value in points;
    }
    forall p | p in points && p.x <= bound
      ensures last.Some? && p.y <= last.value.y
    {
      assert Covered(p, result);
      var i :| 0 <= i < |result| && Covers(result[i], p);
      LastWithinIsLast(result, bound, i);
    }
  }

  // What summarize reports for one budget and engine, read off the frontier.
  method SummaryEntry(points: seq<Point>, bound: real) returns (direct: Option<Point>, onFrontier: Option<Point>)
    ensures direct.Some? <==> onFrontier.Some?
    ensures direct.Some? ==> direct.value.y == onFrontier.value.y && BestFit(points, bound, direct.value)
  {
    var result := FrontierOf(points);
    BudgetAgreesWithFrontier(points, result, bound);
    direct := BestWithin(points, bound);
    onFrontier := LastWithin(result, bound);
  }
}
