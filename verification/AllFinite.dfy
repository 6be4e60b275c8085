// The finite check that splits a tensor view instead of copying it
// (baselines/moe_layer/validation.py, all_finite).
module AllFinite {
  import opened Wrappers

  // A view of the tensor: along every axis, the first index and how many.
  datatype Span = Span(low: nat, length: nat)
  type View = seq<Span>
  type Index = seq<int>

  datatype Tensor = Tensor(shape: seq<nat>, floating: bool, complexValued: bool)

  datatype CheckError = ChunkNotPositive

  predicate Inside(ix: Index, v: View) {
    |ix| == |v| && forall d :: 0 <= d < |v| ==> v[d].low <= ix[d] < v[d].low + v[d].length
  }

  function Whole(shape: seq<nat>): View {
    seq(|shape|, d requires 0 <= d < |shape| => Span(0, shape[d]))
  }

  // An index of the tensor.
  predicate InTensor(ix: Index, shape: seq<nat>) {
    |ix| == |shape| && forall d :: 0 <= d < |shape| ==> 0 <= ix[d] < shape[d]
  }

  lemma WholeIsAll(shape: seq<nat>, ix: Index)
    ensures Inside(ix, Whole(shape)) <==> InTensor(ix, shape)
  {
    var v := Whole(shape);
    if Inside(ix, v) {
      forall d | 0 <= d < |shape|
        ensures 0 <= ix[d] < shape[d]
      {
        assert v[d].low <= ix[d] < v[d].low + v[d].length;
      }
    }
  }

  function Numel(v: View): nat {
    if |v| == 0 then 1 else v[0].length * Numel(v[1..])
  }

  // max(range(ndim), key=...): the first of the longest axes.
  function LongestAxis(v: View): (axis: nat)
    requires |v| > 0
    ensures axis < |v|
    ensures forall d :: 0 <= d < |v| ==> v[d].length <= v[axis].length
    ensures forall d :: 0 <= d < axis ==> v[d].length < v[axis].length
  {
    if |v| == 1 then 0
    else
      var best := LongestAxis(v[..|v| - 1]);
      if v[|v| - 1].length > v[best].length then |v| - 1 else best
  }

  function Narrow(v: View, axis: nat, start: nat, length: nat): View
    requires axis < |v| && start + length <= v[axis].length
  {
    v[axis := Span(v[axis].low + start, length)]
  }

  ghost predicate EveryElement(finite: Index -> bool, v: View) {
    forall ix :: Inside(ix, v) ==> finite(ix)
  }

  // In how many of the views an element lies.
  ghost function Hits(views: seq<View>, ix: Index): nat {
    if |views| == 0 then 0
    else Hits(views[..|views| - 1], ix) + if Inside(ix, views[|views| - 1]) then 1 else 0
  }

  // The views are a partition of the whole.
  ghost predicate Partition(views: seq<View>, whole: View) {
    forall ix :: Hits(views, ix) == if Inside(ix, whole) then 1 else 0
  }

  ghost function Work(views: seq<View>): nat {
    if |views| == 0 then 0
    else Work(views[..|views| - 1]) + WorkOf(views[|views| - 1])
  }

  // How many views are ever popped for this one.
  ghost function WorkOf(v: View): nat {
    if Numel(v) == 0 then 1 else 2 * Numel(v) - 1
  }

  lemma {:induction false} NumelOfUpdate(v: View, axis: nat, a: Span, b: Span)
    requires axis < |v| && a.length + b.length == v[axis].length
    ensures Numel(v[axis := a]) + Numel(v[axis := b]) == Numel(v)
    ensures Numel(v) > 0 && a.length > 0 ==> Numel(v[axis := a]) > 0
  {
    if axis == 0 {
      assert v[axis := a][1..] == v[1..] && v[axis := b][1..] == v[1..];
      Distribute(a.length, b.length, Numel(v[1..]));
    } else {
      NumelOfUpdate(v[1..], axis - 1, a, b);
      assert v[axis := a][1..] == v[1..][axis - 1 := a];
      assert v[axis := b][1..] == v[1..][axis - 1 := b];
      Distribute(Numel(v[1..][axis - 1 := a]), Numel(v[1..][axis - 1 := b]), v[0].length);
    }
  }

  lemma Distribute(a: nat, b: nat, n: nat)
    ensures a * n + b * n == (a + b) * n
    ensures n * a + n * b == n * (a + b)
    ensures (a + b) * n > 0 && a > 0 ==> a * n > 0
    ensures n * (a + b) > 0 && a > 0 ==> n * a > 0
    ensures n * (a + b) > 0 ==> a + b > 0
  {
    Positive(a, n);
    Positive(a + b, n);
  }

  lemma Positive(a: nat, b: nat)
    ensures a * b > 0 <==> a > 0 && b > 0
  {}

  // A view of two or more elements has an axis that can be halved.
  lemma {:induction false} SomeAxisIsLong(v: View)
    requires Numel(v) > 1
    ensures exists d :: 0 <= d < |v| && v[d].length > 1
  {
    if v[0].length <= 1 {
      Positive(v[0].length, Numel(v[1..]));
      SomeAxisIsLong(v[1..]);
      var d :| 0 <= d < |v[1..]| && v[1..][d].length > 1;
      assert v[d + 1].length > 1;
    }
  }

  // Halving splits the elements between the halves and lowers the work left.
  lemma HalvesPartition(v: View, axis: nat, midpoint: nat)
    requires axis < |v| && midpoint <= v[axis].length
    ensures var left, right := Narrow(v, axis, 0, midpoint), Narrow(v, axis, midpoint, v[axis].length - midpoint);
            && (forall ix :: Inside(ix, left) ==> !Inside(ix, right))
            && (forall ix :: Inside(ix, v) <==> Inside(ix, left) || Inside(ix, right))
  {
    var left, right := Narrow(v, axis, 0, midpoint), Narrow(v, axis, midpoint, v[axis].length - midpoint);
    forall ix: Index | Inside(ix, left)
      ensures Inside(ix, v) && !Inside(ix, right)
    {
      assert left[axis].low <= ix[axis] < left[axis].low + left[axis].length;
      forall d | 0 <= d < |v|
        ensures v[d].low <= ix[d] < v[d].low + v[d].length
      {
        assert left[d].low <= ix[d] < left[d].low + left[d].length;
      }
      assert ix[axis] < right[axis].low;
    }
    forall ix: Index | Inside(ix, right)
      ensures Inside(ix, v)
    {
      forall d | 0 <= d < |v|
        ensures v[d].low <= ix[d] < v[d].low + v[d].length
      {
        assert right[d].low <= ix[d] < right[d].low + right[d].length;
      }
    }
  }

  lemma HalvesAreLessWork(v: View, axis: nat, midpoint: nat)
    requires axis < |v| && Numel(v) > 0 && 0 < midpoint < v[axis].length
    ensures WorkOf(Narrow(v, axis, 0, midpoint))
            + WorkOf(Narrow(v, axis, midpoint, v[axis].length - midpoint)) < WorkOf(v)
  {
    var a, b := Span(v[axis].low, midpoint), Span(v[axis].low + midpoint, v[axis].length - midpoint);
    NumelOfUpdate(v, axis, a, b);
    NumelOfUpdate(v, axis, b, a);
  }

  // The leaves so far and the views still pending are a partition.
  ghost predicate Tiles(leaves: seq<View>, pending: seq<View>, whole: View) {
    forall ix :: Hits(leaves, ix) + Hits(pending, ix) == if Inside(ix, whole) then 1 else 0
  }

  ghost predicate AllEvery(finite: Index -> bool, views: seq<View>) {
    forall i :: 0 <= i < |views| ==> EveryElement(finite, views[i])
  }

  predicate Small(views: seq<View>, chunkElements: int) {
    forall i :: 0 <= i < |views| ==> Numel(views[i]) <= chunkElements
  }

  lemma HitsOfTwo(views: seq<View>, a: View, b: View, ix: Index)
    ensures Hits(views + [a, b], ix)
            == Hits(views, ix) + (if Inside(ix, a) then 1 else 0) + if Inside(ix, b) then 1 else 0
  {
    assert (views + [a, b])[..|views| + 1] == views + [a];
    assert (views + [a])[..|views|] == views;
  }

  lemma WorkOfTwo(views: seq<View>, a: View, b: View)
    ensures Work(views + [a, b]) == Work(views) + WorkOf(a) + WorkOf(b)
  {
    assert (views + [a, b])[..|views| + 1] == views + [a];
    assert (views + [a])[..|views|] == views;
  }

  lemma {:induction false} HitIsInside(views: seq<View>, ix: Index)
    ensures Hits(views, ix) > 0 <==> exists i :: 0 <= i < |views| && Inside(ix, views[i])
  {
    if |views| > 0 {
      HitIsInside(views[..|views| - 1], ix);
    }
  }

  // Each element of the whole lies in one view: all are finite when each view is.
  lemma PartitionDecides(finite: Index -> bool, views: seq<View>, whole: View)
    requires Partition(views, whole)
    ensures EveryElement(finite, whole) <==> AllEvery(finite, views)
  {
    forall i, ix | 0 <= i < |views| && Inside(ix, views[i])
      ensures Inside(ix, whole)
    {
      HitIsInside(views, ix);
      assert Hits(views, ix) > 0;
    }
    forall ix | Inside(ix, whole)
      ensures exists i :: 0 <= i < |views| && Inside(ix, views[i])
    {
      HitIsInside(views, ix);
      assert Hits(views, ix) == 1;
    }
  }

  lemma SplitKeepsTiles(leaves: seq<View>, rest: seq<View>, part: View, a: View, b: View, whole: View)
    requires Tiles(leaves, rest + [part], whole)
    requires forall ix :: Inside(ix, a) ==> !Inside(ix, b)
    requires forall ix :: Inside(ix, part) <==> Inside(ix, a) || Inside(ix, b)
    ensures Tiles(leaves, rest + [b, a], whole)
  {
    forall ix: Index
      ensures Hits(leaves, ix) + Hits(rest + [b, a], ix) == if Inside(ix, whole) then 1 else 0
    {
      HitsOfTwo(rest, b, a, ix);
      assert (rest + [part])[..|rest|] == rest;
    }
  }

  lemma LeafKeepsTiles(leaves: seq<View>, rest: seq<View>, part: View, whole: View)
    requires Tiles(leaves, rest + [part], whole)
    ensures Tiles(leaves + [part], rest, whole)
  {
    forall ix: Index
      ensures Hits(leaves + [part], ix) + Hits(rest, ix) == if Inside(ix, whole) then 1 else 0
    {
      assert (rest + [part])[..|rest|] == rest;
      assert (leaves + [part])[..|leaves|] == leaves;
    }
  }

  lemma LeafIsAnswered(finite: Index -> bool, leaves: seq<View>, part: View, chunkElements: int)
    requires Small(leaves, chunkElements) && Numel(part) <= chunkElements
    ensures Small(leaves + [part], chunkElements)
    ensures AllEvery(finite, leaves + [part]) <==> AllEvery(finite, leaves) && EveryElement(finite, part)
  {
    var more := leaves + [part];
    assert forall i :: 0 <= i < |leaves| ==> more[i] == leaves[i];
    assert more[|leaves|] == part;
  }

  // Halving the longest axis: the two views to push, the second to be popped first.
  method Halve(part: View, ghost leaves: seq<View>, ghost rest: seq<View>, ghost whole: View)
      returns (high: View, low: View)
    requires Numel(part) > 1 && Tiles(leaves, rest + [part], whole)
    ensures Tiles(leaves, rest + [high, low], whole)
    ensures Work(rest + [high, low]) < Work(rest + [part])
  {
    SomeAxisIsLong(part);
    var axis := LongestAxis(part);
    var length := part[axis].length;
    var midpoint := length / 2;
    high, low := Narrow(part, axis, midpoint, length - midpoint), Narrow(part, axis, 0, midpoint);
    HalvesPartition(part, axis, midpoint);
    HalvesAreLessWork(part, axis, midpoint);
    SplitKeepsTiles(leaves, rest, part, low, high, whole);
    WorkOfTwo(rest, high, low);
    assert (rest + [part])[..|rest|] == rest;
  }

  // all_finite. `leafFinite` is torch.isfinite(part).all(); the leaves are the
  // views it is asked about.
  method AllFinite(t: Tensor, chunkElements: int, leafFinite: View -> bool, ghost finite: Index -> bool)
      returns (r: Result<bool, CheckError>, ghost leaves: seq<View>)
    requires forall v :: leafFinite(v) <==> EveryElement(finite, v)
    ensures r.Err? <==> chunkElements < 1
    ensures r.Ok? && !t.floating && !t.complexValued ==> r.value && leaves == []
    ensures r.Ok? && (t.floating || t.complexValued)
            ==> (r.value <==> forall ix :: InTensor(ix, t.shape) ==> finite(ix))
                && forall ix :: Hits(leaves, ix) == if InTensor(ix, t.shape) then 1 else 0
    ensures Small(leaves, chunkElements)
  {
    leaves := [];
    if chunkElements < 1 {
      return Err(ChunkNotPositive), [];
    }
    if !t.floating && !t.complexValued {
      return Ok(true), [];
    }
    var valid := true;
    var pending := [Whole(t.shape)];
    while |pending| > 0
      invariant Tiles(leaves, pending, Whole(t.shape))
      invariant Small(leaves, chunkElements)
      invariant valid <==> AllEvery(finite, leaves)
      decreases Work(pending)
    {
      var part := pending[|pending| - 1];
      var rest := pending[..|pending| - 1];
      assert pending == rest + [part];
      if Numel(part) <= chunkElements {
        valid := valid && leafFinite(part);
        LeafKeepsTiles(leaves, rest, part, Whole(t.shape));
        LeafIsAnswered(finite, leaves, part, chunkElements);
        leaves := leaves + [part];
        pending := rest;
      } else {
        var high, low := Halve(part, leaves, rest, Whole(t.shape));
        pending := rest + [high, low];
      }
    }
    PartitionDecides(finite, leaves, Whole(t.shape));
    forall ix: Index
      ensures Inside(ix, Whole(t.shape)) <==> InTensor(ix, t.shape)
    {
      WholeIsAll(t.shape, ix);
    }
    r := Ok(valid);
  }
}
