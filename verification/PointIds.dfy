// Point identities and the expansion of configured grids
// (benchmarking/planning_eval/matrix.py).
module PointIds {
  import opened Wrappers
  import opened Decimals

  datatype Scale = Scale(numerator: int, denominator: int)

  predicate ValidScale(s: Scale) {
    Reduced(s.numerator, s.denominator)
  }

  datatype Grid = Grid(name: string, executions: seq<nat>, spills: seq<nat>, scales: seq<Scale>)

  datatype Axes = Axes(grid: string, execution: nat, spill: nat, scale: Scale)

  type Identity = (nat, nat, Scale)

  function IdentityOf(a: Axes): Identity {
    (a.execution, a.spill, a.scale)
  }

  // ----- Labels -----

  const GIB: nat := 0x4000_0000

  // Whole GiB keep the older spelling; everything else is in bytes.
  function BudgetLabel(value: nat): string {
    Digits(BudgetCount(value)) + BudgetUnit(value)
  }

  function BudgetCount(value: nat): nat {
    if value % GIB == 0 then value / GIB else value
  }

  function BudgetUnit(value: nat): string {
    if value % GIB == 0 then "GiB" else "B"
  }

  function ScaleLabel(s: Scale): string
    requires ValidScale(s)
  {
    Digits(s.numerator) + ("over" + (Digits(s.denominator) + "x"))
  }

  function Label(a: Axes): string
    requires ValidScale(a.scale)
  {
    "execution-" + (BudgetLabel(a.execution) + ("_spill-" +
    (BudgetLabel(a.spill) + ("_transfer-" + ScaleLabel(a.scale)))))
  }

  lemma SamePrefix(prefix: string, a: string, b: string)
    requires prefix + a == prefix + b
    ensures a == b
  {
    assert a == (prefix + a)[|prefix|..] == (prefix + b)[|prefix|..] == b;
  }

  // A budget's spelling ends where it says, and says which budget it is.
  lemma BudgetThen(v: nat, a: string, w: nat, b: string)
    requires |a| > 0 && |b| > 0
    requires BudgetLabel(v) + a == BudgetLabel(w) + b
    ensures v == w && a == b
  {
    var unitV, unitW := BudgetUnit(v), BudgetUnit(w);
    assert BudgetLabel(v) + a == Digits(BudgetCount(v)) + (unitV + a);
    assert BudgetLabel(w) + b == Digits(BudgetCount(w)) + (unitW + b);
    NumeralThen(BudgetCount(v), unitV + a, BudgetCount(w), unitW + b);
    assert (unitV + a)[0] == unitV[0] && (unitW + b)[0] == unitW[0];
    assert unitV == unitW;
    SamePrefix(unitV, a, b);
    BudgetIsItsCount(v, w);
  }

  lemma BudgetIsItsCount(v: nat, w: nat)
    requires BudgetCount(v) == BudgetCount(w) && BudgetUnit(v) == BudgetUnit(w)
    ensures v == w
  {
    assert "GiB" != "B" by {
      assert |"GiB"| != |"B"|;
    }
  }

  // A budget is spelled as a size text of that very budget.
  lemma BudgetLabelParses(value: nat)
    requires value > 0
    ensures ParseSize(BudgetLabel(value)) == Some(value)
  {
    var count, unit := BudgetCount(value), BudgetUnit(value);
    assert count > 0;
    ValueOfDigits(count);
    PrefixOfDigits(Digits(count), unit);
    var s := BudgetLabel(value);
    assert s[..|Digits(count)|] == Digits(count) && s[|Digits(count)|..] == unit;
  }

  lemma ScaleLabelIsInjective(s: Scale, t: Scale)
    requires ValidScale(s) && ValidScale(t) && ScaleLabel(s) == ScaleLabel(t)
    ensures s == t
  {
    NumeralThen(s.numerator, "over" + (Digits(s.denominator) + "x"),
                t.numerator, "over" + (Digits(t.denominator) + "x"));
    SamePrefix("over", Digits(s.denominator) + "x", Digits(t.denominator) + "x");
    NumeralThen(s.denominator, "x", t.denominator, "x");
  }

  // The label tells apart any two points of different budgets or scale.
  lemma LabelIsInjective(a: Axes, b: Axes)
    requires ValidScale(a.scale) && ValidScale(b.scale) && Label(a) == Label(b)
    ensures IdentityOf(a) == IdentityOf(b)
  {
    var tailA, tailB := "_transfer-" + ScaleLabel(a.scale), "_transfer-" + ScaleLabel(b.scale);
    var restA, restB := "_spill-" + (BudgetLabel(a.spill) + tailA), "_spill-" + (BudgetLabel(b.spill) + tailB);
    SamePrefix("execution-", BudgetLabel(a.execution) + restA, BudgetLabel(b.execution) + restB);
    BudgetThen(a.execution, restA, b.execution, restB);
    SamePrefix("_spill-", BudgetLabel(a.spill) + tailA, BudgetLabel(b.spill) + tailB);
    BudgetThen(a.spill, tailA, b.spill, tailB);
    SamePrefix("_transfer-", ScaleLabel(a.scale), ScaleLabel(b.scale));
    ScaleLabelIsInjective(a.scale, b.scale);
  }

  // ----- Expansion -----

  function Row(name: string, execution: nat, spill: nat, scales: seq<Scale>): seq<Axes> {
    if |scales| == 0 then []
    else Row(name, execution, spill, scales[..|scales| - 1]) + [Axes(name, execution, spill, scales[|scales| - 1])]
  }

  function Plane(g: Grid, execution: nat, spills: seq<nat>): seq<Axes> {
    if |spills| == 0 then []
    else Plane(g, execution, spills[..|spills| - 1]) + Row(g.name, execution, spills[|spills| - 1], g.scales)
  }

  function Space(g: Grid, executions: seq<nat>): seq<Axes> {
    if |executions| == 0 then []
    else Space(g, executions[..|executions| - 1]) + Plane(g, executions[|executions| - 1], g.spills)
  }

  function Product(grids: seq<Grid>): seq<Axes> {
    if |grids| == 0 then []
    else Product(grids[..|grids| - 1]) + Space(grids[|grids| - 1], grids[|grids| - 1].executions)
  }

  // The expansion of one grid by position: execution budgets outermost, scales
  // innermost, each point with its own three values.
  lemma {:induction false} RowAt(name: string, execution: nat, spill: nat, scales: seq<Scale>, l: nat)
    ensures |Row(name, execution, spill, scales)| == |scales|
    ensures l < |scales| ==> Row(name, execution, spill, scales)[l] == Axes(name, execution, spill, scales[l])
  {
    if |scales| > 0 {
      RowAt(name, execution, spill, scales[..|scales| - 1], l);
    }
  }

  function At(k: nat, width: nat, l: nat): nat {
    k * width + l
  }

  lemma {:induction false} PlaneAt(g: Grid, execution: nat, spills: seq<nat>, k: nat, l: nat)
    ensures |Plane(g, execution, spills)| == At(|spills|, |g.scales|, 0)
    ensures k < |spills| && l < |g.scales| ==>
              && At(k, |g.scales|, l) < |Plane(g, execution, spills)|
              && Plane(g, execution, spills)[At(k, |g.scales|, l)]
                 == Axes(g.name, execution, spills[k], g.scales[l])
  {
    if |spills| > 0 {
      PlaneAt(g, execution, spills[..|spills| - 1], k, l);
      RowAt(g.name, execution, spills[|spills| - 1], g.scales, l);
    }
  }

  lemma {:induction false} SpaceAt(g: Grid, executions: seq<nat>, j: nat, k: nat, l: nat)
    ensures |Space(g, executions)| == At(|executions|, At(|g.spills|, |g.scales|, 0), 0)
    ensures j < |executions| && k < |g.spills| && l < |g.scales| ==>
              && At(j, At(|g.spills|, |g.scales|, 0), At(k, |g.scales|, l)) < |Space(g, executions)|
              && Space(g, executions)[At(j, At(|g.spills|, |g.scales|, 0), At(k, |g.scales|, l))]
                 == Axes(g.name, executions[j], g.spills[k], g.scales[l])
  {
    if |executions| > 0 {
      SpaceAt(g, executions[..|executions| - 1], j, k, l);
      PlaneAt(g, executions[|executions| - 1], g.spills, k, l);
    }
  }

  ghost predicate Of(a: Axes, g: Grid) {
    a.grid == g.name && a.execution in g.executions && a.spill in g.spills && a.scale in g.scales
  }

  lemma {:induction false} RowMembers(name: string, execution: nat, spill: nat, scales: seq<Scale>, a: Axes)
    ensures a in Row(name, execution, spill, scales) <==>
              a.grid == name && a.execution == execution && a.spill == spill && a.scale in scales
  {
    if |scales| > 0 {
      RowMembers(name, execution, spill, scales[..|scales| - 1], a);
      assert scales == scales[..|scales| - 1] + [scales[|scales| - 1]];
    }
  }

  lemma {:induction false} PlaneMembers(g: Grid, execution: nat, spills: seq<nat>, a: Axes)
    ensures a in Plane(g, execution, spills) <==>
              a.grid == g.name && a.execution == execution && a.spill in spills && a.scale in g.scales
  {
    if |spills| > 0 {
      PlaneMembers(g, execution, spills[..|spills| - 1], a);
      RowMembers(g.name, execution, spills[|spills| - 1], g.scales, a);
      assert spills == spills[..|spills| - 1] + [spills[|spills| - 1]];
    }
  }

  lemma {:induction false} SpaceMembers(g: Grid, executions: seq<nat>, a: Axes)
    ensures a in Space(g, executions) <==>
              a.grid == g.name && a.execution in executions && a.spill in g.spills && a.scale in g.scales
  {
    if |executions| > 0 {
      SpaceMembers(g, executions[..|executions| - 1], a);
      PlaneMembers(g, executions[|executions| - 1], g.spills, a);
      assert executions == executions[..|executions| - 1] + [executions[|executions| - 1]];
    }
  }

  // The points are every combination of every grid and no other.
  lemma {:induction false} ProductMembers(grids: seq<Grid>, a: Axes)
    ensures a in Product(grids) <==> exists g :: g in grids && Of(a, g)
  {
    if |grids| > 0 {
      var front, last := grids[..|grids| - 1], grids[|grids| - 1];
      ProductMembers(front, a);
      SpaceMembers(last, last.executions, a);
      assert grids == front + [last];
      assert a in Space(last, last.executions) <==> Of(a, last);
      assert forall g :: g in grids <==> g in front || g == last;
    }
  }

  predicate Unrepeated(axes: seq<Axes>) {
    forall i, j :: 0 <= i < j < |axes| ==> IdentityOf(axes[i]) != IdentityOf(axes[j])
  }

  function Identities(axes: seq<Axes>): set<Identity> {
    set a | a in axes :: IdentityOf(a)
  }

  lemma {:induction false} RowPrefix(name: string, execution: nat, spill: nat, scales: seq<Scale>, k: nat)
    requires k <= |scales|
    ensures Row(name, execution, spill, scales[..k]) <= Row(name, execution, spill, scales)
  {
    if k < |scales| {
      RowPrefix(name, execution, spill, scales[..|scales| - 1], k);
      assert scales[..|scales| - 1][..k] == scales[..k];
    } else {
      assert scales[..k] == scales;
    }
  }

  lemma {:induction false} PlanePrefix(g: Grid, execution: nat, spills: seq<nat>, k: nat)
    requires k <= |spills|
    ensures Plane(g, execution, spills[..k]) <= Plane(g, execution, spills)
  {
    if k < |spills| {
      PlanePrefix(g, execution, spills[..|spills| - 1], k);
      assert spills[..|spills| - 1][..k] == spills[..k];
    } else {
      assert spills[..k] == spills;
    }
  }

  lemma {:induction false} SpacePrefix(g: Grid, executions: seq<nat>, k: nat)
    requires k <= |executions|
    ensures Space(g, executions[..k]) <= Space(g, executions)
  {
    if k < |executions| {
      SpacePrefix(g, executions[..|executions| - 1], k);
      assert executions[..|executions| - 1][..k] == executions[..k];
    } else {
      assert executions[..k] == executions;
    }
  }

  lemma {:induction false} ProductPrefix(grids: seq<Grid>, k: nat)
    requires k <= |grids|
    ensures Product(grids[..k]) <= Product(grids)
  {
    if k < |grids| {
      ProductPrefix(grids[..|grids| - 1], k);
      assert grids[..|grids| - 1][..k] == grids[..k];
    } else {
      assert grids[..k] == grids;
    }
  }

  // A repeat within a prefix is a repeat.
  lemma RepeatStays(prefix: seq<Axes>, all: seq<Axes>)
    requires prefix <= all && !Unrepeated(prefix)
    ensures !Unrepeated(all)
  {
    var i, j :| 0 <= i < j < |prefix| && IdentityOf(prefix[i]) == IdentityOf(prefix[j]);
    assert all[i] == prefix[i] && all[j] == prefix[j];
  }

  lemma IdentitiesAppend(axes: seq<Axes>, a: Axes)
    ensures Identities(axes + [a]) == Identities(axes) + {IdentityOf(a)}
    ensures Unrepeated(axes) && IdentityOf(a) !in Identities(axes) ==> Unrepeated(axes + [a])
  {
    var all := axes + [a];
    forall i | i in Identities(axes) + {IdentityOf(a)}
      ensures i in Identities(all)
    {
      if i == IdentityOf(a) {
        assert all[|axes|] == a;
      } else {
        var b :| b in axes && IdentityOf(b) == i;
        assert b in all;
      }
    }
    forall k | 0 <= k < |axes|
      ensures IdentityOf(axes[k]) in Identities(axes)
    {
      assert axes[k] in axes;
    }
  }

  // Appends one row, refusing the first identity already seen.
  method ExpandRow(g: Grid, execution: nat, spill: nat, so: seq<Axes>, seen: set<Identity>)
    returns (result: seq<Axes>, identities: set<Identity>, ok: bool)
    requires Unrepeated(so) && seen == Identities(so)
    ensures ok <==> Unrepeated(so + Row(g.name, execution, spill, g.scales))
    ensures ok ==> result == so + Row(g.name, execution, spill, g.scales) && identities == Identities(result)
  {
    result, identities := so, seen;
    for l := 0 to |g.scales|
      invariant result == so + Row(g.name, execution, spill, g.scales[..l])
      invariant Unrepeated(result) && identities == Identities(result)
    {
      var axes := Axes(g.name, execution, spill, g.scales[l]);
      assert g.scales[..l + 1][..l] == g.scales[..l];
      assert result + [axes] == so + Row(g.name, execution, spill, g.scales[..l + 1]);
      if (execution, spill, g.scales[l]) in identities {
        RowPrefix(g.name, execution, spill, g.scales, l + 1);
        var a :| a in result && IdentityOf(a) == IdentityOf(axes);
        var i :| 0 <= i < |result| && result[i] == a;
        assert !Unrepeated(result + [axes]) by {
          assert (result + [axes])[i] == a && (result + [axes])[|result|] == axes;
        }
        RepeatStays(result + [axes], so + Row(g.name, execution, spill, g.scales));
        ok := false;
        return;
      }
      IdentitiesAppend(result, axes);
      identities := identities + {(execution, spill, g.scales[l])};
      result := result + [axes];
    }
    assert g.scales[..|g.scales|] == g.scales;
    ok := true;
  }

  // The nested loops of the expansion: one execution budget, then one grid.
  method ExpandPlane(g: Grid, execution: nat, so: seq<Axes>, seen: set<Identity>)
    returns (result: seq<Axes>, identities: set<Identity>, ok: bool)
    requires Unrepeated(so) && seen == Identities(so)
    ensures ok <==> Unrepeated(so + Plane(g, execution, g.spills))
    ensures ok ==> result == so + Plane(g, execution, g.spills) && identities == Identities(result)
  {
    result, identities, ok := so, seen, true;
    for k := 0 to |g.spills|
      invariant ok && result == so + Plane(g, execution, g.spills[..k])
      invariant Unrepeated(result) && identities == Identities(result)
    {
      assert g.spills[..k + 1][..k] == g.spills[..k];
      ghost var next := result + Row(g.name, execution, g.spills[k], g.scales);
      assert next == so + Plane(g, execution, g.spills[..k + 1]);
      result, identities, ok := ExpandRow(g, execution, g.spills[k], result, identities);
      if !ok {
        PlanePrefix(g, execution, g.spills, k + 1);
        RepeatStays(next, so + Plane(g, execution, g.spills));
        return;
      }
    }
    assert g.spills[..|g.spills|] == g.spills;
  }

  method ExpandGrid(g: Grid, so: seq<Axes>, seen: set<Identity>)
    returns (result: seq<Axes>, identities: set<Identity>, ok: bool)
    requires Unrepeated(so) && seen == Identities(so)
    ensures ok <==> Unrepeated(so + Space(g, g.executions))
    ensures ok ==> result == so + Space(g, g.executions) && identities == Identities(result)
  {
    result, identities, ok := so, seen, true;
    for j := 0 to |g.executions|
      invariant ok && result == so + Space(g, g.executions[..j])
      invariant Unrepeated(result) && identities == Identities(result)
    {
      assert g.executions[..j + 1][..j] == g.executions[..j];
      ghost var next := result + Plane(g, g.executions[j], g.spills);
      assert next == so + Space(g, g.executions[..j + 1]);
      result, identities, ok := ExpandPlane(g, g.executions[j], result, identities);
      if !ok {
        SpacePrefix(g, g.executions, j + 1);
        RepeatStays(next, so + Space(g, g.executions));
        return;
      }
    }
    assert g.executions[..|g.executions|] == g.executions;
  }

  // Every combination of every grid in order, unless one repeats.
  method ExpandGridAxes(grids: seq<Grid>) returns (result: Result<seq<Axes>, string>)
    ensures result.Ok? <==> Unrepeated(Product(grids))
    ensures result.Ok? ==> result.value == Product(grids)
    ensures result.Ok? ==> forall a :: a in result.value <==> exists g :: g in grids && Of(a, g)
  {
    var axes: seq<Axes>, identities: set<Identity> := [], {};
    for i := 0 to |grids|
      invariant axes == Product(grids[..i]) && Unrepeated(axes) && identities == Identities(axes)
    {
      assert grids[..i + 1][..i] == grids[..i];
      var ok;
      ghost var before := axes;
      axes, identities, ok := ExpandGrid(grids[i], axes, identities);
      if !ok {
        ProductPrefix(grids, i + 1);
        RepeatStays(before + Space(grids[i], grids[i].executions), Product(grids));
        return Err("frontier grids contain a duplicate point");
      }
    }
    assert grids[..|grids|] == grids;
    forall a: Axes
      ensures a in axes <==> exists g :: g in grids && Of(a, g)
    {
      ProductMembers(grids, a);
    }
    return Ok(axes);
  }

  ghost predicate ValidScales(axes: seq<Axes>) {
    forall i :: 0 <= i < |axes| ==> ValidScale(axes[i].scale)
  }

  // The points of an accepted expansion have pairwise distinct ids, hence
  // directories, and no two of them are one input written with two fractions.
  lemma PointIdsAreDistinct(axes: seq<Axes>, i: nat, j: nat)
    requires Unrepeated(axes) && ValidScales(axes) && i < j < |axes|
    ensures Label(axes[i]) != Label(axes[j])
    ensures var a, b := axes[i], axes[j];
            !(a.execution == b.execution && a.spill == b.spill
              && a.scale.numerator * b.scale.denominator == b.scale.numerator * a.scale.denominator)
  {
    var a, b := axes[i], axes[j];
    if Label(a) == Label(b) {
      LabelIsInjective(a, b);
    }
    if a.scale.numerator * b.scale.denominator == b.scale.numerator * a.scale.denominator {
      ReducedFormIsUnique(a.scale.numerator, a.scale.denominator, b.scale.numerator, b.scale.denominator);
    }
  }
}
