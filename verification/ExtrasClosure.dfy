// Which extras each installed package is asked for
// (baselines/scripts/nvidia_versions.py, installed_requirements): an iteration
// that updates one shared assignment in place, against the least closed one.
module ExtrasClosure {
  import opened Wrappers

  // What an installed distribution requires. Evaluating a marker for one extra
  // is left to the caller.
  datatype Requirement = Requirement(target: string, extras: set<string>, marker: Option<string>, specifier: string)

  datatype Package = Package(name: string, requirements: seq<Requirement>)

  type Marker = (string, string) -> bool

  type Extras = map<string, set<string>>

  predicate Applies(r: Requirement, extras: set<string>, evaluate: Marker) {
    r.marker.None? || exists e :: e in extras && evaluate(r.marker.value, e)
  }

  function Names(parsed: seq<Package>): set<string> {
    set p | p in parsed :: p.name
  }

  predicate Distinct(parsed: seq<Package>) {
    forall i, j :: 0 <= i < j < |parsed| ==> parsed[i].name != parsed[j].name
  }

  function Bottom(parsed: seq<Package>): Extras {
    map n | n in Names(parsed) :: {""}
  }

  function Universe(parsed: seq<Package>): set<string> {
    {""} + set p, r, x | p in parsed && r in p.requirements && x in r.extras :: x
  }

  // An assignment to exactly the installed packages, out of the extras named anywhere.
  ghost predicate Assigns(parsed: seq<Package>, a: Extras) {
    a.Keys == Names(parsed) && forall n :: n in a ==> "" in a[n] && a[n] <= Universe(parsed)
  }

  ghost predicate Satisfied(p: Package, r: Requirement, a: Extras, evaluate: Marker)
    requires p.name in a
  {
    r.target in a && Applies(r, a[p.name], evaluate) ==> r.extras <= a[r.target]
  }

  ghost predicate Closed(parsed: seq<Package>, a: Extras, evaluate: Marker)
    requires Assigns(parsed, a)
  {
    forall p, r :: p in parsed && r in p.requirements ==> p.name in a && Satisfied(p, r, a, evaluate)
  }

  ghost predicate Below(a: Extras, b: Extras) {
    a.Keys == b.Keys && forall n :: n in a ==> a[n] <= b[n]
  }

  // Asking for more extras never switches a requirement off.
  lemma AppliesIsMonotone(r: Requirement, small: set<string>, large: set<string>, evaluate: Marker)
    requires small <= large && Applies(r, small, evaluate)
    ensures Applies(r, large, evaluate)
  {}

  // The (package, extra) pairs still to be had.
  function Missing(parsed: seq<Package>, a: Extras): set<(string, string)> {
    set n, x | n in Names(parsed) && x in Universe(parsed) && !(n in a && x in a[n]) :: (n, x)
  }

  // ----- The simultaneous iteration -----

  function Demanded(parsed: seq<Package>, a: Extras, n: string, evaluate: Marker): set<string> {
    set p, r, x | p in parsed && r in p.requirements && x in r.extras && r.target == n
                  && p.name in a && Applies(r, a[p.name], evaluate) :: x
  }

  function Step(parsed: seq<Package>, a: Extras, evaluate: Marker): Extras {
    map n | n in a :: a[n] + Demanded(parsed, a, n, evaluate)
  }

  lemma MissingShrinks(parsed: seq<Package>, a: Extras, b: Extras)
    requires Assigns(parsed, a) && Assigns(parsed, b) && Below(a, b)
    ensures Missing(parsed, b) <= Missing(parsed, a)
    ensures a != b ==> Missing(parsed, b) < Missing(parsed, a)
  {
    if a != b {
      var n :| n in a && b[n] != a[n];
      var x :| x in b[n] && x !in a[n];
      assert (n, x) in Missing(parsed, a) && (n, x) !in Missing(parsed, b);
    }
  }

  lemma StepAssigns(parsed: seq<Package>, a: Extras, evaluate: Marker)
    requires Assigns(parsed, a)
    ensures Assigns(parsed, Step(parsed, a, evaluate))
    ensures Step(parsed, a, evaluate) != a ==> Missing(parsed, Step(parsed, a, evaluate)) < Missing(parsed, a)
  {
    var b := Step(parsed, a, evaluate);
    assert b.Keys == a.Keys;
    forall n | n in b
      ensures "" in b[n] && b[n] <= Universe(parsed) && a[n] <= b[n]
    {
      assert Demanded(parsed, a, n, evaluate) <= Universe(parsed);
    }
    MissingShrinks(parsed, a, b);
  }

  ghost function Limit(parsed: seq<Package>, a: Extras, evaluate: Marker): Extras
    requires Assigns(parsed, a)
    decreases Missing(parsed, a)
  {
    StepAssigns(parsed, a, evaluate);
    var b := Step(parsed, a, evaluate);
    if b == a then a else Limit(parsed, b, evaluate)
  }

  lemma BottomAssigns(parsed: seq<Package>)
    ensures Assigns(parsed, Bottom(parsed))
  {}

  // The simultaneous iteration from any assignment below a closed one ends in
  // a closed assignment that is still below it.
  lemma {:induction false} LimitIsLeast(parsed: seq<Package>, a: Extras, evaluate: Marker)
    requires Assigns(parsed, a)
    ensures var l := Limit(parsed, a, evaluate);
            && Assigns(parsed, l) && Closed(parsed, l, evaluate)
            && forall c :: Assigns(parsed, c) && Closed(parsed, c, evaluate) && Below(a, c) ==> Below(l, c)
    decreases Missing(parsed, a)
  {
    StepAssigns(parsed, a, evaluate);
    var b := Step(parsed, a, evaluate);
    if b == a {
      forall p, r | p in parsed && r in p.requirements
        ensures p.name in a && Satisfied(p, r, a, evaluate)
      {
        assert p.name in Names(parsed);
        if r.target in a && Applies(r, a[p.name], evaluate) {
          assert b[r.target] == a[r.target];
          assert forall x :: x in r.extras ==> x in Demanded(parsed, a, r.target, evaluate);
        }
      }
    } else {
      LimitIsLeast(parsed, b, evaluate);
      forall c | Assigns(parsed, c) && Closed(parsed, c, evaluate) && Below(a, c)
        ensures Below(b, c)
      {
        StepStaysBelow(parsed, a, c, evaluate);
      }
    }
  }

  lemma StepStaysBelow(parsed: seq<Package>, a: Extras, c: Extras, evaluate: Marker)
    requires Assigns(parsed, a) && Assigns(parsed, c) && Closed(parsed, c, evaluate) && Below(a, c)
    ensures Below(Step(parsed, a, evaluate), c)
  {
    forall n, x | n in a && x in Demanded(parsed, a, n, evaluate)
      ensures x in c[n]
    {
      var p, r :| p in parsed && r in p.requirements && x in r.extras && r.target == n
                  && p.name in a && Applies(r, a[p.name], evaluate);
      AppliesIsMonotone(r, a[p.name], c[p.name], evaluate);
      assert Satisfied(p, r, c, evaluate);
    }
  }

  // ----- The in-place iteration -----

  // Everything the sweeps may assume: the assignment grows from the bottom and
  // stays below every closed one.
  ghost predicate Growing(parsed: seq<Package>, a: Extras, evaluate: Marker) {
    && Assigns(parsed, a)
    && forall c :: Assigns(parsed, c) && Closed(parsed, c, evaluate) ==> Below(a, c)
  }

  lemma GrowsByRequirement(parsed: seq<Package>, a: Extras, p: Package, r: Requirement, evaluate: Marker)
    requires Growing(parsed, a, evaluate) && p in parsed && r in p.requirements
    requires r.target in a && p.name in a && Applies(r, a[p.name], evaluate)
    ensures Growing(parsed, a[r.target := a[r.target] + r.extras], evaluate)
    ensures !(r.extras <= a[r.target]) ==>
              Missing(parsed, a[r.target := a[r.target] + r.extras]) < Missing(parsed, a)
  {
    var b := a[r.target := a[r.target] + r.extras];
    forall c | Assigns(parsed, c) && Closed(parsed, c, evaluate)
      ensures Below(b, c)
    {
      AppliesIsMonotone(r, a[p.name], c[p.name], evaluate);
      assert Satisfied(p, r, c, evaluate);
    }
    assert b.Keys == a.Keys && r.extras <= Universe(parsed);
    MissingShrinks(parsed, a, b);
    if !(r.extras <= a[r.target]) {
      assert b[r.target] != a[r.target];
    }
  }

  // One pass over the requirements of one package.
  method SweepPackage(parsed: seq<Package>, p: Package, a: Extras, evaluate: Marker) returns (b: Extras, changed: bool)
    requires p in parsed && Growing(parsed, a, evaluate)
    ensures Growing(parsed, b, evaluate)
    ensures changed ==> Missing(parsed, b) < Missing(parsed, a)
    ensures !changed ==> b == a && p.name in a && forall r :: r in p.requirements ==> Satisfied(p, r, a, evaluate)
  {
    b, changed := a, false;
    assert p.name in Names(parsed);
    for i := 0 to |p.requirements|
      invariant Growing(parsed, b, evaluate)
      invariant changed ==> Missing(parsed, b) < Missing(parsed, a)
      invariant !changed ==> b == a && forall j :: 0 <= j < i ==> Satisfied(p, p.requirements[j], a, evaluate)
    {
      var r := p.requirements[i];
      if r.target in b && Applies(r, b[p.name], evaluate) && !(r.extras <= b[r.target]) {
        GrowsByRequirement(parsed, b, p, r, evaluate);
        b := b[r.target := b[r.target] + r.extras];
        changed := true;
      }
    }
  }

  // The whole loop. Whatever order the packages and their requirements come
  // in, it ends in the least closed assignment, which is also the limit of the
  // simultaneous iteration; the held requirements are those it switches on.
  method InstalledExtras(parsed: seq<Package>, evaluate: Marker)
      returns (extras: Extras, held: map<string, seq<Requirement>>)
    requires Distinct(parsed)
    ensures Assigns(parsed, extras) && Closed(parsed, extras, evaluate)
    ensures forall c :: Assigns(parsed, c) && Closed(parsed, c, evaluate) ==> Below(extras, c)
    ensures BottomOf(parsed, evaluate) == extras
    ensures held.Keys == Names(parsed)
    ensures forall p :: p in parsed ==>
                          p.name in extras && Picked(p.requirements, held[p.name], extras[p.name], evaluate)
    ensures forall p, r :: p in parsed ==>
                             (r in held[p.name] <==>
                              && r in p.requirements
                              && (r.marker.None? || exists e :: e in extras[p.name] && evaluate(r.marker.value, e)))
  {
    BottomAssigns(parsed);
    extras := Bottom(parsed);
    var changed := true;
    while changed
      invariant Growing(parsed, extras, evaluate)
      invariant !changed ==> Closed(parsed, extras, evaluate)
      decreases Missing(parsed, extras), changed
    {
      changed := false;
      ghost var before := extras;
      for i := 0 to |parsed|
        invariant Growing(parsed, extras, evaluate)
        invariant changed ==> Missing(parsed, extras) < Missing(parsed, before)
        invariant !changed ==> extras == before
        invariant !changed ==> forall j, r :: 0 <= j < i && r in parsed[j].requirements ==>
                                                parsed[j].name in before && Satisfied(parsed[j], r, before, evaluate)
      {
        var grown, more := SweepPackage(parsed, parsed[i], extras, evaluate);
        extras := grown;
        changed := changed || more;
      }
    }
    held := Held(parsed, extras, evaluate);
    forall p, r | p in parsed
      ensures r in held[p.name] <==>
                && r in p.requirements
                && (r.marker.None? || exists e :: e in extras[p.name] && evaluate(r.marker.value, e))
    {
      PickedMembers(p.requirements, held[p.name], extras[p.name], evaluate, r);
    }
    LeastIsLimit(parsed, extras, evaluate);
  }

  // What a package is held to: the requirements without a marker or with one
  // that some extra asked of it turns on, as often and in the order listed.
  // `at` are their positions.
  ghost predicate PickedAt(all: seq<Requirement>, picked: seq<Requirement>, at: seq<int>, extras: set<string>,
                           evaluate: Marker) {
    && |at| == |picked|
    && (forall j, k :: 0 <= j < k < |at| ==> at[j] < at[k])
    && (forall k :: 0 <= k < |at| ==> 0 <= at[k] < |all| && picked[k] == all[at[k]])
    && forall i :: 0 <= i < |all| ==>
         (i in at <==> all[i].marker.None? || exists e :: e in extras && evaluate(all[i].marker.value, e))
  }

  ghost predicate Picked(all: seq<Requirement>, picked: seq<Requirement>, extras: set<string>, evaluate: Marker) {
    exists at :: PickedAt(all, picked, at, extras, evaluate)
  }

  lemma PickedMembers(all: seq<Requirement>, picked: seq<Requirement>, extras: set<string>, evaluate: Marker,
                      r: Requirement)
    requires Picked(all, picked, extras, evaluate)
    ensures r in picked <==>
              r in all && (r.marker.None? || exists e :: e in extras && evaluate(r.marker.value, e))
  {
    var at :| PickedAt(all, picked, at, extras, evaluate);
    if r in picked {
      var k :| 0 <= k < |picked| && picked[k] == r;
      assert at[k] in at;
    }
    if r in all && (r.marker.None? || exists e :: e in extras && evaluate(r.marker.value, e)) {
      var i :| 0 <= i < |all| && all[i] == r;
      assert i in at;
      var k :| 0 <= k < |at| && at[k] == i;
      assert picked[k] == r;
    }
  }

  // The comprehension over one package's requirements.
  method Pick(all: seq<Requirement>, extras: set<string>, evaluate: Marker) returns (picked: seq<Requirement>)
    ensures Picked(all, picked, extras, evaluate)
  {
    picked := [];
    ghost var at: seq<int> := [];
    for i := 0 to |all|
      invariant PickedAt(all[..i], picked, at, extras, evaluate)
    {
      PickNext(all, i, picked, at, extras, evaluate);
      if Applies(all[i], extras, evaluate) {
        picked, at := picked + [all[i]], at + [i];
      }
    }
    assert all[..|all|] == all;
  }

  lemma PickNext(all: seq<Requirement>, i: int, picked: seq<Requirement>, at: seq<int>, extras: set<string>,
                 evaluate: Marker)
    requires 0 <= i < |all| && PickedAt(all[..i], picked, at, extras, evaluate)
    ensures if Applies(all[i], extras, evaluate)
            then PickedAt(all[..i + 1], picked + [all[i]], at + [i], extras, evaluate)
            else PickedAt(all[..i + 1], picked, at, extras, evaluate)
  {
    assert forall j :: 0 <= j < i ==> all[..i][j] == all[..i + 1][j];
    assert forall j :: j in at ==> 0 <= j < i;
  }

  // The requirements each package is held to under the extras found.
  method Held(parsed: seq<Package>, extras: Extras, evaluate: Marker) returns (held: map<string, seq<Requirement>>)
    requires Distinct(parsed) && Assigns(parsed, extras)
    ensures held.Keys == Names(parsed)
    ensures forall p :: p in parsed ==>
                          p.name in extras && Picked(p.requirements, held[p.name], extras[p.name], evaluate)
  {
    held := map[];
    for i := 0 to |parsed|
      invariant held.Keys == set j | 0 <= j < i :: parsed[j].name
      invariant forall j :: 0 <= j < i ==>
                              && parsed[j].name in extras
                              && Picked(parsed[j].requirements, held[parsed[j].name], extras[parsed[j].name], evaluate)
    {
      assert parsed[i].name in Names(parsed);
      var picked := Pick(parsed[i].requirements, extras[parsed[i].name], evaluate);
      held := held[parsed[i].name := picked];
    }
  }

  ghost function BottomOf(parsed: seq<Package>, evaluate: Marker): Extras {
    BottomAssigns(parsed);
    Limit(parsed, Bottom(parsed), evaluate)
  }

  // The least closed assignment is unique.
  lemma LeastIsLimit(parsed: seq<Package>, a: Extras, evaluate: Marker)
    requires Growing(parsed, a, evaluate) && Closed(parsed, a, evaluate)
    ensures BottomOf(parsed, evaluate) == a
  {
    LimitCloses(parsed, evaluate);
    LimitBelow(parsed, a, evaluate);
    Antisymmetric(BottomOf(parsed, evaluate), a);
  }

  lemma BottomIsBelow(parsed: seq<Package>, a: Extras)
    requires Assigns(parsed, a)
    ensures Below(Bottom(parsed), a)
  {}

  lemma Antisymmetric(a: Extras, b: Extras)
    requires Below(a, b) && Below(b, a)
    ensures a == b
  {
    assert forall n :: n in a ==> a[n] == b[n];
  }

  // The order in which the distributions are listed does not matter.
  lemma OrderDoesNotMatter(parsed: seq<Package>, listed: seq<Package>, evaluate: Marker)
    requires forall p :: p in parsed <==> p in listed
    ensures BottomOf(parsed, evaluate) == BottomOf(listed, evaluate)
  {
    ListingIsBelow(parsed, listed, evaluate);
    ListingIsBelow(listed, parsed, evaluate);
    Antisymmetric(BottomOf(parsed, evaluate), BottomOf(listed, evaluate));
  }

  lemma ListingIsBelow(parsed: seq<Package>, listed: seq<Package>, evaluate: Marker)
    requires forall p :: p in parsed <==> p in listed
    ensures Below(BottomOf(parsed, evaluate), BottomOf(listed, evaluate))
  {
    LimitCloses(listed, evaluate);
    ClosedTransfers(parsed, listed, BottomOf(listed, evaluate), evaluate);
    LimitBelow(parsed, BottomOf(listed, evaluate), evaluate);
  }

  lemma LimitCloses(parsed: seq<Package>, evaluate: Marker)
    ensures Assigns(parsed, BottomOf(parsed, evaluate)) && Closed(parsed, BottomOf(parsed, evaluate), evaluate)
  {
    BottomAssigns(parsed);
    LimitIsLeast(parsed, Bottom(parsed), evaluate);
  }

  lemma LimitBelow(parsed: seq<Package>, c: Extras, evaluate: Marker)
    requires Assigns(parsed, c) && Closed(parsed, c, evaluate)
    ensures Below(BottomOf(parsed, evaluate), c)
  {
    BottomAssigns(parsed);
    BottomIsBelow(parsed, c);
    LimitIsLeast(parsed, Bottom(parsed), evaluate);
  }

  lemma ClosedTransfers(parsed: seq<Package>, listed: seq<Package>, a: Extras, evaluate: Marker)
    requires forall p :: p in parsed <==> p in listed
    requires Assigns(listed, a) && Closed(listed, a, evaluate)
    ensures Assigns(parsed, a) && Closed(parsed, a, evaluate)
  {
    assert Names(parsed) == Names(listed);
    assert Universe(parsed) == Universe(listed);
  }
}
