// Which proposed versions give way to requirements that stay installed
// (baselines/scripts/nvidia_versions.py, preferences).
module Preferences {
  import opened ExtrasClosure

  // What the loop reads: installed versions in listing order, the requirements
  // each package holds, the proposed versions, the names kept by request, and
  // the two judgements on version strings.
  datatype Inputs = Inputs(
    order: seq<string>,
    installed: map<string, string>,
    requirements: map<string, seq<Requirement>>,
    proposed: map<string, string>,
    keep: set<string>,
    allows: (string, string) -> bool,
    sameVersion: (string, string) -> bool)

  ghost predicate WellFormed(i: Inputs) {
    && (forall n :: n in i.order <==> n in i.installed)
    && i.requirements.Keys == i.installed.Keys
  }

  // Why a proposal gives way: a package that stays and the specifier it holds.
  type Reasons = map<string, set<(string, string)>>

  predicate Stays(i: Inputs, name: string, held: set<string>) {
    && name in i.installed
    && (name in i.keep || name in held || name !in i.proposed || i.sameVersion(i.proposed[name], i.installed[name]))
  }

  predicate Rejects(i: Inputs, r: Requirement) {
    r.target in i.proposed && !i.allows(r.specifier, i.proposed[r.target])
  }

  // `owner` stays and one of its requirements, under `specifier`, rejects the
  // version proposed for `target`.
  ghost predicate Binds(i: Inputs, held: set<string>, owner: string, target: string, specifier: string)
    requires WellFormed(i)
  {
    && Stays(i, owner, held)
    && exists r :: r in i.requirements[owner] && r.target == target && r.specifier == specifier && Rejects(i, r)
  }

  // No requirement of a package that stays is broken by a version not held back.
  ghost predicate Settled(i: Inputs, held: set<string>)
    requires WellFormed(i)
  {
    forall owner, r :: Stays(i, owner, held) && r in i.requirements[owner] && Rejects(i, r) ==> r.target in held
  }

  ghost predicate Justified(i: Inputs, held: set<string>, reasons: Reasons)
    requires WellFormed(i)
  {
    forall t :: t in reasons ==>
      && t in i.proposed && reasons[t] != {}
      && forall o, s :: (o, s) in reasons[t] ==> Binds(i, held, o, t, s)
  }

  // Holding more back only makes more packages stay.
  lemma StaysIsMonotone(i: Inputs, name: string, small: set<string>, large: set<string>)
    requires small <= large && Stays(i, name, small)
    ensures Stays(i, name, large)
  {}

  lemma JustifiedIsMonotone(i: Inputs, small: set<string>, large: set<string>, reasons: Reasons)
    requires WellFormed(i) && small <= large && Justified(i, small, reasons)
    ensures Justified(i, large, reasons)
  {
    forall t, o, s | t in reasons && (o, s) in reasons[t]
      ensures Binds(i, large, o, t, s)
    {
      assert Binds(i, small, o, t, s);
    }
  }

  function Add(reasons: Reasons, target: string, why: (string, string)): Reasons {
    reasons[target := (if target in reasons then reasons[target] else {}) + {why}]
  }

  // What one owner breaks.
  method BreakingOf(i: Inputs, owner: string, held: Reasons, breaking: Reasons) returns (more: Reasons)
    requires WellFormed(i) && Stays(i, owner, held.Keys)
    requires Justified(i, held.Keys, breaking) && breaking.Keys !! held.Keys
    ensures Justified(i, held.Keys, more) && more.Keys !! held.Keys && breaking.Keys <= more.Keys
    ensures forall r :: r in i.requirements[owner] && Rejects(i, r) ==> r.target in more || r.target in held
  {
    more := breaking;
    var rs := i.requirements[owner];
    for k := 0 to |rs|
      invariant Justified(i, held.Keys, more) && more.Keys !! held.Keys && breaking.Keys <= more.Keys
      invariant forall j :: 0 <= j < k && Rejects(i, rs[j]) ==> rs[j].target in more || rs[j].target in held
    {
      var r := rs[k];
      if r.target in i.proposed && r.target !in held && !i.allows(r.specifier, i.proposed[r.target]) {
        assert Binds(i, held.Keys, owner, r.target, r.specifier);
        more := Add(more, r.target, (owner, r.specifier));
      }
    }
  }

  // One round: everything the staying packages break.
  method Breaking(i: Inputs, held: Reasons) returns (breaking: Reasons)
    requires WellFormed(i)
    ensures Justified(i, held.Keys, breaking) && breaking.Keys !! held.Keys
    ensures breaking == map[] ==> Settled(i, held.Keys)
    ensures forall owner, r :: Stays(i, owner, held.Keys) && r in i.requirements[owner] && Rejects(i, r) ==>
                                 r.target in breaking || r.target in held
  {
    breaking := map[];
    for k := 0 to |i.order|
      invariant Justified(i, held.Keys, breaking) && breaking.Keys !! held.Keys
      invariant forall j, r ::
                  0 <= j < k && Stays(i, i.order[j], held.Keys) && r in i.requirements[i.order[j]] && Rejects(i, r) ==>
                    r.target in breaking || r.target in held
    {
      if Stays(i, i.order[k], held.Keys) {
        breaking := BreakingOf(i, i.order[k], held, breaking);
      }
    }
    forall owner, r | Stays(i, owner, held.Keys) && r in i.requirements[owner] && Rejects(i, r)
      ensures r.target in breaking || r.target in held
    {
      assert owner in i.order;
    }
  }

  // The held set is the least settled one, whatever the listing order; each
  // member has a reason that still binds; and every requirement of every
  // package that stays admits the version chosen for its target.
  method HoldBack(i: Inputs) returns (chosen: map<string, string>, held: Reasons)
    requires WellFormed(i)
    ensures held.Keys <= i.proposed.Keys && Settled(i, held.Keys)
    ensures forall h: set<string> :: Settled(i, h) ==> held.Keys <= h
    ensures Justified(i, held.Keys, held)
    ensures chosen.Keys == i.proposed.Keys - held.Keys && forall n :: n in chosen ==> chosen[n] == i.proposed[n]
    // What staying is and what the chosen versions then satisfy, and why each
    // version that was not chosen is held back.
    ensures forall owner, r ::
              && owner in i.installed
              && (owner in i.keep || owner in held || owner !in i.proposed
                  || i.sameVersion(i.proposed[owner], i.installed[owner]))
              && r in i.requirements[owner] && r.target in chosen ==>
                i.allows(r.specifier, chosen[r.target])
    ensures forall t, owner, s :: t in held && (owner, s) in held[t] ==>
              && owner in i.installed
              && (owner in i.keep || owner in held || owner !in i.proposed
                  || i.sameVersion(i.proposed[owner], i.installed[owner]))
              && !i.allows(s, i.proposed[t])
              && exists r :: r in i.requirements[owner] && r.target == t && r.specifier == s
    ensures forall t :: t in held ==> held[t] != {}
  {
    held := map[];
    var breaking := Breaking(i, held);
    while breaking != map[]
      invariant held.Keys <= i.proposed.Keys && Justified(i, held.Keys, held)
      invariant forall h: set<string> :: Settled(i, h) ==> held.Keys <= h
      invariant Justified(i, held.Keys, breaking) && breaking.Keys !! held.Keys
      invariant breaking == map[] ==> Settled(i, held.Keys)
      decreases i.proposed.Keys - held.Keys
    {
      ghost var before := held;
      Unavoidable(i, held.Keys, breaking);
      held := held + breaking;
      assert held.Keys == before.Keys + breaking.Keys;
      JustifiedIsMonotone(i, before.Keys, held.Keys, before);
      JustifiedIsMonotone(i, before.Keys, held.Keys, breaking);
      var t :| t in breaking;
      assert t in i.proposed.Keys - before.Keys && t !in i.proposed.Keys - held.Keys;
      breaking := Breaking(i, held);
    }
    chosen := map n | n in i.proposed && n !in held :: i.proposed[n];
    forall t, owner, s | t in held && (owner, s) in held[t]
      ensures Binds(i, held.Keys, owner, t, s)
    {}
  }

  lemma Unavoidable(i: Inputs, held: set<string>, breaking: Reasons)
    requires WellFormed(i) && Justified(i, held, breaking)
    ensures forall h: set<string> :: Settled(i, h) && held <= h ==> breaking.Keys <= h
  {
    forall h: set<string>, t | Settled(i, h) && held <= h && t in breaking
      ensures t in h
    {
      var why :| why in breaking[t];
      assert Binds(i, held, why.0, t, why.1);
      StaysIsMonotone(i, why.0, held, h);
    }
  }
}
