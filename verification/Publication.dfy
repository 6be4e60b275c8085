// Racing publishers of one immutable directory (benchmarking/_serialization.py
// and benchmarking/program_collection/artifacts.py).
//
// A publisher fills a staging directory of its own and renames it onto the
// destination; rename() is one step and refuses a destination that holds
// anything. Publishers may interleave in any way and be killed at any step.
module Publication {
  import opened Wrappers

  // How a publisher finds what is already there, against what it brings.
  datatype Verdict = Same | Differs | Fails

  datatype Outcome = Published | Identical | Incomplete | Different | Unreadable | NotIdentical {
    predicate Returns() {
      Published? || Identical?
    }
  }

  // `first` tells the check made before staging from the one after a refused
  // rename; `artifact` is what its first look answered.
  datatype Phase =
    | Start
    | Looked(first: bool, artifact: bool)
    | Reading(first: bool)
    | Staging(parts: nat)
    | Refused
    | Cleaning(outcome: Outcome)
    | Ended(outcome: Outcome)
    | Killed

  // `staged` is how much of its own staging directory exists.
  datatype Publisher<C> = Publisher(content: C, phase: Phase, staged: Option<nat>)

  // The destination: who renamed it there, and how many of its parts it has.
  datatype Destination = Destination(winner: nat, parts: nat)

  datatype State<C> = State(dest: Option<Destination>, publishers: seq<Publisher<C>>)

  // A directory has `parts` parts, the artifact first and the manifest second.
  // Some publishers look for both before they stage anything, or before they
  // compare; `compare` is given the existing content and the publisher's own.
  datatype Protocol<!C> = Protocol(parts: nat, checksFirst: bool, looks: bool, compare: (C, C) -> Verdict)

  datatype Move = Advance(p: nat) | Kill(p: nat)

  function Begin<C>(contents: seq<C>): State<C> {
    State(None, seq(|contents|, i requires 0 <= i < |contents| => Publisher(contents[i], Start, None)))
  }

  function OutcomeOf(v: Verdict): Outcome {
    match v
    case Same => Identical
    case Differs => Different
    case Fails => Unreadable
  }

  // A publisher that ends without a staging directory has nothing to clean.
  function Ending(first: bool, outcome: Outcome): Phase {
    if first then Ended(outcome) else Cleaning(outcome)
  }

  function ArtifactExists(dest: Option<Destination>): bool {
    dest.Some? && dest.value.parts >= 1
  }

  function ManifestExists(dest: Option<Destination>): bool {
    dest.Some? && dest.value.parts >= 2
  }

  // What a publisher does after its second look.
  function AfterLook(first: bool, artifact: bool, manifest: bool): Phase {
    if !artifact && !manifest then (if first then Staging(0) else Cleaning(NotIdentical))
    else if artifact != manifest then Ending(first, Incomplete)
    else Reading(first)
  }

  function Step<C>(protocol: Protocol<C>, s: State<C>, p: nat): State<C>
    requires p < |s.publishers|
  {
    var me := s.publishers[p];
    match me.phase
    case Start =>
      if protocol.checksFirst then
        s.(publishers := s.publishers[p := me.(phase := Looked(true, ArtifactExists(s.dest)))])
      else s.(publishers := s.publishers[p := me.(phase := Staging(0), staged := Some(0))])
    case Looked(first, artifact) =>
      var next := AfterLook(first, artifact, ManifestExists(s.dest));
      s.(publishers := s.publishers[p := me.(phase := next, staged := if next.Staging? then Some(0) else me.staged)])
    case Reading(first) =>
      if s.dest.None? || s.dest.value.winner >= |s.publishers| then s
      else
        var found := OutcomeOf(protocol.compare(s.publishers[s.dest.value.winner].content, me.content));
        s.(publishers := s.publishers[p := me.(phase := Ending(first, found))])
    case Staging(parts) =>
      if parts < protocol.parts then
        s.(publishers := s.publishers[p := me.(phase := Staging(parts + 1), staged := Some(parts + 1))])
      else if s.dest.None? then
        State(Some(Destination(p, parts)), s.publishers[p := me.(phase := Cleaning(Published), staged := None)])
      else s.(publishers := s.publishers[p := me.(phase := Refused)])
    case Refused =>
      var next := if protocol.looks then Looked(false, ArtifactExists(s.dest)) else Reading(false);
      s.(publishers := s.publishers[p := me.(phase := next)])
    case Cleaning(outcome) => s.(publishers := s.publishers[p := me.(phase := Ended(outcome), staged := None)])
    case Ended(_) => s
    case Killed => s
  }

  function Apply<C>(protocol: Protocol<C>, s: State<C>, m: Move): State<C> {
    if m.p >= |s.publishers| then s
    else
      match m
      case Advance(p) => Step(protocol, s, p)
      case Kill(p) =>
        if s.publishers[p].phase.Ended? then s
        else s.(publishers := s.publishers[p := s.publishers[p].(phase := Killed)])
  }

  function After<C>(protocol: Protocol<C>, contents: seq<C>, moves: seq<Move>): State<C> {
    if |moves| == 0 then Begin(contents)
    else Apply(protocol, After(protocol, contents, moves[..|moves| - 1]), moves[|moves| - 1])
  }

  // ----- What every interleaving keeps -----

  ghost predicate PublisherInv<C(!new)>(protocol: Protocol<C>, s: State<C>, p: nat)
    requires p < |s.publishers| && (s.dest.Some? ==> s.dest.value.winner < |s.publishers|)
  {
    var me := s.publishers[p];
    match me.phase
    case Start => me.staged.None? && !Won(s, p)
    case Looked(first, artifact) =>
      if first then protocol.checksFirst && me.staged.None? && (artifact ==> s.dest.Some?) && !Won(s, p)
      else artifact && s.dest.Some? && !Won(s, p) && me.staged == Some(protocol.parts)
    case Reading(first) => s.dest.Some? && !Won(s, p) && me.staged == if first then None else Some(protocol.parts)
    case Staging(parts) => parts <= protocol.parts && me.staged == Some(parts) && !Won(s, p)
    case Refused => s.dest.Some? && !Won(s, p) && me.staged == Some(protocol.parts)
    case Cleaning(outcome) => Rightly(protocol, s, p, outcome) && !outcome.Incomplete?
    case Ended(outcome) => me.staged.None? && Rightly(protocol, s, p, outcome)
    case Killed => true
  }

  ghost predicate Won<C>(s: State<C>, p: nat) {
    s.dest.Some? && s.dest.value.winner == p
  }

  // Only the winner publishes; whoever compared was told the truth.
  ghost predicate Rightly<C(!new)>(protocol: Protocol<C>, s: State<C>, p: nat, outcome: Outcome)
    requires p < |s.publishers| && (s.dest.Some? ==> s.dest.value.winner < |s.publishers|)
  {
    s.dest.Some?
    && if outcome.Published? then Won(s, p)
       else if outcome.Incomplete? then !Won(s, p) && protocol.checksFirst
       else
         var there, own := s.publishers[s.dest.value.winner].content, s.publishers[p].content;
         !Won(s, p) && outcome == OutcomeOf(protocol.compare(there, own))
  }

  ghost predicate Inv<C(!new)>(protocol: Protocol<C>, s: State<C>) {
    && (s.dest.Some? ==> s.dest.value.winner < |s.publishers| && s.dest.value.parts == protocol.parts)
    && forall p: nat :: p < |s.publishers| ==> PublisherInv(protocol, s, p)
  }

  lemma StepKeepsOthers<C(!new)>(protocol: Protocol<C>, s: State<C>, p: nat, q: nat)
    requires Inv(protocol, s) && p < |s.publishers| && q < |s.publishers| && q != p
    ensures Step(protocol, s, p).publishers[q] == s.publishers[q] && PublisherInv(protocol, Step(protocol, s, p), q)
  {
    assert PublisherInv(protocol, s, q);
    if s.dest.Some? {
      assert Step(protocol, s, p).publishers[s.dest.value.winner].content == s.publishers[s.dest.value.winner].content;
    }
  }

  lemma StepKeepsOwn<C(!new)>(protocol: Protocol<C>, s: State<C>, p: nat)
    requires protocol.parts >= 2 && Inv(protocol, s) && p < |s.publishers|
    ensures PublisherInv(protocol, Step(protocol, s, p), p)
  {
    assert PublisherInv(protocol, s, p);
  }

  lemma StepKeepsInv<C(!new)>(protocol: Protocol<C>, s: State<C>, p: nat)
    requires protocol.parts >= 2 && Inv(protocol, s) && p < |s.publishers|
    ensures Inv(protocol, Step(protocol, s, p))
    ensures s.dest.Some? ==> Step(protocol, s, p).dest == s.dest
  {
    StepKeepsOwn(protocol, s, p);
    assert PublisherInv(protocol, s, p);
    forall q: nat | q < |s.publishers| && q != p
      ensures PublisherInv(protocol, Step(protocol, s, p), q)
    {
      StepKeepsOthers(protocol, s, p, q);
    }
  }

  lemma ApplyKeepsInv<C(!new)>(protocol: Protocol<C>, s: State<C>, m: Move)
    requires protocol.parts >= 2 && Inv(protocol, s)
    ensures Inv(protocol, Apply(protocol, s, m))
    ensures s.dest.Some? ==> Apply(protocol, s, m).dest == s.dest
    ensures SameContents(s, Apply(protocol, s, m))
  {
    if m.p < |s.publishers| {
      if m.Advance? {
        StepKeepsInv(protocol, s, m.p);
      } else {
        var t := Apply(protocol, s, m);
        forall q: nat | q < |t.publishers|
          ensures PublisherInv(protocol, t, q)
        {
          assert PublisherInv(protocol, s, q);
        }
      }
    }
  }

  ghost predicate SameContents<C(!new)>(s: State<C>, t: State<C>) {
    |s.publishers| == |t.publishers|
    && forall p :: 0 <= p < |s.publishers| ==> t.publishers[p].content == s.publishers[p].content
  }

  lemma {:induction false} RunKeepsInv<C(!new)>(protocol: Protocol<C>, contents: seq<C>, moves: seq<Move>)
    requires protocol.parts >= 2
    ensures Inv(protocol, After(protocol, contents, moves))
    ensures SameContents(Begin(contents), After(protocol, contents, moves))
  {
    if |moves| > 0 {
      RunKeepsInv(protocol, contents, moves[..|moves| - 1]);
      ApplyKeepsInv(protocol, After(protocol, contents, moves[..|moves| - 1]), moves[|moves| - 1]);
    }
  }

  // What a reader finds at the destination.
  ghost function Visible<C(!new)>(protocol: Protocol<C>, contents: seq<C>, moves: seq<Move>): Option<C>
    requires protocol.parts >= 2
  {
    RunKeepsInv(protocol, contents, moves);
    var s := After(protocol, contents, moves);
    if s.dest.None? then None else Some(contents[s.dest.value.winner])
  }

  // Absent or complete, and once visible never changed.
  lemma {:induction false} OnceVisibleForever<C(!new)>(protocol: Protocol<C>, contents: seq<C>, moves: seq<Move>,
                                                k: nat)
    requires protocol.parts >= 2 && k <= |moves|
    ensures var s := After(protocol, contents, moves);
            s.dest.Some? ==> s.dest.value.parts == protocol.parts
    ensures Visible(protocol, contents, moves[..k]).Some?
            ==> Visible(protocol, contents, moves) == Visible(protocol, contents, moves[..k])
                && After(protocol, contents, moves).dest == After(protocol, contents, moves[..k]).dest
  {
    RunKeepsInv(protocol, contents, moves);
    if k == |moves| {
      assert moves[..k] == moves;
    } else {
      var front := moves[..|moves| - 1];
      OnceVisibleForever(protocol, contents, front, k);
      assert front[..k] == moves[..k];
      RunKeepsInv(protocol, contents, front);
      ApplyKeepsInv(protocol, After(protocol, contents, front), moves[|moves| - 1]);
    }
  }

  // How every publisher ends that is not killed: the winner published, and any
  // other was answered by the comparison with what the winner published. No
  // rename is refused by a destination that then is not there, and only a
  // check made before staging can find half a directory.
  lemma EndsRightly<C(!new)>(protocol: Protocol<C>, contents: seq<C>, moves: seq<Move>, p: nat)
    requires protocol.parts >= 2 && p < |contents|
    ensures var me := After(protocol, contents, moves).publishers;
            |me| == |contents| && (me[p].phase.Ended? ==>
              && Visible(protocol, contents, moves).Some? && me[p].staged.None?
              && me[p].phase.outcome != NotIdentical
              && (me[p].phase.outcome == Incomplete ==> protocol.checksFirst)
              && (me[p].phase.outcome == Published ==> Visible(protocol, contents, moves) == Some(contents[p]))
              && (me[p].phase.outcome !in {Published, Incomplete} ==>
                    me[p].phase.outcome
                      == OutcomeOf(protocol.compare(Visible(protocol, contents, moves).value, contents[p]))))
  {
    RunKeepsInv(protocol, contents, moves);
    var s := After(protocol, contents, moves);
    assert PublisherInv(protocol, s, p);
  }

  // ----- Nobody waits for anybody -----

  // How many moves of its own a publisher is from its end.
  function Rank<C>(protocol: Protocol<C>, phase: Phase): nat {
    match phase
    case Start => protocol.parts + 8
    case Looked(first, _) => if first then protocol.parts + 7 else 4
    case Staging(parts) => if parts <= protocol.parts then protocol.parts - parts + 6 else 6
    case Refused => 5
    case Reading(_) => 3
    case Cleaning(_) => 1
    case Ended(_) => 0
    case Killed => 0
  }

  lemma OwnMoveLowersRank<C(!new)>(protocol: Protocol<C>, s: State<C>, p: nat)
    requires protocol.parts >= 2 && Inv(protocol, s) && p < |s.publishers|
    requires !s.publishers[p].phase.Ended? && !s.publishers[p].phase.Killed?
    ensures var phase := Step(protocol, s, p).publishers[p].phase;
            Rank(protocol, phase) < Rank(protocol, s.publishers[p].phase) && !phase.Killed?
  {
    assert PublisherInv(protocol, s, p);
  }

  function OwnMoves(moves: seq<Move>, p: nat): nat {
    if |moves| == 0 then 0
    else OwnMoves(moves[..|moves| - 1], p) + if moves[|moves| - 1] == Advance(p) then 1 else 0
  }

  // Whatever the others do, and even if they are all killed half way: a
  // publisher that is not killed and gets parts + 8 moves has ended.
  lemma {:induction false} UnkilledEnds<C(!new)>(protocol: Protocol<C>, contents: seq<C>, moves: seq<Move>, p: nat)
    requires protocol.parts >= 2 && p < |contents| && Kill(p) !in moves
    ensures |After(protocol, contents, moves).publishers| == |contents|
    ensures var phase := After(protocol, contents, moves).publishers[p].phase;
            && !phase.Killed? && (phase.Ended? || Rank(protocol, phase) + OwnMoves(moves, p) <= protocol.parts + 8)
            && (OwnMoves(moves, p) >= protocol.parts + 8 ==> phase.Ended?)
  {
    CountStays(protocol, contents, moves);
    if |moves| > 0 {
      var front, m := moves[..|moves| - 1], moves[|moves| - 1];
      UnkilledEnds(protocol, contents, front, p);
      RunKeepsInv(protocol, contents, front);
      MoveOf(protocol, After(protocol, contents, front), m, p);
    }
  }

  lemma MoveOf<C(!new)>(protocol: Protocol<C>, s: State<C>, m: Move, p: nat)
    requires protocol.parts >= 2 && Inv(protocol, s) && p < |s.publishers|
    requires m != Kill(p) && !s.publishers[p].phase.Killed?
    ensures |Apply(protocol, s, m).publishers| == |s.publishers|
    ensures var was, now := s.publishers[p].phase, Apply(protocol, s, m).publishers[p].phase;
            !now.Killed?
            && if was.Ended? then now.Ended?
               else if m == Advance(p) then Rank(protocol, now) < Rank(protocol, was)
               else now == was
  {
    if m == Advance(p) && !s.publishers[p].phase.Ended? {
      OwnMoveLowersRank(protocol, s, p);
    }
  }

  // A publisher killed before its end never ends, and what it staged stays.
  lemma {:induction false} KilledNeverEnds<C(!new)>(protocol: Protocol<C>, contents: seq<C>, moves: seq<Move>,
                                             p: nat, k: nat)
    requires p < |contents| && k < |moves| && moves[k] == Kill(p)
    ensures |After(protocol, contents, moves[..k]).publishers| == |After(protocol, contents, moves).publishers|
            == |contents|
    ensures var was, now := After(protocol, contents, moves[..k]).publishers[p],
                            After(protocol, contents, moves).publishers[p];
            !was.phase.Ended? ==> now.phase.Killed? && now.staged == was.staged
  {
    CountStays(protocol, contents, moves[..k]);
    CountStays(protocol, contents, moves);
    var front := moves[..|moves| - 1];
    if k < |front| {
      KilledNeverEnds(protocol, contents, front, p, k);
      assert front[..k] == moves[..k];
    } else {
      assert front == moves[..k];
    }
  }

  // At most one publisher published.
  lemma OnePublishes<C(!new)>(protocol: Protocol<C>, contents: seq<C>, moves: seq<Move>, p: nat, q: nat)
    requires protocol.parts >= 2 && p < |contents| && q < |contents|
    ensures var me := After(protocol, contents, moves).publishers;
            |me| == |contents| && (me[p].phase == Ended(Published) && me[q].phase == Ended(Published) ==> p == q)
  {
    RunKeepsInv(protocol, contents, moves);
    var s := After(protocol, contents, moves);
    assert PublisherInv(protocol, s, p) && PublisherInv(protocol, s, q);
  }

  // ----- The early check is not one step -----

  // Between moves i and j the publisher makes none of its own.
  predicate Idle(moves: seq<Move>, p: nat, i: int, j: int)
    requires 0 <= i <= j <= |moves|
  {
    forall k :: i <= k < j ==> moves[k].p != p
  }

  lemma {:induction false} IdleStays<C(!new)>(protocol: Protocol<C>, contents: seq<C>, moves: seq<Move>, p: nat,
                                       i: nat, j: nat)
    requires i <= j <= |moves| && Idle(moves, p, i, j) && p < |contents|
    ensures var s, t := After(protocol, contents, moves[..i]), After(protocol, contents, moves[..j]);
            |s.publishers| == |t.publishers| == |contents| && t.publishers[p] == s.publishers[p]
  {
    CountStays(protocol, contents, moves[..i]);
    if i < j {
      IdleStays(protocol, contents, moves, p, i, j - 1);
      CountStays(protocol, contents, moves[..j]);
      assert moves[..j][..j - 1] == moves[..j - 1];
      assert moves[..j][j - 1].p != p;
    }
  }

  lemma {:induction false} CountStays<C(!new)>(protocol: Protocol<C>, contents: seq<C>, moves: seq<Move>)
    ensures |After(protocol, contents, moves).publishers| == |contents|
  {
    if |moves| > 0 {
      CountStays(protocol, contents, moves[..|moves| - 1]);
    }
  }

  lemma AfterAppend<C(!new)>(protocol: Protocol<C>, contents: seq<C>, moves: seq<Move>, m: Move)
    ensures After(protocol, contents, moves + [m]) == Apply(protocol, After(protocol, contents, moves), m)
  {
    assert (moves + [m])[..|moves|] == moves;
  }

  lemma FirstLook<C(!new)>(protocol: Protocol<C>, contents: seq<C>, moves: seq<Move>, p: nat)
    requires protocol.parts >= 2 && protocol.checksFirst && p < |contents|
    ensures var s, t := After(protocol, contents, moves), After(protocol, contents, moves + [Advance(p)]);
            |s.publishers| == |t.publishers| == |contents|
            && (s.publishers[p].phase.Start? ==> t.publishers[p].phase == Looked(true, s.dest.Some?))
  {
    RunKeepsInv(protocol, contents, moves);
    AfterAppend(protocol, contents, moves, Advance(p));
  }

  lemma SecondLook<C(!new)>(protocol: Protocol<C>, contents: seq<C>, moves: seq<Move>, p: nat, artifact: bool)
    requires protocol.parts >= 2 && p < |contents|
    ensures var s, t := After(protocol, contents, moves), After(protocol, contents, moves + [Advance(p)]);
            |s.publishers| == |t.publishers| == |contents|
            && (s.publishers[p].phase == Looked(true, artifact) ==>
                  (t.publishers[p].phase == Ended(Incomplete) <==> artifact != s.dest.Some?))
  {
    RunKeepsInv(protocol, contents, moves);
    AfterAppend(protocol, contents, moves, Advance(p));
  }

  // A publisher that looks before staging reports an incomplete artifact
  // exactly when a rival's rename fell between its two looks; what it then
  // calls incomplete is complete.
  lemma IncompleteIffRenamedBetweenLooks<C(!new)>(protocol: Protocol<C>, contents: seq<C>, moves: seq<Move>, p: nat,
                                           i: nat, j: nat)
    requires protocol.parts >= 2 && protocol.checksFirst && p < |contents|
    requires i < j < |moves| && moves[i] == Advance(p) && moves[j] == Advance(p) && Idle(moves, p, i + 1, j)
    requires |After(protocol, contents, moves[..i]).publishers| == |contents|
    requires After(protocol, contents, moves[..i]).publishers[p].phase.Start?
    ensures |After(protocol, contents, moves[..j + 1]).publishers| == |contents|
    ensures After(protocol, contents, moves[..j + 1]).publishers[p].phase == Ended(Incomplete)
            <==> Visible(protocol, contents, moves[..i]).None? && Visible(protocol, contents, moves[..j]).Some?
    ensures var d := After(protocol, contents, moves[..j]).dest; d.Some? ==> d.value.parts == protocol.parts
  {
    assert moves[..i + 1] == moves[..i] + [Advance(p)] && moves[..j + 1] == moves[..j] + [Advance(p)];
    FirstLook(protocol, contents, moves[..i], p);
    IdleStays(protocol, contents, moves, p, i + 1, j);
    SecondLook(protocol, contents, moves[..j], p, After(protocol, contents, moves[..i]).dest.Some?);
    OnceVisibleForever(protocol, contents, moves[..j], i);
    assert moves[..j][..i] == moves[..i];
  }

  // Two publishers of one and the same content, neither killed: the second
  // looks, the first publishes, and the second's identical retry raises.
  lemma IdenticalRetryCanRaise<C(!new)>(protocol: Protocol<C>, content: C) returns (moves: seq<Move>)
    requires protocol.parts == 2 && protocol.checksFirst
    ensures var s := After(protocol, [content, content], moves);
            |s.publishers| == 2 && s.publishers[1].phase == Ended(Incomplete) && s.dest == Some(Destination(0, 2))
            && s.publishers[0].phase == Cleaning(Published)
  {
    var both := [content, content];
    var a, b := Publisher(content, Start, None), Publisher(content, Looked(true, false), None);
    moves := [];
    assert After(protocol, both, moves).publishers == [a, a];
    moves := Moved(protocol, both, moves, Advance(1), State(None, [a, a]), State(None, [a, b]));
    moves := Moved(protocol, both, moves, Advance(0), State(None, [a, b]), State(None, [b, b]));
    var at := (n: nat) => Publisher(content, Staging(n), Some(n));
    moves := Moved(protocol, both, moves, Advance(0), State(None, [b, b]), State(None, [at(0), b]));
    moves := Moved(protocol, both, moves, Advance(0), State(None, [at(0), b]), State(None, [at(1), b]));
    moves := Moved(protocol, both, moves, Advance(0), State(None, [at(1), b]), State(None, [at(2), b]));
    var there, done := Some(Destination(0, 2)), Publisher(content, Cleaning(Published), None);
    moves := Moved(protocol, both, moves, Advance(0), State(None, [at(2), b]), State(there, [done, b]));
    moves := Moved(protocol, both, moves, Advance(1), State(there, [done, b]),
                   State(there, [done, Publisher(content, Ended(Incomplete), None)]));
  }

  lemma Moved<C(!new)>(protocol: Protocol<C>, contents: seq<C>, moves: seq<Move>, m: Move, s: State<C>, t: State<C>)
      returns (more: seq<Move>)
    requires After(protocol, contents, moves) == s && Apply(protocol, s, m) == t
    ensures After(protocol, contents, more) == t
  {
    more := moves + [m];
    AfterAppend(protocol, contents, moves, m);
  }

  // ----- The two archives that publish this way -----

  // An artifact and its manifest, as text and as a JSON mapping. `canonical` is
  // what parsing and printing a text again makes of it, if it parses.
  datatype Artifact<M(==)> = Artifact(payload: string, manifest: M)

  // existing_artifact_is_identical once both files are found.
  function Canonically<M(==)>(canonical: string -> Option<string>): (Artifact<M>, Artifact<M>) -> Verdict {
    (existing: Artifact<M>, own: Artifact<M>) =>
      if canonical(existing.payload).None? || canonical(own.payload).None? then Fails
      else if canonical(existing.payload) != canonical(own.payload) || existing.manifest != own.manifest then Differs
      else Same
  }

  // commit_immutable_directory, called after the early check as plan_artifacts.py
  // does, with `children` empty directories beside the two files.
  function Committing<M(==)>(canonical: string -> Option<string>, children: nat,
                        checksFirst: bool): Protocol<Artifact<M>> {
    Protocol(2 + children, checksFirst, true, Canonically(canonical))
  }

  // Any two publishers that return agree on the canonical payload and on the
  // manifest, if they are two; and so does whatever is visible.
  lemma CommittersAgree<M(!new)>(canonical: string -> Option<string>, children: nat, checksFirst: bool,
                          contents: seq<Artifact<M>>,
                                     moves: seq<Move>, p: nat, q: nat)
    requires p < |contents| && q < |contents| && p != q
    ensures var protocol := Committing(canonical, children, checksFirst);
            var s := After(protocol, contents, moves);
            |s.publishers| == |contents| && (Returned(s, p) && Returned(s, q) ==>
              && canonical(contents[p].payload).Some?
              && canonical(contents[p].payload) == canonical(contents[q].payload)
              && contents[p].manifest == contents[q].manifest)
  {
    var protocol := Committing(canonical, children, checksFirst);
    EndsRightly(protocol, contents, moves, p);
    EndsRightly(protocol, contents, moves, q);
    OnePublishes(protocol, contents, moves, p, q);
  }

  ghost predicate Returned<C>(s: State<C>, p: nat)
    requires p < |s.publishers|
  {
    s.publishers[p].phase.Ended? && s.publishers[p].phase.outcome.Returns()
  }

  // "Return true for an identical retry": of a publisher bringing what is
  // already there, exactly when that parses. The first to publish never
  // parsed it.
  lemma IdenticalRetry<M(!new)>(canonical: string -> Option<string>, children: nat, checksFirst: bool,
                         contents: seq<Artifact<M>>,
                                    moves: seq<Move>, p: nat)
    requires p < |contents|
    ensures var protocol := Committing(canonical, children, checksFirst);
            var s := After(protocol, contents, moves);
            |s.publishers| == |contents|
            && (s.publishers[p].phase.Ended? && s.publishers[p].phase.outcome !in {Published, Incomplete}
                && Visible(protocol, contents, moves) == Some(contents[p]) ==>
                  (Returned(s, p) <==> canonical(contents[p].payload).Some?))
  {
    EndsRightly(Committing(canonical, children, checksFirst), contents, moves, p);
  }

  // The plans this is called with print as JSON: then every comparison is
  // answered, and a publisher that meets what is there returns exactly when
  // the payloads are canonically the same and the manifests are the same.
  lemma ParsedRetry<M(!new)>(canonical: string -> Option<string>, children: nat, checksFirst: bool,
                             contents: seq<Artifact<M>>, moves: seq<Move>, p: nat)
    requires p < |contents| && forall i :: 0 <= i < |contents| ==> canonical(contents[i].payload).Some?
    ensures var protocol := Committing(canonical, children, checksFirst);
            var s := After(protocol, contents, moves);
            |s.publishers| == |contents|
            && (s.publishers[p].phase.Ended? ==>
                  && s.publishers[p].phase.outcome !in {Unreadable, NotIdentical}
                  && Visible(protocol, contents, moves).Some?
                  && (s.publishers[p].phase.outcome !in {Published, Incomplete} ==>
                        var there := Visible(protocol, contents, moves).value;
                        Returned(s, p) <==> canonical(there.payload) == canonical(contents[p].payload)
                                            && there.manifest == contents[p].manifest))
  {
    var protocol := Committing(canonical, children, checksFirst);
    EndsRightly(protocol, contents, moves, p);
    RunKeepsInv(protocol, contents, moves);
  }

  datatype PublishError = IncompleteArtifact | DifferentEvidence | InvalidJson | RaceNotIdentical

  // The answer of existing_artifact_is_identical to a verdict.
  function Answer(v: Verdict): Result<bool, PublishError> {
    match v
    case Same => Ok(true)
    case Differs => Err(DifferentEvidence)
    case Fails => Err(InvalidJson)
  }

  // One artifact directory on the disk, seen by one publisher.
  class ArtifactDirectory<M(==)> {
    const canonical: string -> Option<string>
    var payload: Option<string>
    var manifest: Option<M>

    constructor (canonical: string -> Option<string>)
      ensures this.canonical == canonical && Contents() == None && Whole()
    {
      this.canonical := canonical;
      payload, manifest := None, None;
    }

    // Absent or complete.
    ghost predicate Whole()
      reads this
    {
      payload.Some? <==> manifest.Some?
    }

    ghost function Contents(): Option<Artifact<M>>
      reads this
    {
      if payload.Some? && manifest.Some? then Some(Artifact(payload.value, manifest.value)) else None
    }

    method ExistingIsIdentical(own: Artifact<M>) returns (res: Result<bool, PublishError>)
      ensures payload.None? && manifest.None? ==> res == Ok(false)
      ensures payload.Some? != manifest.Some? ==> res == Err(IncompleteArtifact)
      ensures Contents().Some? ==> res == Answer(Canonically(canonical)(Contents().value, own))
    {
      if payload.None? && manifest.None? {
        return Ok(false);
      }
      if payload.Some? != manifest.Some? {
        return Err(IncompleteArtifact);
      }
      var existing := canonical(payload.value);
      if existing.None? {
        return Err(InvalidJson);
      }
      var mine := canonical(own.payload);
      if mine.None? {
        return Err(InvalidJson);
      }
      if existing != mine || manifest.value != own.manifest {
        return Err(DifferentEvidence);
      }
      return Ok(true);
    }

    // Stage, rename, and compare when the rename is refused. `rival` is what
    // another publisher may rename there first. Content that is there stays,
    // and the publisher returns only if its own is there or canonically is.
    method Commit(own: Artifact<M>, rival: Option<Artifact<M>>) returns (res: Result<(), PublishError>)
      requires Whole()
      modifies this
      ensures Whole() && Contents().Some?
      ensures old(Contents()).Some? ==> Contents() == old(Contents())
      ensures old(Contents()).None? ==> Contents() == if rival.Some? then rival else Some(own)
      ensures old(Contents()).None? && rival.None? ==> res == Ok(())
      ensures old(Contents()).Some? || rival.Some? ==>
                var found := Answer(Canonically(canonical)(Contents().value, own));
                res == if found.Ok? then Ok(()) else Err(found.error)
    {
      var staging := new ArtifactDirectory<M>(canonical);
      staging.payload := Some(own.payload);
      staging.manifest := Some(own.manifest);
      if rival.Some? && payload.None? {
        payload, manifest := Some(rival.value.payload), Some(rival.value.manifest);
      }
      if payload.None? {
        payload, manifest := staging.payload, staging.manifest;
        return Ok(());
      }
      var identical := ExistingIsIdentical(own);
      res := match identical
        case Err(e) => Err(e)
        case Ok(same) => if same then Ok(()) else Err(RaceNotIdentical);
    }
  }

  // A profiled program: its bytes, its digest, the identity it was collected
  // under and its metadata. The manifest's checksum is that of the bytes, so a
  // load of what is published can fail only in reading the program itself.
  datatype Archive<I(==), M(==)> = Archive(bytes: string, digest: string, identity: I, metadata: M)

  function Loading<I(==), M(==)>(load: string -> Option<string>): (Archive<I, M>, Archive<I, M>) -> Verdict {
    (existing: Archive<I, M>, own: Archive<I, M>) =>
      if load(existing.bytes) != Some(existing.digest) then Fails
      else if existing.digest != own.digest || existing.identity != own.identity || existing.metadata != own.metadata
        then Differs
      else Same
  }

  function Saving<I(==), M(==)>(load: string -> Option<string>): Protocol<Archive<I, M>> {
    Protocol(2, false, false, Loading(load))
  }

  // save_profiled_program: publishers that return agree on the program, its
  // identity and its metadata, whatever their bytes; of a digest that loads,
  // one that does not return had other metadata or another identity.
  lemma SaversAgree<I(!new), M(!new)>(load: string -> Option<string>, contents: seq<Archive<I, M>>, moves: seq<Move>,
                      p: nat, q: nat)
    requires p < |contents| && q < |contents| && p != q
    ensures var s := After(Saving(load), contents, moves);
            |s.publishers| == |contents|
            && (Returned(s, p) && Returned(s, q) ==>
                  && contents[p].digest == contents[q].digest && contents[p].identity == contents[q].identity
                  && contents[p].metadata == contents[q].metadata)
            && (s.publishers[p].phase.Ended? && Visible(Saving(load), contents, moves) == Some(contents[q])
                && load(contents[q].bytes) == Some(contents[q].digest) && s.publishers[p].phase.outcome != Published ==>
                  (Returned(s, p) <==> contents[p].digest == contents[q].digest
                                       && contents[p].identity == contents[q].identity
                                       && contents[p].metadata == contents[q].metadata))
  {
    EndsRightly(Saving(load), contents, moves, p);
    EndsRightly(Saving(load), contents, moves, q);
    OnePublishes(Saving(load), contents, moves, p, q);
  }
}
