// The cases a sweep lists and hands to its worker sessions
// (baselines/moe_layer/sweep.py).
module SweepCases {
  import opened Wrappers
  import opened Decimals
  import opened SessionSweep

  // The options are lists; itertools.product takes every combination.
  datatype Options = Options(backends: seq<string>, precisions: seq<string>, training: seq<string>, tokens: seq<nat>)

  predicate NoRepeat<T(==)>(xs: seq<T>) {
    |xs| == 0 || (NoRepeat(xs[..|xs| - 1]) && xs[|xs| - 1] !in xs[..|xs| - 1])
  }

  predicate Slashless(s: string) {
    '/' !in s
  }

  predicate AllSlashless(ys: seq<string>) {
    forall y :: y in ys ==> Slashless(y)
  }

  function Line(x: string, ys: seq<string>): seq<string> {
    if |ys| == 0 then [] else Line(x, ys[..|ys| - 1]) + [x + "/" + ys[|ys| - 1]]
  }

  // Every x with every y, in the order of nested loops.
  function Cross(xs: seq<string>, ys: seq<string>): seq<string> {
    if |xs| == 0 then [] else Cross(xs[..|xs| - 1], ys) + Line(xs[|xs| - 1], ys)
  }

  function TokenLabels(tokens: seq<nat>): seq<string> {
    if |tokens| == 0 then [] else TokenLabels(tokens[..|tokens| - 1]) + ["tokens-" + Digits(tokens[|tokens| - 1])]
  }

  // backend/precision/training/tokens-n, in product order.
  function CaseTexts(o: Options): seq<string> {
    Cross(Cross(Cross(o.backends, o.precisions), o.training), TokenLabels(o.tokens))
  }

  // ----- The names of a product are distinct exactly when its lists are -----

  // The last slash says where a name ends.
  lemma LastSlash(x: string, y: string, x2: string, y2: string)
    requires Slashless(y) && Slashless(y2)
    requires x + "/" + y == x2 + "/" + y2
    ensures x == x2 && y == y2
  {
    ShorterTail(x, y, x2, y2);
    ShorterTail(x2, y2, x, y);
    var text := x + "/" + y;
    assert x == text[..|x|] && x2 == (x2 + "/" + y2)[..|x2|];
    assert y == text[|x| + 1..] && y2 == (x2 + "/" + y2)[|x2| + 1..];
  }

  lemma SlashAt(x: string, y: string)
    ensures (x + "/" + y)[|x|] == '/'
    ensures Slashless(y) ==> forall i :: |x| < i < |x + "/" + y| ==> (x + "/" + y)[i] != '/'
  {
    forall i | Slashless(y) && |x| < i < |x + "/" + y|
      ensures (x + "/" + y)[i] != '/'
    {
      assert (x + "/" + y)[i] == y[i - |x| - 1];
    }
  }

  lemma ShorterTail(x: string, y: string, x2: string, y2: string)
    requires Slashless(y2) && x + "/" + y == x2 + "/" + y2
    ensures |y| >= |y2|
  {
    SlashAt(x, y);
    SlashAt(x2, y2);
  }

  lemma {:induction false} LineHas(x: string, ys: seq<string>, z: string)
    ensures z in Line(x, ys) <==> exists y :: y in ys && z == x + "/" + y
  {
    if |ys| > 0 {
      LineHas(x, ys[..|ys| - 1], z);
      assert ys == ys[..|ys| - 1] + [ys[|ys| - 1]];
    }
  }

  lemma {:induction false} CrossIs(xs: seq<string>, ys: seq<string>, z: string)
    ensures z in Cross(xs, ys) <==> exists x, y :: x in xs && y in ys && z == x + "/" + y
  {
    if |xs| > 0 {
      var front, last := xs[..|xs| - 1], xs[|xs| - 1];
      CrossIs(front, ys, z);
      LineHas(last, ys, z);
      assert xs == front + [last];
    }
  }

  lemma CrossHas(xs: seq<string>, ys: seq<string>, x: string, y: string)
    requires AllSlashless(ys) && Slashless(y)
    ensures x + "/" + y in Cross(xs, ys) <==> x in xs && y in ys
  {
    CrossIs(xs, ys, x + "/" + y);
    if x + "/" + y in Cross(xs, ys) {
      var x2, y2 :| x2 in xs && y2 in ys && x + "/" + y == x2 + "/" + y2;
      LastSlash(x, y, x2, y2);
    }
  }

  lemma {:induction false} NoRepeatSum<T>(a: seq<T>, b: seq<T>)
    ensures NoRepeat(a + b) <==> NoRepeat(a) && NoRepeat(b) && forall z :: z in b ==> z !in a
  {
    if |b| == 0 {
      assert a + b == a;
    } else {
      var front, last := b[..|b| - 1], b[|b| - 1];
      NoRepeatSum(a, front);
      assert (a + b)[..|a + b| - 1] == a + front && b == front + [last];
    }
  }

  lemma {:induction false} LineDistinct(x: string, ys: seq<string>)
    requires AllSlashless(ys)
    ensures NoRepeat(Line(x, ys)) <==> NoRepeat(ys)
  {
    if |ys| > 0 {
      var front, last := ys[..|ys| - 1], ys[|ys| - 1];
      assert ys == front + [last];
      LineDistinct(x, front);
      LineHas(x, front, x + "/" + last);
      if x + "/" + last in Line(x, front) {
        var y :| y in front && x + "/" + last == x + "/" + y;
        LastSlash(x, last, x, y);
      }
    }
  }

  lemma {:induction false} CrossDistinct(xs: seq<string>, ys: seq<string>)
    requires AllSlashless(ys) && |xs| > 0 && |ys| > 0
    ensures NoRepeat(Cross(xs, ys)) <==> NoRepeat(xs) && NoRepeat(ys)
  {
    var front, last := xs[..|xs| - 1], xs[|xs| - 1];
    NoRepeatSum(Cross(front, ys), Line(last, ys));
    LineDistinct(last, ys);
    LineMeetsCross(front, last, ys);
    if |front| > 0 {
      CrossDistinct(front, ys);
    }
  }

  lemma LineMeetsCross(front: seq<string>, last: string, ys: seq<string>)
    requires AllSlashless(ys) && |ys| > 0
    ensures (forall z :: z in Line(last, ys) ==> z !in Cross(front, ys)) <==> last !in front
  {
    forall z | z in Line(last, ys)
      ensures z in Cross(front, ys) <==> last in front
    {
      LineHas(last, ys, z);
      var y :| y in ys && z == last + "/" + y;
      CrossHas(front, ys, last, y);
    }
    LineHas(last, ys, last + "/" + ys[0]);
  }

  lemma {:induction false} TokenLabelsDistinct(tokens: seq<nat>)
    ensures NoRepeat(TokenLabels(tokens)) <==> NoRepeat(tokens)
    ensures AllSlashless(TokenLabels(tokens)) && |TokenLabels(tokens)| == |tokens|
    ensures forall n: nat :: "tokens-" + Digits(n) in TokenLabels(tokens) <==> n in tokens
  {
    if |tokens| > 0 {
      var front, last := tokens[..|tokens| - 1], tokens[|tokens| - 1];
      TokenLabelsDistinct(front);
      assert tokens == front + [last];
      TokenLabelSlashless(last);
      forall n: nat
        ensures "tokens-" + Digits(n) == "tokens-" + Digits(last) <==> n == last
      {
        TokenLabelInjective(n, last);
      }
    }
  }

  lemma TokenLabelSlashless(n: nat)
    ensures Slashless("tokens-" + Digits(n))
  {
    assert Slashless("tokens-");
    assert forall i :: 0 <= i < |Digits(n)| ==> IsDigit(Digits(n)[i]);
  }

  lemma TokenLabelInjective(m: nat, n: nat)
    ensures "tokens-" + Digits(m) == "tokens-" + Digits(n) <==> m == n
  {
    if "tokens-" + Digits(m) == "tokens-" + Digits(n) {
      assert ("tokens-" + Digits(m))[7..] == Digits(m) && ("tokens-" + Digits(n))[7..] == Digits(n);
      ValueOfDigits(m);
      ValueOfDigits(n);
    }
  }

  lemma {:induction false} TokenLabelsAre(tokens: seq<nat>, text: string)
    ensures text in TokenLabels(tokens) <==> exists n :: n in tokens && text == "tokens-" + Digits(n)
  {
    if |tokens| > 0 {
      var front, last := tokens[..|tokens| - 1], tokens[|tokens| - 1];
      TokenLabelsAre(front, text);
      assert tokens == front + [last];
      assert text in TokenLabels(tokens) <==> text in TokenLabels(front) || text == "tokens-" + Digits(last);
      assert forall n :: n in tokens <==> n in front || n == last;
    }
  }

  // A case is named after its four options, in this order.
  ghost predicate NamedAfter(t: string, b: string, p: string, mode: string, n: nat) {
    t == ((b + "/" + p) + "/" + mode) + "/" + ("tokens-" + Digits(n))
  }

  lemma CaseTextsAre(o: Options, t: string)
    ensures t in CaseTexts(o) <==>
              exists b, p, mode, n: nat :: b in o.backends && p in o.precisions && mode in o.training && n in o.tokens
                                           && NamedAfter(t, b, p, mode, n)
  {
    var pairs := Cross(o.backends, o.precisions);
    var triples := Cross(pairs, o.training);
    CrossIs(triples, TokenLabels(o.tokens), t);
    if t in CaseTexts(o) {
      var x, y :| x in triples && y in TokenLabels(o.tokens) && t == x + "/" + y;
      TokenLabelsAre(o.tokens, y);
      CrossIs(pairs, o.training, x);
      var w, mode :| w in pairs && mode in o.training && x == w + "/" + mode;
      CrossIs(o.backends, o.precisions, w);
      var b, p :| b in o.backends && p in o.precisions && w == b + "/" + p;
      var n :| n in o.tokens && y == "tokens-" + Digits(n);
      assert NamedAfter(t, b, p, mode, n);
    }
    forall b, p, mode, n: nat |
      b in o.backends && p in o.precisions && mode in o.training && n in o.tokens && NamedAfter(t, b, p, mode, n)
      ensures t in CaseTexts(o)
    {
      CrossIs(o.backends, o.precisions, b + "/" + p);
      CrossIs(pairs, o.training, (b + "/" + p) + "/" + mode);
      TokenLabelsAre(o.tokens, "tokens-" + Digits(n));
    }
  }

  // argparse takes precisions and modes from fixed choices without a slash,
  // and at least one of each; it does not refuse an option given twice.
  predicate Admitted(o: Options) {
    && |o.backends| > 0 && |o.precisions| > 0 && |o.training| > 0 && |o.tokens| > 0
    && AllSlashless(o.precisions) && AllSlashless(o.training)
  }

  predicate GivenOnce(o: Options) {
    NoRepeat(o.backends) && NoRepeat(o.precisions) && NoRepeat(o.training) && NoRepeat(o.tokens)
  }

  // The case names are distinct exactly when no option is given twice.
  lemma NamesDistinct(o: Options)
    requires Admitted(o)
    ensures NoRepeat(CaseTexts(o)) <==> GivenOnce(o)
  {
    TokenLabelsDistinct(o.tokens);
    CrossNonempty(o.backends, o.precisions);
    CrossNonempty(Cross(o.backends, o.precisions), o.training);
    CrossDistinct(o.backends, o.precisions);
    CrossDistinct(Cross(o.backends, o.precisions), o.training);
    CrossDistinct(Cross(Cross(o.backends, o.precisions), o.training), TokenLabels(o.tokens));
  }

  lemma CrossNonempty(xs: seq<string>, ys: seq<string>)
    requires |xs| > 0 && |ys| > 0
    ensures |Cross(xs, ys)| > 0
  {
    assert |Line(xs[|xs| - 1], ys)| > 0;
  }

  // ----- Listing -----

  // What is found of a case on disk: the status of its last attempt, if any.
  type Found = CaseName -> Option<string>

  predicate Kept(found: Option<string>, retryFailed: bool) {
    found.Some? && (found.value == "completed" || !retryFailed)
  }

  // Each listed name is a case already settled or a pending job, not both.
  ghost predicate Listed(texts: seq<string>, cases: seq<Entry>, pending: seq<Job>) {
    && DistinctEntries(cases) && AllSettled(cases) && Fresh(pending, EntryNames(cases))
    && forall t :: t in texts <==> CaseName(t) in With(EntryNames(cases), pending)
  }

  lemma ListNext(texts: seq<string>, text: string, cases: seq<Entry>, pending: seq<Job>, e: Entry, job: Job)
    requires Listed(texts, cases, pending) && text !in texts
    requires e.name == CaseName(text) && Settled(e) && job.name == CaseName(text)
    ensures Listed(texts + [text], cases + [e], pending) && Listed(texts + [text], cases, pending + [job])
  {
    NamesAppend(cases, e);
    assert (pending + [job])[..|pending|] == pending;
    assert CaseName(text) !in With(EntryNames(cases), pending);
    assert forall t :: t in texts + [text] <==> t in texts || t == text;
  }

  method ListCases(o: Options, found: Found, retryFailed: bool, jobFor: CaseName -> Job)
      returns (cases: seq<Entry>, pending: seq<Job>)
    requires Admitted(o) && GivenOnce(o) && forall n :: jobFor(n).name == n
    ensures Listed(CaseTexts(o), cases, pending)
    // A completed case is kept, and never pending; any other that was attempted
    // is pending exactly when failures are retried.
    ensures forall e :: e in cases ==>
                          && found(e.name).Some? && e.status == Earlier(found(e.name).value)
                          && (found(e.name).value == "completed" || !retryFailed)
    ensures forall j :: j in pending ==>
                          found(j.name).None? || (found(j.name).value != "completed" && retryFailed)
  {
    NamesDistinct(o);
    var texts := CaseTexts(o);
    cases, pending := [], [];
    for i := 0 to |texts|
      invariant Listed(texts[..i], cases, pending)
      invariant forall e :: e in cases ==> Kept(found(e.name), retryFailed) && e.status == Earlier(found(e.name).value)
      invariant forall j :: j in pending ==> !Kept(found(j.name), retryFailed)
    {
      var name := CaseName(texts[i]);
      var previous := found(name);
      NextIsNew(texts, i);
      ListNext(texts[..i], texts[i], cases, pending, Entry(name, Earlier("")), jobFor(name));
      if Kept(previous, retryFailed) {
        ListNext(texts[..i], texts[i], cases, pending, Entry(name, Earlier(previous.value)), jobFor(name));
        cases := cases + [Entry(name, Earlier(previous.value))];
      } else {
        pending := pending + [jobFor(name)];
      }
    }
    assert texts[..|texts|] == texts;
  }

  lemma {:induction false} NextIsNew(texts: seq<string>, i: nat)
    requires NoRepeat(texts) && i < |texts|
    ensures texts[i] !in texts[..i] && texts[..i + 1] == texts[..i] + [texts[i]]
  {
    if i < |texts| - 1 {
      var front := texts[..|texts| - 1];
      NextIsNew(front, i);
      assert front[..i] == texts[..i];
    }
  }

  // The whole command: with no option given twice, a normal return leaves
  // exactly one entry for every combination.
  method Sweep(o: Options, found: Found, retryFailed: bool, jobFor: CaseName -> Job, sessions: Sessions)
      returns (res: Result<(), SweepError>, cases: seq<Entry>)
    requires Admitted(o) && GivenOnce(o) && (forall n :: jobFor(n).name == n) && AllObservable(sessions)
    ensures res.Ok? ==>
              && DistinctEntries(cases) && AllSettled(cases)
              && forall t :: t in CaseTexts(o) <==> CaseName(t) in EntryNames(cases)
  {
    var pending;
    cases, pending := ListCases(o, found, retryFailed, jobFor);
    res := Ok(());
    if |pending| > 0 {
      var used;
      res, cases, used := Run(pending, cases, sessions);
    }
  }
}
