// Greedy line breaking at comma-separated parts (baselines/report.py, wrapped).
module Wrapping {
  const SEPARATOR := ", "

  // text.split(", ")
  function Split(text: string): (parts: seq<string>)
    ensures |parts| > 0
  {
    if |text| == 0 then [""]
    else if SEPARATOR <= text then [""] + Split(text[2..])
    else
      var rest := Split(text[1..]);
      [[text[0]] + rest[0]] + rest[1..]
  }

  function Join(parts: seq<string>, between: string): string {
    if |parts| == 0 then ""
    else if |parts| == 1 then parts[0]
    else parts[0] + between + Join(parts[1..], between)
  }

  lemma JoinCons(head: string, parts: seq<string>, between: string)
    requires |parts| > 0
    ensures Join([head] + parts, between) == head + between + Join(parts, between)
  {
    assert ([head] + parts)[1..] == parts;
  }

  lemma JoinPrefix(c: char, parts: seq<string>, between: string)
    requires |parts| > 0
    ensures Join([[c] + parts[0]] + parts[1..], between) == [c] + Join(parts, between)
  {
    if |parts| > 1 {
      JoinCons([c] + parts[0], parts[1..], between);
      var rest := Join(parts[1..], between);
      assert ([c] + parts[0]) + between + rest == [c] + (parts[0] + between + rest);
    }
  }

  lemma {:induction false} SplitThenJoin(text: string)
    ensures Join(Split(text), SEPARATOR) == text
  {
    if |text| == 0 {
    } else if SEPARATOR <= text {
      SplitThenJoin(text[2..]);
      JoinCons("", Split(text[2..]), SEPARATOR);
      assert text == SEPARATOR + text[2..];
    } else {
      SplitThenJoin(text[1..]);
      JoinPrefix(text[0], Split(text[1..]), SEPARATOR);
      assert text == [text[0]] + text[1..];
    }
  }

  // A text that the separator does not occur in.
  predicate Unbroken(text: string) {
    |text| == 0 || (!(SEPARATOR <= text) && Unbroken(text[1..]))
  }

  lemma Leads(text: string)
    ensures SEPARATOR <= text <==> |text| >= 2 && text[0] == ',' && text[1] == ' '
  {}

  lemma JoinLeads(parts: seq<string>)
    requires |parts| > 0
    ensures |parts[0]| > 0 ==> |Join(parts, SEPARATOR)| > 0 && Join(parts, SEPARATOR)[0] == parts[0][0]
    ensures |parts[0]| == 0 && |parts| > 1 ==> |Join(parts, SEPARATOR)| > 0 && Join(parts, SEPARATOR)[0] == ','
    ensures |parts[0]| == 0 && |parts| == 1 ==> Join(parts, SEPARATOR) == ""
  {}

  // Where a part goes on, so does the text: one more character makes a
  // separator of both or of neither.
  lemma LeadsAlike(c: char, parts: seq<string>)
    requires |parts| > 0
    ensures SEPARATOR <= [c] + Join(parts, SEPARATOR) <==> SEPARATOR <= [c] + parts[0]
  {
    JoinLeads(parts);
    SecondLeads(c, parts[0]);
    SecondLeads(c, Join(parts, SEPARATOR));
  }

  lemma SecondLeads(c: char, text: string)
    ensures SEPARATOR <= [c] + text <==> c == ',' && |text| > 0 && text[0] == ' '
  {
    var longer := [c] + text;
    Leads(longer);
    assert longer[0] == c && (|text| > 0 ==> longer[1] == text[0]);
  }

  // No part contains the separator, and the parts of a text are the only ones
  // without it that join to the text.
  lemma {:induction false} PartsUnbroken(text: string)
    ensures forall i :: 0 <= i < |Split(text)| ==> Unbroken(Split(text)[i])
  {
    if |text| == 0 {
    } else if SEPARATOR <= text {
      PartsUnbroken(text[2..]);
    } else {
      var rest := Split(text[1..]);
      PartsUnbroken(text[1..]);
      SplitThenJoin(text[1..]);
      LeadsAlike(text[0], rest);
      assert text == [text[0]] + text[1..] && ([text[0]] + rest[0])[1..] == rest[0];
    }
  }

  lemma {:induction false} JoinThenSplit(parts: seq<string>)
    requires |parts| > 0 && forall i :: 0 <= i < |parts| ==> Unbroken(parts[i])
    ensures Split(Join(parts, SEPARATOR)) == parts
    decreases |parts|, |parts[0]|
  {
    var text := Join(parts, SEPARATOR);
    if |parts[0]| > 0 {
      var c, tail := parts[0][0], parts[0][1..];
      var less := [tail] + parts[1..];
      assert parts[0] == [c] + tail;
      assert less[1..] == parts[1..] && [[c] + less[0]] + less[1..] == parts;
      JoinPrefix(c, less, SEPARATOR);
      assert text == [c] + Join(less, SEPARATOR) && text[1..] == Join(less, SEPARATOR);
      JoinThenSplit(less);
      LeadsAlike(c, less);
    } else if |parts| > 1 {
      JoinThenSplit(parts[1..]);
      assert text == SEPARATOR + Join(parts[1..], SEPARATOR);
      assert text[2..] == Join(parts[1..], SEPARATOR);
      assert parts == [""] + parts[1..];
    } else {
      assert parts == [""];
    }
  }

  // ----- Groupings of the parts into lines -----

  // The length of a line holding these parts.
  function Length(parts: seq<string>): nat {
    if |parts| == 0 then 0
    else if |parts| == 1 then |parts[0]|
    else |parts[0]| + 2 + Length(parts[1..])
  }

  // An in-order grouping, as the number of parts on each line: a line of two
  // or more parts fits the width.
  predicate Grouping(parts: seq<string>, sizes: seq<nat>, width: int) {
    if |sizes| == 0 then |parts| == 0
    else
      var k := sizes[|sizes| - 1];
      && 1 <= k <= |parts|
      && (k == 1 || Length(parts[|parts| - k..]) <= width)
      && Grouping(parts[..|parts| - k], sizes[..|sizes| - 1], width)
  }

  function Lines(parts: seq<string>, sizes: seq<nat>, width: int): seq<string>
    requires Grouping(parts, sizes, width)
  {
    if |sizes| == 0 then []
    else
      var k := sizes[|sizes| - 1];
      Lines(parts[..|parts| - k], sizes[..|sizes| - 1], width) + [Join(parts[|parts| - k..], SEPARATOR)]
  }

  lemma JoinLength(parts: seq<string>)
    ensures |Join(parts, SEPARATOR)| == Length(parts)
  {}

  lemma JoinAppend(parts: seq<string>, part: string, between: string)
    requires |parts| > 0
    ensures Join(parts + [part], between) == Join(parts, between) + between + part
  {
    if |parts| > 1 {
      JoinAppend(parts[1..], part, between);
      assert (parts + [part])[1..] == parts[1..] + [part];
    } else {
      assert (parts + [part])[1..] == [part];
    }
  }

  lemma LengthAppend(parts: seq<string>, part: string)
    ensures Length(parts + [part]) == if |parts| == 0 then |part| else Length(parts) + 2 + |part|
  {
    if |parts| > 0 {
      LengthAppend(parts[1..], part);
      assert (parts + [part])[1..] == parts[1..] + [part];
    }
  }

  lemma LengthOfSuffix(parts: seq<string>, k: nat)
    requires k < |parts|
    ensures Length(parts[k..]) <= Length(parts)
  {
    if k > 0 {
      LengthOfSuffix(parts[1..], k - 1);
      assert parts[1..][k - 1..] == parts[k..];
    }
  }

  // Putting lines back together, however they were grouped, gives the text.
  lemma LinesRejoin(parts: seq<string>, sizes: seq<nat>, width: int)
    requires Grouping(parts, sizes, width)
    ensures Join(Lines(parts, sizes, width), SEPARATOR) == Join(parts, SEPARATOR)
    ensures |Lines(parts, sizes, width)| == |sizes|
  {
    if |sizes| > 0 {
      var k := sizes[|sizes| - 1];
      var front, tail := parts[..|parts| - k], parts[|parts| - k..];
      LinesRejoin(front, sizes[..|sizes| - 1], width);
      if |sizes| > 1 {
        JoinAppend(Lines(front, sizes[..|sizes| - 1], width), Join(tail, SEPARATOR), SEPARATOR);
        JoinSplit(front, tail);
        assert front + tail == parts;
      } else {
        assert parts[0..] == parts;
      }
    }
  }

  lemma {:induction false} JoinSplit(a: seq<string>, b: seq<string>)
    requires |a| > 0 && |b| > 0
    ensures Join(a + b, SEPARATOR) == Join(a, SEPARATOR) + SEPARATOR + Join(b, SEPARATOR)
  {
    if |a| == 1 {
      assert a + b == [a[0]] + b;
      JoinCons(a[0], b, SEPARATOR);
    } else {
      JoinSplit(a[1..], b);
      assert a + b == [a[0]] + (a[1..] + b) && a == [a[0]] + a[1..];
      JoinCons(a[0], a[1..] + b, SEPARATOR);
      JoinCons(a[0], a[1..], SEPARATOR);
      Regroup(a[0] + SEPARATOR, Join(a[1..], SEPARATOR), SEPARATOR, Join(b, SEPARATOR));
    }
  }

  lemma Regroup(a: string, b: string, c: string, d: string)
    ensures a + (b + c + d) == a + b + c + d
  {}

  // ----- Greedy stays ahead -----

  // The greedy lines are as few as any, and among groupings with as few lines
  // none has fewer parts on its last line.
  ghost predicate Best(parts: seq<string>, sizes: seq<nat>, width: int) {
    forall g :: Grouping(parts, g, width) ==>
      && |sizes| <= |g|
      && (|g| == |sizes| && |g| > 0 ==> sizes[|sizes| - 1] <= g[|g| - 1])
  }

  // The grouping of all parts but the last one that a grouping of all induces.
  function Shrink(g: seq<nat>): seq<nat>
    requires |g| > 0
  {
    var k := g[|g| - 1];
    if k <= 1 then g[..|g| - 1] else g[..|g| - 1] + [k - 1]
  }

  lemma ShrinkGroups(parts: seq<string>, part: string, g: seq<nat>, width: int)
    requires Grouping(parts + [part], g, width)
    ensures |g| > 0 && Grouping(parts, Shrink(g), width)
  {
    var all := parts + [part];
    var k := g[|g| - 1];
    if k == 1 {
      assert all[..|all| - 1] == parts;
    } else {
      assert all[..|all| - k] == parts[..|parts| - (k - 1)];
      assert all[|all| - k..] == parts[|parts| - (k - 1)..] + [part];
      LengthAppend(parts[|parts| - (k - 1)..], part);
      assert Shrink(g)[..|g| - 1] == g[..|g| - 1];
    }
  }

  lemma JoinedGroups(parts: seq<string>, part: string, sizes: seq<nat>, width: int)
    requires Grouping(parts, sizes, width) && |sizes| > 0
    requires Length(parts[|parts| - sizes[|sizes| - 1]..]) + 2 + |part| <= width
    ensures Grouping(parts + [part], sizes[|sizes| - 1 := sizes[|sizes| - 1] + 1], width)
  {
    var k := sizes[|sizes| - 1];
    var more := sizes[|sizes| - 1 := k + 1];
    var all := parts + [part];
    assert all[..|all| - (k + 1)] == parts[..|parts| - k];
    assert all[|all| - (k + 1)..] == parts[|parts| - k..] + [part];
    LengthAppend(parts[|parts| - k..], part);
    assert more[..|more| - 1] == sizes[..|sizes| - 1];
  }

  lemma GreedyJoins(parts: seq<string>, part: string, sizes: seq<nat>, width: int)
    requires Grouping(parts, sizes, width) && |sizes| > 0 && Best(parts, sizes, width)
    requires Length(parts[|parts| - sizes[|sizes| - 1]..]) + 2 + |part| <= width
    ensures var more := sizes[|sizes| - 1 := sizes[|sizes| - 1] + 1];
            Grouping(parts + [part], more, width) && Best(parts + [part], more, width)
  {
    JoinedGroups(parts, part, sizes, width);
    var k := sizes[|sizes| - 1];
    forall g | Grouping(parts + [part], g, width)
      ensures |sizes| <= |g| && (|g| == |sizes| && |g| > 0 ==> k + 1 <= g[|g| - 1])
    {
      JoinIsBest(parts, part, sizes, g, width);
    }
  }

  lemma JoinIsBest(parts: seq<string>, part: string, sizes: seq<nat>, g: seq<nat>, width: int)
    requires Grouping(parts, sizes, width) && |sizes| > 0 && Best(parts, sizes, width)
    requires Grouping(parts + [part], g, width)
    ensures |sizes| <= |g| && (|g| == |sizes| ==> sizes[|sizes| - 1] + 1 <= g[|g| - 1])
  {
    ShrinkGroups(parts, part, g, width);
    BestBeats(parts, sizes, Shrink(g), width);
  }

  lemma BrokenGroups(parts: seq<string>, part: string, sizes: seq<nat>, width: int)
    requires Grouping(parts, sizes, width)
    ensures Grouping(parts + [part], sizes + [1], width)
  {
    var all := parts + [part];
    assert all[..|all| - 1] == parts && (sizes + [1])[..|sizes|] == sizes;
  }

  lemma GreedyBreaks(parts: seq<string>, part: string, sizes: seq<nat>, width: int)
    requires Grouping(parts, sizes, width) && Best(parts, sizes, width)
    requires |sizes| > 0 ==> Length(parts[|parts| - sizes[|sizes| - 1]..]) + 2 + |part| > width
    ensures Grouping(parts + [part], sizes + [1], width) && Best(parts + [part], sizes + [1], width)
  {
    BrokenGroups(parts, part, sizes, width);
    forall g | Grouping(parts + [part], g, width)
      ensures |sizes| + 1 <= |g| && g[|g| - 1] >= 1
    {
      BreakIsNeeded(parts, part, sizes, g, width);
    }
  }

  lemma {:induction false} BreakIsNeeded(parts: seq<string>, part: string, sizes: seq<nat>, g: seq<nat>, width: int)
    requires Grouping(parts, sizes, width) && Best(parts, sizes, width)
    requires |sizes| > 0 ==> Length(parts[|parts| - sizes[|sizes| - 1]..]) + 2 + |part| > width
    requires Grouping(parts + [part], g, width)
    ensures |sizes| + 1 <= |g| && g[|g| - 1] >= 1
  {
    ShrinkGroups(parts, part, g, width);
    LastSizePositive(parts + [part], g, width);
    BestBeats(parts, sizes, Shrink(g), width);
    if g[|g| - 1] > 1 && |sizes| > 0 {
      LastLineIsShort(parts, part, sizes[|sizes| - 1], g, width);
    }
  }

  lemma {:induction false} LastSizePositive(parts: seq<string>, g: seq<nat>, width: int)
    requires Grouping(parts, g, width) && |g| > 0
    ensures 1 <= g[|g| - 1] <= |parts|
  {}

  lemma {:induction false} BestBeats(parts: seq<string>, sizes: seq<nat>, g: seq<nat>, width: int)
    requires Best(parts, sizes, width) && Grouping(parts, g, width)
    ensures |sizes| <= |g| && (|g| == |sizes| && |g| > 0 ==> sizes[|sizes| - 1] <= g[|g| - 1])
  {}

  lemma SuffixLengths(parts: seq<string>, short: nat, long: nat)
    requires 1 <= short <= long <= |parts|
    ensures Length(parts[|parts| - short..]) <= Length(parts[|parts| - long..])
  {
    LengthOfSuffix(parts[|parts| - long..], long - short);
    assert parts[|parts| - long..][long - short..] == parts[|parts| - short..];
  }

  // When the greedy last line cannot take another part, no line of another
  // grouping can hold that part and at least as many before it.
  lemma LastLineIsShort(parts: seq<string>, part: string, own: nat, g: seq<nat>, width: int)
    requires Grouping(parts + [part], g, width) && |g| > 0 && g[|g| - 1] > 1
    requires 1 <= own <= |parts| && Length(parts[|parts| - own..]) + 2 + |part| > width
    ensures g[|g| - 1] - 1 < own
  {
    var all := parts + [part];
    var k := g[|g| - 1];
    var tail := parts[|parts| - (k - 1)..];
    assert all[|all| - k..] == tail + [part];
    LengthAppend(tail, part);
    if own <= k - 1 {
      SuffixLengths(parts, own, k - 1);
    }
  }

  // ----- The lines, from the front -----

  // How many leading parts fit on one line, and at least one: the parts that
  // follow the first m are taken while the joined prefix fits.
  function FirstLine(parts: seq<string>, width: int, m: nat): (k: nat)
    requires 1 <= m <= |parts|
    ensures m <= k <= |parts|
    ensures k > m ==> Length(parts[..k]) <= width
    ensures k < |parts| ==> Length(parts[..k + 1]) > width
    decreases |parts| - m
  {
    if m < |parts| && Length(parts[..m + 1]) <= width then FirstLine(parts, width, m + 1) else m
  }

  // Line by line: the longest prefix that fits, then the rest in the same way.
  function GreedySizes(parts: seq<string>, width: int): seq<nat> {
    if |parts| == 0 then []
    else
      var k := FirstLine(parts, width, 1);
      [k] + GreedySizes(parts[k..], width)
  }

  // A longer prefix is a longer line.
  lemma {:induction false} PrefixGrows(parts: seq<string>, i: nat, j: nat)
    requires 1 <= i < j <= |parts|
    ensures Length(parts[..i]) < Length(parts[..j])
  {
    assert parts[..j] == parts[..j - 1] + [parts[j - 1]];
    LengthAppend(parts[..j - 1], parts[j - 1]);
    if i < j - 1 {
      PrefixGrows(parts, i, j - 1);
    }
  }

  // Lengths decide how many parts the first line takes.
  lemma FirstLineIs(parts: seq<string>, width: int, k: nat)
    requires 1 <= k <= |parts| && (k == 1 || Length(parts[..k]) <= width)
    requires k < |parts| ==> Length(parts[..k + 1]) > width
    ensures FirstLine(parts, width, 1) == k
  {
    var f := FirstLine(parts, width, 1);
    if f < k {
      if f + 1 < k {
        PrefixGrows(parts, f + 1, k);
      }
    } else if f > k {
      if k + 1 < f {
        PrefixGrows(parts, k + 1, f);
      }
    }
  }

  lemma FirstLineOfMore(parts: seq<string>, part: string, width: int)
    requires |parts| > 0
    ensures var k, all := FirstLine(parts, width, 1), parts + [part];
            FirstLine(all, width, 1) == if k == |parts| && Length(all) <= width then k + 1 else k
  {
    var k, all := FirstLine(parts, width, 1), parts + [part];
    assert all[..k] == parts[..k];
    if k < |parts| {
      assert all[..k + 1] == parts[..k + 1];
      FirstLineIs(all, width, k);
    } else {
      assert all[..k + 1] == all;
      FirstLineIs(all, width, if Length(all) <= width then k + 1 else k);
    }
  }

  // The last of these lines has room for another part.
  predicate Takes(parts: seq<string>, sizes: seq<nat>, part: string, width: int) {
    && |sizes| > 0 && 1 <= sizes[|sizes| - 1] <= |parts|
    && Length(parts[|parts| - sizes[|sizes| - 1]..]) + 2 + |part| <= width
  }

  // The part goes there when there is room, and otherwise on a line of its own.
  function Grown(parts: seq<string>, sizes: seq<nat>, part: string, width: int): seq<nat> {
    if Takes(parts, sizes, part, width) then sizes[|sizes| - 1 := sizes[|sizes| - 1] + 1] else sizes + [1]
  }

  lemma GrownBehind(parts: seq<string>, k: nat, rest: seq<nat>, part: string, width: int)
    requires k < |parts| && |rest| > 0 && 1 <= rest[|rest| - 1] <= |parts| - k
    ensures Grown(parts, [k] + rest, part, width) == [k] + Grown(parts[k..], rest, part, width)
  {
    var last := rest[|rest| - 1];
    assert parts[k..][|parts| - k - last..] == parts[|parts| - last..];
    assert ([k] + rest)[|rest|] == last;
    assert ([k] + rest)[|rest| := last + 1] == [k] + rest[|rest| - 1 := last + 1];
    assert [k] + rest + [1] == [k] + (rest + [1]);
  }

  // Laying out the parts one at a time, as the loop does, gives the greedy
  // lines.
  lemma {:induction false} GreedySizesAppend(parts: seq<string>, part: string, width: int)
    ensures var sizes := GreedySizes(parts, width);
            && (|parts| > 0 ==> |sizes| > 0 && 1 <= sizes[|sizes| - 1] <= |parts|)
            && GreedySizes(parts + [part], width) == Grown(parts, sizes, part, width)
  {
    if |parts| == 0 {
      assert parts + [part] == [part] && [part][1..] == [];
    } else {
      var k := FirstLine(parts, width, 1);
      if k < |parts| {
        GreedySizesAppend(parts[k..], part, width);
        GrownBehind(parts, k, GreedySizes(parts[k..], width), part, width);
        TailAppend(parts, part, width);
      } else {
        OneLineAppend(parts, part, width);
      }
    }
  }

  lemma TailAppend(parts: seq<string>, part: string, width: int)
    requires |parts| > 0 && FirstLine(parts, width, 1) < |parts|
    ensures var k := FirstLine(parts, width, 1);
            GreedySizes(parts + [part], width) == [k] + GreedySizes(parts[k..] + [part], width)
  {
    FirstLineOfMore(parts, part, width);
    var k := FirstLine(parts, width, 1);
    assert (parts + [part])[k..] == parts[k..] + [part];
  }

  lemma OneLineAppend(parts: seq<string>, part: string, width: int)
    requires |parts| > 0 && FirstLine(parts, width, 1) == |parts|
    ensures GreedySizes(parts, width) == [|parts|]
    ensures GreedySizes(parts + [part], width) == Grown(parts, [|parts|], part, width)
  {
    var k, all := |parts|, parts + [part];
    assert parts[k..] == [] && parts[0..] == parts;
    FirstLineOfMore(parts, part, width);
    LengthAppend(parts, part);
    if Length(all) <= width {
      assert all[k + 1..] == [];
      assert [k][0 := k + 1] == [k + 1];
    } else {
      assert all[k..] == [part] && [part][1..] == [];
      assert [k] + [1] == [k, 1];
    }
  }

  function GreedyLines(parts: seq<string>, width: int): seq<string> {
    if |parts| == 0 then []
    else
      var k := FirstLine(parts, width, 1);
      [Join(parts[..k], SEPARATOR)] + GreedyLines(parts[k..], width)
  }

  lemma {:induction false} LinesFromFront(parts: seq<string>, k: nat, rest: seq<nat>, width: int)
    requires 1 <= k <= |parts| && Grouping(parts[k..], rest, width) && Grouping(parts, [k] + rest, width)
    ensures Lines(parts, [k] + rest, width) == [Join(parts[..k], SEPARATOR)] + Lines(parts[k..], rest, width)
  {
    var sizes := [k] + rest;
    if |rest| == 0 {
      assert sizes == [k] && parts[|parts| - k..] == parts == parts[..k];
    } else {
      var n := rest[|rest| - 1];
      CutBehind(parts, k, n);
      assert sizes[|sizes| - 1] == n && sizes[..|sizes| - 1] == [k] + rest[..|rest| - 1];
      LinesFromFront(parts[..|parts| - n], k, rest[..|rest| - 1], width);
    }
  }

  lemma CutBehind(parts: seq<string>, k: nat, n: nat)
    requires k + n <= |parts|
    ensures parts[k..][..|parts[k..]| - n] == parts[..|parts| - n][k..]
    ensures parts[k..][|parts[k..]| - n..] == parts[|parts| - n..]
    ensures parts[..|parts| - n][..k] == parts[..k]
  {}

  lemma {:induction false} GroupingFromFront(parts: seq<string>, k: nat, rest: seq<nat>, width: int)
    requires 1 <= k <= |parts| && (k == 1 || Length(parts[..k]) <= width) && Grouping(parts[k..], rest, width)
    ensures Grouping(parts, [k] + rest, width)
  {
    var sizes := [k] + rest;
    if |rest| == 0 {
      assert sizes == [k] && parts[|parts| - k..] == parts == parts[..k];
    } else {
      var n := rest[|rest| - 1];
      CutBehind(parts, k, n);
      assert sizes[|sizes| - 1] == n && sizes[..|sizes| - 1] == [k] + rest[..|rest| - 1];
      GroupingFromFront(parts[..|parts| - n], k, rest[..|rest| - 1], width);
    }
  }

  // The lines counted from the back are those taken from the front.
  lemma {:induction false} GreedyLinesAre(parts: seq<string>, width: int)
    ensures Grouping(parts, GreedySizes(parts, width), width)
    ensures Lines(parts, GreedySizes(parts, width), width) == GreedyLines(parts, width)
  {
    if |parts| > 0 {
      var k := FirstLine(parts, width, 1);
      GreedyLinesAre(parts[k..], width);
      GroupingFromFront(parts, k, GreedySizes(parts[k..], width), width);
      LinesFromFront(parts, k, GreedySizes(parts[k..], width), width);
    }
  }

  // The lines laid out so far.
  ghost predicate LaidOut(parts: seq<string>, lines: seq<string>, sizes: seq<nat>, width: int) {
    Grouping(parts, sizes, width) && Best(parts, sizes, width) && lines == Lines(parts, sizes, width)
  }

  lemma LayOne(parts: seq<string>, part: string, lines: seq<string>, sizes: seq<nat>, width: int)
    requires LaidOut(parts, lines, sizes, width)
    ensures |lines| == |sizes|
    ensures if |lines| > 0 && |lines[|lines| - 1]| + 2 + |part| <= width then
              LaidOut(parts + [part], lines[|lines| - 1 := lines[|lines| - 1] + SEPARATOR + part],
                      sizes[|sizes| - 1 := sizes[|sizes| - 1] + 1], width)
            else LaidOut(parts + [part], lines + [part], sizes + [1], width)
  {
    LinesRejoin(parts, sizes, width);
    if |lines| > 0 {
      LastLine(parts, sizes, width);
    }
    if |lines| > 0 && |lines[|lines| - 1]| + 2 + |part| <= width {
      GreedyJoins(parts, part, sizes, width);
      JoinedLines(parts, part, sizes, width);
    } else {
      GreedyBreaks(parts, part, sizes, width);
      BrokenLines(parts, part, sizes, width);
    }
  }

  // One turn of the loop: the part joins the last line if it fits there.
  method Place(part: string, lines: seq<string>, width: int, ghost before: seq<string>, ghost sizes: seq<nat>)
      returns (placed: seq<string>, ghost more: seq<nat>)
    requires LaidOut(before, lines, sizes, width)
    ensures LaidOut(before + [part], placed, more, width) && more == Grown(before, sizes, part, width)
  {
    LayOne(before, part, lines, sizes, width);
    if |lines| > 0 {
      LastLine(before, sizes, width);
    }
    if |lines| > 0 && |lines[|lines| - 1]| + 2 + |part| <= width {
      placed := lines[|lines| - 1 := lines[|lines| - 1] + SEPARATOR + part];
      more := sizes[|sizes| - 1 := sizes[|sizes| - 1] + 1];
    } else {
      placed := lines + [part];
      more := sizes + [1];
    }
  }

  lemma OneMore(parts: seq<string>, i: nat)
    requires i <= |parts|
    ensures i < |parts| ==> parts[..i + 1] == parts[..i] + [parts[i]]
    ensures i == |parts| ==> parts[..i] == parts
  {}

  method LayOut(parts: seq<string>, width: int) returns (lines: seq<string>, ghost sizes: seq<nat>)
    ensures LaidOut(parts, lines, sizes, width) && sizes == GreedySizes(parts, width)
  {
    lines, sizes := [], [];
    ghost var done: seq<string> := [];
    OneMore(parts, |parts|);
    for i := 0 to |parts|
      invariant done == parts[..i]
      invariant LaidOut(done, lines, sizes, width) && sizes == GreedySizes(done, width)
    {
      OneMore(parts, i);
      GreedySizesAppend(done, parts[i], width);
      lines, sizes := Place(parts[i], lines, width, done, sizes);
      done := done + [parts[i]];
    }
  }

  // Fewest lines, no part split, nothing lost: the lines are those of the best
  // grouping of the text's own parts, each as long as it can be.
  method Wrapped(text: string, width: int) returns (out: string, lines: seq<string>, ghost sizes: seq<nat>)
    ensures Grouping(Split(text), sizes, width) && lines == Lines(Split(text), sizes, width)
    ensures forall g :: Grouping(Split(text), g, width) ==> |lines| <= |g|
    ensures Join(lines, SEPARATOR) == text
    ensures lines == GreedyLines(Split(text), width)
    ensures out == Join(lines, ",\n")
  {
    lines, sizes := LayOut(Split(text), width);
    GreedyLinesAre(Split(text), width);
    LinesRejoin(Split(text), sizes, width);
    SplitThenJoin(text);
    out := Join(lines, ",\n");
  }

  lemma LastLine(parts: seq<string>, sizes: seq<nat>, width: int)
    requires Grouping(parts, sizes, width) && |sizes| > 0
    ensures var lines := Lines(parts, sizes, width);
            var tail := parts[|parts| - sizes[|sizes| - 1]..];
            |lines| > 0 && lines[|lines| - 1] == Join(tail, SEPARATOR) && |lines[|lines| - 1]| == Length(tail)
  {
    JoinLength(parts[|parts| - sizes[|sizes| - 1]..]);
  }

  lemma JoinedLines(parts: seq<string>, part: string, sizes: seq<nat>, width: int)
    requires Grouping(parts, sizes, width) && |sizes| > 0
    requires Grouping(parts + [part], sizes[|sizes| - 1 := sizes[|sizes| - 1] + 1], width)
    ensures var more := sizes[|sizes| - 1 := sizes[|sizes| - 1] + 1];
            var lines := Lines(parts, sizes, width);
            |lines| > 0 && Lines(parts + [part], more, width)
                           == lines[|lines| - 1 := lines[|lines| - 1] + SEPARATOR + part]
  {
    var k := sizes[|sizes| - 1];
    var more := sizes[|sizes| - 1 := k + 1];
    var all := parts + [part];
    var front := Lines(parts[..|parts| - k], sizes[..|sizes| - 1], width);
    var last := Join(parts[|parts| - k..], SEPARATOR);
    assert all[..|all| - (k + 1)] == parts[..|parts| - k];
    assert all[|all| - (k + 1)..] == parts[|parts| - k..] + [part];
    assert more[..|more| - 1] == sizes[..|sizes| - 1];
    JoinAppend(parts[|parts| - k..], part, SEPARATOR);
    LastReplaced(front, last, last + SEPARATOR + part);
  }

  lemma LastReplaced(front: seq<string>, last: string, line: string)
    ensures (front + [last])[|front| := line] == front + [line]
  {}

  lemma BrokenLines(parts: seq<string>, part: string, sizes: seq<nat>, width: int)
    requires Grouping(parts, sizes, width) && Grouping(parts + [part], sizes + [1], width)
    ensures Lines(parts + [part], sizes + [1], width) == Lines(parts, sizes, width) + [part]
  {
    var all := parts + [part];
    assert all[..|all| - 1] == parts && all[|all| - 1..] == [part];
    assert (sizes + [1])[..|sizes|] == sizes;
  }
}
