// How wide the wrapped lines are printed (baselines/report.py, wrapped): the
// docstring promises at most `width` characters, but the comma that ends every
// line except the last is not counted.
module LineWidths {
  import opened Wrapping

  // The printed lines, without the newlines between them.
  function Printed(lines: seq<string>): seq<string> {
    if |lines| <= 1 then lines else [lines[0] + ","] + Printed(lines[1..])
  }

  lemma {:induction false} PrintedJoins(lines: seq<string>)
    ensures Join(Printed(lines), "\n") == Join(lines, ",\n")
  {
    if |lines| > 1 {
      PrintedJoins(lines[1..]);
      JoinCons(lines[0] + ",", Printed(lines[1..]), "\n");
      assert lines[0] + ",\n" == lines[0] + "," + "\n";
    }
  }

  predicate AllWithin(lines: seq<string>, width: int) {
    forall i :: 0 <= i < |lines| ==> |lines[i]| <= width
  }

  // What the parts must satisfy: where a line starts, the part there is not too
  // long by itself, and no proper prefix of what is left fills the width
  // exactly; and so on from where the next line starts.
  ghost predicate NeverFilled(parts: seq<string>, width: int) {
    |parts| == 0
    || (|parts[0]| <= width
        && (forall m :: 1 <= m < |parts| ==> Length(parts[..m]) != width)
        && NeverFilled(parts[FirstLine(parts, width, 1)..], width))
  }

  lemma JoinWidth(parts: seq<string>)
    ensures |Join(parts, SEPARATOR)| == Length(parts)
  {
    JoinLength(parts);
  }

  // A first line with others after it is printed with its comma: it is within
  // the width exactly when its part is and no proper prefix fills the width.
  lemma FirstOfSeveral(parts: seq<string>, width: int)
    requires |parts| > 0 && FirstLine(parts, width, 1) < |parts|
    ensures Length(parts[..FirstLine(parts, width, 1)]) + 1 <= width
            <==> |parts[0]| <= width && forall m :: 1 <= m < |parts| ==> Length(parts[..m]) != width
  {
    var k := FirstLine(parts, width, 1);
    assert Length(parts[..1]) == |parts[0]|;
    forall m | 1 <= m < |parts| && m != k
      ensures m < k ==> Length(parts[..m]) < Length(parts[..k])
      ensures m > k ==> Length(parts[..m]) > width
    {
      if m < k {
        PrefixGrows(parts, m, k);
      } else if m > k + 1 {
        PrefixGrows(parts, k + 1, m);
      }
    }
    if 1 < k {
      PrefixGrows(parts, 1, k);
    }
  }

  // A last line is printed as it is.
  lemma LastOfAll(parts: seq<string>, width: int)
    requires |parts| > 0 && FirstLine(parts, width, 1) == |parts|
    ensures Length(parts) <= width <==>
              |parts[0]| <= width && forall m :: 1 <= m < |parts| ==> Length(parts[..m]) != width
  {
    var k := |parts|;
    assert parts[..k] == parts && Length(parts[..1]) == |parts[0]|;
    forall m | 1 <= m < k
      ensures Length(parts[..m]) < Length(parts)
    {
      PrefixGrows(parts, m, k);
    }
  }

  lemma PrintedCons(line: string, rest: seq<string>, width: int)
    requires |rest| > 0
    ensures AllWithin(Printed([line] + rest), width) <==> |line| + 1 <= width && AllWithin(Printed(rest), width)
  {
    var all := Printed([line] + rest);
    assert ([line] + rest)[1..] == rest;
    assert all == [line + ","] + Printed(rest);
    assert forall i :: 0 <= i < |Printed(rest)| ==> all[i + 1] == Printed(rest)[i];
    assert |all[0]| == |line| + 1;
  }

  // For every text and width: every printed line keeps the promise exactly
  // when, at every line start, the part fits and no proper prefix of the rest
  // joins to exactly the width.
  lemma {:induction false} PromiseKept(parts: seq<string>, width: int)
    ensures AllWithin(Printed(GreedyLines(parts, width)), width) <==> NeverFilled(parts, width)
  {
    if |parts| > 0 {
      var k := FirstLine(parts, width, 1);
      var line, rest := Join(parts[..k], SEPARATOR), parts[k..];
      JoinWidth(parts[..k]);
      PromiseKept(rest, width);
      if k < |parts| {
        FirstOfSeveral(parts, width);
        assert |GreedyLines(rest, width)| > 0;
        PrintedCons(line, GreedyLines(rest, width), width);
      } else {
        LastOfAll(parts, width);
        assert rest == [] && parts[..k] == parts;
        assert GreedyLines(parts, width) == [line];
      }
    }
  }

  lemma WrappedWidth(text: string, width: int)
    ensures AllWithin(Printed(GreedyLines(Split(text), width)), width) <==> NeverFilled(Split(text), width)
    ensures Join(Printed(GreedyLines(Split(text), width)), "\n") == Join(GreedyLines(Split(text), width), ",\n")
  {
    PromiseKept(Split(text), width);
    PrintedJoins(GreedyLines(Split(text), width));
  }

  // Any text of more than m parts, at the width its first m parts fill: some
  // printed line is too long.
  lemma FilledIsTooWide(text: string, m: nat)
    requires 1 <= m < |Split(text)|
    ensures var width := Length(Split(text)[..m]);
            !AllWithin(Printed(GreedyLines(Split(text), width)), width)
  {
    var width := Length(Split(text)[..m]);
    WrappedWidth(text, width);
    assert !NeverFilled(Split(text), width);
  }

  lemma SplitLetter(c: char, rest: string)
    requires c != ','
    ensures Split([c] + SEPARATOR + rest) == [[c]] + Split(rest)
  {
    var text := [c] + SEPARATOR + rest;
    var tail := text[1..];
    assert tail == SEPARATOR + rest && tail[2..] == rest && text[0] == c;
    assert !(SEPARATOR <= text) && SEPARATOR <= tail;
    assert Split(tail) == [""] + Split(rest);
    assert [c] + "" == [c] && ([""] + Split(rest))[1..] == Split(rest);
  }

  lemma SplitLast(c: char)
    ensures Split([c]) == [[c]]
  {
    assert [c][1..] == "" && [c] + "" == [c];
  }

  lemma ThreeLetters()
    ensures Split("a, b, c") == ["a", "b", "c"]
  {
    SplitLetter('a', "b, c");
    SplitLetter('b', "c");
    SplitLast('c');
    assert "a, b, c" == "a" + SEPARATOR + "b, c" && "b, c" == "b" + SEPARATOR + "c";
    assert ["b"] + ["c"] == ["b", "c"] && ["a"] + ["b", "c"] == ["a", "b", "c"];
  }

  lemma SpelledOut()
    ensures "a" + SEPARATOR + "b" == "a, b" && "a, b" + "," == "a, b," && |"a, b,"| == 5
  {}

  // "a, b, c" at width 4 is printed as "a, b," and "c": five characters.
  lemma FiveInsteadOfFour()
    ensures GreedyLines(Split("a, b, c"), 4) == ["a, b", "c"]
    ensures Printed(["a, b", "c"]) == ["a, b,", "c"] && |"a, b,"| == 5
  {
    ThreeLetters();
    TwoThenOne("a", "b", "c");
    SpelledOut();
    assert ["a, b", "c"][1..] == ["c"];
  }

  lemma TwoThenOne(a: string, b: string, c: string)
    requires |a| == |b| == |c| == 1
    ensures GreedyLines([a, b, c], 4) == [a + SEPARATOR + b, c]
  {
    var parts := [a, b, c];
    assert parts[..1] == [a] && parts[..2] == [a, b] && parts[..3] == parts && parts[2..] == [c];
    assert [a, b][1..] == [b] && [b, c][1..] == [c] && parts[1..] == [b, c];
    assert Length([a, b]) == 4 && Length([b, c]) == 4 && Length(parts) == 7;
    FirstLineIs(parts, 4, 2);
    assert [c][..1] == [c] && [c][1..] == [];
    FirstLineIs([c], 4, 1);
    assert GreedyLines([c], 4) == [c];
    assert Join([a, b], SEPARATOR) == a + SEPARATOR + b;
  }
}
