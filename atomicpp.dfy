// Pretty-printing of commands, pypeline/atomicpp.py: the line wrapping of
// `_pformat_list`, the numbering of `_collect_stats`, and the `pformat`
// wrapper around the rendered lines.
module AtomicPrettyPrint {
  import opened PyErrors
  import opened Seqs
  import PyText

  // ---------------------------------------------------------------------
  // _pformat_list

  /** The loop state of `_pformat_list`: the lines built so far (`result`)
      and `current_width`. */
  datatype Layout = Layout(lines: seq<seq<string>>, current: int)

  /** The printed width of a line of items: each item followed by two
      characters, which are ", " between items and the leading "[" or " "
      plus the trailing "," or "]" around the line. */
  function LineWidth(line: seq<string>): nat
  {
    if |line| == 0 then 0 else LineWidth(line[..|line| - 1]) + |line[|line| - 1]| + 2
  }

  /** One step of the loop as written: a new line when `current_width +
      len(item) > width`, counting only `len(item)` for its first item. */
  function PlaceAsWritten(l: Layout, item: string, width: int): Layout
    requires |l.lines| > 0
  {
    if l.current + |item| > width then Layout(l.lines + [[item]], |item|)
    else Layout(l.lines[..|l.lines| - 1] + [l.lines[|l.lines| - 1] + [item]], l.current + |item| + 2)
  }

  /** `_pformat_list` as written, over the `repr` of each item. */
  function LayoutAsWritten(items: seq<string>, width: int): (r: Layout)
    ensures |r.lines| > 0
  {
    if |items| == 0 then Layout([[]], 0)
    else PlaceAsWritten(LayoutAsWritten(items[..|items| - 1], width), items[|items| - 1], width)
  }

  /** One step of the loop as evidently intended: a new line when the
      current line is not empty and the item would take it past `width`. */
  function Place(l: Layout, item: string, width: int): Layout
    requires |l.lines| > 0
  {
    var last := l.lines[|l.lines| - 1];
    if |last| > 0 && l.current + |item| + 2 > width then Layout(l.lines + [[item]], |item| + 2)
    else Layout(l.lines[..|l.lines| - 1] + [last + [item]], l.current + |item| + 2)
  }

  /** The line layout `_pformat_list` evidently intends. */
  function LayoutOf(items: seq<string>, width: int): (r: Layout)
    ensures |r.lines| > 0
  {
    if |items| == 0 then Layout([[]], 0)
    else Place(LayoutOf(items[..|items| - 1], width), items[|items| - 1], width)
  }

  /** `"[%s]" % ",\n ".join(", ".join(line) for line in lines)`. */
  function Bracket(lines: seq<seq<string>>): string
  {
    "[" + PyText.Join(",\n ", seq(|lines|, k requires 0 <= k < |lines| => PyText.Join(", ", lines[k]))) + "]"
  }

  /** Every line but one-item lines fits in `width`. */
  predicate Fits(lines: seq<seq<string>>, width: int)
  {
    forall k :: 0 <= k < |lines| ==> |lines[k]| <= 1 || LineWidth(lines[k]) <= width
  }

  /** Line `k + 1` was started because its first item would not have fit
      on line `k`. */
  predicate BrokeAt(lines: seq<seq<string>>, k: nat, width: int)
    requires k + 1 < |lines|
  {
    |lines[k + 1]| > 0 && LineWidth(lines[k]) + |lines[k + 1][0]| + 2 > width
  }

  /** A line is only broken when its next item would not have fit. */
  predicate Greedy(lines: seq<seq<string>>, width: int)
  {
    forall k: nat :: k + 1 < |lines| ==> BrokeAt(lines, k, width)
  }

  predicate NoEmptyLine(lines: seq<seq<string>>)
  {
    forall k :: 0 <= k < |lines| ==> |lines[k]| > 0
  }

  /** The layout invariant the loop keeps. */
  predicate GoodLayout(l: Layout, width: int)
  {
    && |l.lines| > 0
    && l.current == LineWidth(l.lines[|l.lines| - 1])
    && Fits(l.lines, width)
    && Greedy(l.lines, width)
    && (l.lines == [[]] || NoEmptyLine(l.lines))
  }

  lemma {:induction false} LineWidthSnoc(line: seq<string>, item: string)
    ensures LineWidth(line + [item]) == LineWidth(line) + |item| + 2
  {
    assert (line + [item])[..|line|] == line;
  }

  /** Starting a new line keeps the layout invariant. */
  lemma {:induction false} BreakKeepsGood(l: Layout, item: string, width: int)
    requires GoodLayout(l, width)
    requires |l.lines[|l.lines| - 1]| > 0 && l.current + |item| + 2 > width
    ensures GoodLayout(Layout(l.lines + [[item]], |item| + 2), width)
  {
    var n := |l.lines|;
    var lines := l.lines + [[item]];
    assert LineWidth([item]) == |item| + 2 by { LineWidthSnoc([], item); }
    assert forall k :: 0 <= k < n ==> lines[k] == l.lines[k];
    assert Fits(lines, width);
    assert Greedy(lines, width) by {
      forall k: nat | k + 1 < |lines|
        ensures BrokeAt(lines, k, width)
      {
        if k + 1 < n {
          assert BrokeAt(l.lines, k, width);
        }
      }
    }
    assert NoEmptyLine(lines);
  }

  /** Extending the last line keeps the layout invariant. */
  lemma {:induction false} ExtendKeepsGood(l: Layout, item: string, width: int)
    requires GoodLayout(l, width)
    requires !(|l.lines[|l.lines| - 1]| > 0 && l.current + |item| + 2 > width)
    ensures GoodLayout(Layout(l.lines[..|l.lines| - 1] + [l.lines[|l.lines| - 1] + [item]], l.current + |item| + 2), width)
  {
    var n := |l.lines|;
    var last := l.lines[n - 1];
    var line := last + [item];
    var lines := l.lines[..n - 1] + [line];
    LineWidthSnoc(last, item);
    assert forall k :: 0 <= k < n - 1 ==> lines[k] == l.lines[k];
    assert lines[n - 1] == line;
    assert Fits(lines, width);
    assert Greedy(lines, width) by {
      forall k: nat | k + 1 < |lines|
        ensures BrokeAt(lines, k, width)
      {
        assert BrokeAt(l.lines, k, width);
        assert lines[k] == l.lines[k];
        assert |lines[k + 1]| > 0 && lines[k + 1][0] == l.lines[k + 1][0];
      }
    }
    if |last| == 0 {
      assert l.lines == [[]];
      assert lines == [[item]];
    } else {
      assert NoEmptyLine(lines);
    }
  }

  /** The intended step keeps the layout invariant. */
  lemma {:induction false} PlaceKeepsGood(l: Layout, item: string, width: int)
    requires GoodLayout(l, width)
    ensures GoodLayout(Place(l, item, width), width)
  {
    if |l.lines[|l.lines| - 1]| > 0 && l.current + |item| + 2 > width {
      BreakKeepsGood(l, item, width);
    } else {
      ExtendKeepsGood(l, item, width);
    }
  }

  /** The intended layout keeps the layout invariant: lines fit in `width`
      unless an item alone is wider, and a line is broken only when the
      next item would not have fit. */
  lemma {:induction false} LayoutOfGood(items: seq<string>, width: int)
    ensures GoodLayout(LayoutOf(items, width), width)
    decreases |items|
  {
    if |items| > 0 {
      var init := items[..|items| - 1];
      LayoutOfGood(init, width);
      PlaceKeepsGood(LayoutOf(init, width), items[|items| - 1], width);
    }
  }

  /** The intended layout keeps every item, in order. */
  lemma {:induction false} LayoutOfKeepsItems(items: seq<string>, width: int)
    ensures Flatten(LayoutOf(items, width).lines) == items
    decreases |items|
  {
    if |items| > 0 {
      var init := items[..|items| - 1];
      LayoutOfKeepsItems(init, width);
      PlacePreservesItems(LayoutOf(init, width), items[|items| - 1], width);
      assert init + [items[|items| - 1]] == items;
    }
  }

  /** The intended layout: the layout invariant, every item in order, and
      an empty line only for the empty list. */
  lemma {:induction false} LayoutOfMeaning(items: seq<string>, width: int)
    ensures GoodLayout(LayoutOf(items, width), width)
    ensures Flatten(LayoutOf(items, width).lines) == items
    ensures |items| == 0 <==> LayoutOf(items, width).lines == [[]]
  {
    LayoutOfGood(items, width);
    LayoutOfKeepsItems(items, width);
    var empty: seq<seq<string>> := [[]];
    assert Flatten(empty) == [] by {
      assert empty[1..] == [];
    }
  }

  /** Flattening the lines after a step appends the item. */
  lemma {:induction false} PlacePreservesItems(l: Layout, item: string, width: int)
    requires |l.lines| > 0
    ensures Flatten(Place(l, item, width).lines) == Flatten(l.lines) + [item]
    ensures Flatten(PlaceAsWritten(l, item, width).lines) == Flatten(l.lines) + [item]
  {
    var n := |l.lines|;
    var init := l.lines[..n - 1];
    var last := l.lines[n - 1];
    assert l.lines == init + [last];
    FlattenAppend(init, [last]);
    FlattenAppend(init, [last + [item]]);
    FlattenAppend(l.lines, [[item]]);
    assert Flatten([last]) == last by { assert [last][1..] == []; }
    assert Flatten([last + [item]]) == last + [item] by { assert [last + [item]][1..] == []; }
    assert Flatten([[item]]) == [item] by { assert [[item]][1..] == []; }
  }

  /** The layout as written also keeps every item in order. */
  lemma {:induction false} LayoutAsWrittenKeepsItems(items: seq<string>, width: int)
    ensures Flatten(LayoutAsWritten(items, width).lines) == items
    decreases |items|
  {
    if |items| > 0 {
      var init := items[..|items| - 1];
      LayoutAsWrittenKeepsItems(init, width);
      PlacePreservesItems(LayoutAsWritten(init, width), items[|items| - 1], width);
      assert init + [items[|items| - 1]] == items;
    }
  }

  /** The printed text of a line is `LineWidth` characters long: the items
      joined with ", ", plus one character on each side. */
  lemma {:induction false} PrintedLineWidth(line: seq<string>)
    requires |line| > 0
    ensures |PyText.Join(", ", line)| + 2 == LineWidth(line)
    decreases |line|
  {
    if |line| > 1 {
      PrintedLineWidth(line[1..]);
      LineWidthCons(line[0], line[1..]);
      assert [line[0]] + line[1..] == line;
    } else {
      assert line[..0] == [];
    }
  }

  lemma {:induction false} LineWidthCons(item: string, line: seq<string>)
    ensures LineWidth([item] + line) == |item| + 2 + LineWidth(line)
    decreases |line|
  {
    if |line| == 0 {
      assert [item] + line == [item];
      assert [item][..0] == [];
    } else {
      var n := |line| - 1;
      LineWidthCons(item, line[..n]);
      assert ([item] + line)[..n + 1] == [item] + line[..n];
    }
  }

  /** The empty list prints as "[]". */
  lemma {:induction false} EmptyListPrints()
    ensures Bracket(LayoutOf([], 80).lines) == "[]"
  {
    var parts := seq(1, k requires 0 <= k < 1 => PyText.Join(", ", [[]][k]));
    assert parts == [""];
  }

  /** The layouts of a single item. */
  lemma {:induction false} SingleItemLayouts(item: string, width: int)
    ensures LayoutAsWritten([item], width) ==
      if |item| > width then Layout([[], [item]], |item|) else Layout([[item]], |item| + 2)
    ensures LayoutOf([item], width) == Layout([[item]], |item| + 2)
  {
    assert [item][..0] == [];
    var start := Layout([[]], 0);
    assert LayoutAsWritten([item], width) == PlaceAsWritten(start, item, width);
    assert LayoutOf([item], width) == Place(start, item, width);
    assert start.lines[..0] == [] && start.lines[0] + [item] == [item];
  }

  /** With width 2, the loop as written puts `2, 1` on one line, which is
      six characters wide, where the unit test expects `[3,\n 2,\n 1]`;
      the intended layout gives that. */
  lemma {:induction false} WrapAsWrittenOverflows()
    ensures LayoutAsWritten(["3", "2", "1"], 2).lines == [["3"], ["2", "1"]]
    ensures LineWidth(["2", "1"]) == 6
    ensures LayoutOf(["3", "2", "1"], 2).lines == [["3"], ["2"], ["1"]]
  {
    assert |"3"| == 1 && |"2"| == 1 && |"1"| == 1;
    SingleItemLayouts("3", 2);
    var items := ["3", "2", "1"];
    assert items[..2] == ["3", "2"] && ["3", "2"][..1] == ["3"];
    var w1 := LayoutAsWritten(["3"], 2);
    assert w1 == Layout([["3"]], 3);
    var w2 := LayoutAsWritten(["3", "2"], 2);
    assert w2 == PlaceAsWritten(w1, "2", 2);
    assert w2 == Layout([["3"], ["2"]], 1);
    assert LayoutAsWritten(items, 2) == PlaceAsWritten(w2, "1", 2);
    assert w2.lines[..1] == [["3"]] && w2.lines[1] + ["1"] == ["2", "1"];
    var c1 := LayoutOf(["3"], 2);
    assert c1 == Layout([["3"]], 3);
    var c2 := LayoutOf(["3", "2"], 2);
    assert c2 == Place(c1, "2", 2);
    assert c2 == Layout([["3"], ["2"]], 3);
    assert LayoutOf(items, 2) == Place(c2, "1", 2);
    assert LineWidth(["2", "1"]) == 6 by {
      LineWidthSnoc(["2"], "1");
      LineWidthSnoc([], "2");
      assert [] + ["2"] == ["2"] && ["2"] + ["1"] == ["2", "1"];
    }
  }

  /** An item wider than `width` in first position leaves an empty first
      line as written, printed as "[,\n 'x...'": the intended layout does
      not. */
  lemma {:induction false} WrapAsWrittenEmptyFirstLine(item: string, width: int)
    requires |item| > width
    ensures LayoutAsWritten([item], width).lines == [[], [item]]
    ensures Bracket(LayoutAsWritten([item], width).lines) == "[,\n " + item + "]"
    ensures LayoutOf([item], width).lines == [[item]]
  {
    SingleItemLayouts(item, width);
    var lines: seq<seq<string>> := [[], [item]];
    var parts := seq(2, k requires 0 <= k < 2 => PyText.Join(", ", lines[k]));
    assert PyText.Join(", ", lines[0]) == "";
    assert PyText.Join(", ", lines[1]) == item by {
      assert lines[1] == [item];
    }
    assert parts == ["", item];
    assert PyText.Join(",\n ", parts) == ",\n " + item by {
      assert parts[1..] == [item];
    }
  }

  /** `_pformat_list(lst, width)` as written, over the `repr` of each item. */
  method PformatListAsWritten(items: seq<string>, width: int) returns (s: string)
    ensures s == Bracket(LayoutAsWritten(items, width).lines)
  {
    var result: seq<seq<string>> := [[]];
    var currentWidth := 0;
    var i := 0;
    while i < |items|
      invariant 0 <= i <= |items|
      invariant Layout(result, currentWidth) == LayoutAsWritten(items[..i], width)
    {
      var item := items[i];
      assert items[..i + 1][..i] == items[..i];
      if currentWidth + |item| > width {
        result := result + [[item]];
        currentWidth := |item|;
      } else {
        result := result[..|result| - 1] + [result[|result| - 1] + [item]];
        currentWidth := currentWidth + |item| + 2;
      }
      i := i + 1;
    }
    assert items[..i] == items;
    s := Bracket(result);
  }

  /** `_pformat_list(lst, width)` as evidently intended. */
  method PformatList(items: seq<string>, width: int) returns (s: string)
    ensures s == Bracket(LayoutOf(items, width).lines)
  {
    var result: seq<seq<string>> := [[]];
    var currentWidth := 0;
    var i := 0;
    while i < |items|
      invariant 0 <= i <= |items|
      invariant Layout(result, currentWidth) == LayoutOf(items[..i], width)
    {
      var item := items[i];
      assert items[..i + 1][..i] == items[..i];
      if |result[|result| - 1]| > 0 && currentWidth + |item| + 2 > width {
        result := result + [[item]];
        currentWidth := |item| + 2;
      } else {
        result := result[..|result| - 1] + [result[|result| - 1] + [item]];
        currentWidth := currentWidth + |item| + 2;
      }
      i := i + 1;
    }
    assert items[..i] == items;
    s := Bracket(result);
  }

  // ---------------------------------------------------------------------
  // _collect_stats

  /** A command as `_collect_stats` walks it: an AtomicCmd with its object
      identity and, when its IN_STDIN is another AtomicCmd, that command's
      identity; a set with its members; or any other object. */
  datatype CmdNode =
    | Atom(id: nat, stdin: Option<nat>)
    | CmdSet(members: seq<CmdNode>)
    | OtherObject

  /** The AtomicCmds reached depth first, in member order, as (identity,
      IN_STDIN command) pairs. */
  function Atoms(c: CmdNode): seq<(nat, Option<nat>)>
    decreases c
  {
    match c
    case Atom(id, stdin) => [(id, stdin)]
    case CmdSet(ms) => AtomsOf(ms)
    case OtherObject => []
  }

  function AtomsOf(ms: seq<CmdNode>): seq<(nat, Option<nat>)>
    decreases ms
  {
    if |ms| == 0 then [] else AtomsOf(ms[..|ms| - 1]) + Atoms(ms[|ms| - 1])
  }

  lemma {:induction false} AtomsOfAppend(a: seq<CmdNode>, b: seq<CmdNode>)
    ensures AtomsOf(a + b) == AtomsOf(a) + AtomsOf(b)
    decreases |b|
  {
    if |b| == 0 {
      assert a + b == a;
    } else {
      var n := |b| - 1;
      AtomsOfAppend(a, b[..n]);
      assert (a + b)[..|a + b| - 1] == a + b[..n];
    }
  }

  /** The identities of a list of AtomicCmds. */
  function Ids(atoms: seq<(nat, Option<nat>)>): (r: seq<nat>)
    ensures |r| == |atoms| && forall k :: 0 <= k < |atoms| ==> r[k] == atoms[k].0
  {
    seq(|atoms|, k requires 0 <= k < |atoms| => atoms[k].0)
  }

  /** `stats["pipe"]` after visiting these AtomicCmds: each whose IN_STDIN
      is an AtomicCmd maps that command to itself, later ones overwriting. */
  function PipesAfter(pipes: map<nat, nat>, atoms: seq<(nat, Option<nat>)>): map<nat, nat>
  {
    if |atoms| == 0 then pipes
    else
      var a := atoms[|atoms| - 1];
      var before := PipesAfter(pipes, atoms[..|atoms| - 1]);
      if a.1.Some? then before[a.1.value := a.0] else before
  }

  lemma {:induction false} PipesAfterAppend(pipes: map<nat, nat>, a: seq<(nat, Option<nat>)>, b: seq<(nat, Option<nat>)>)
    ensures PipesAfter(pipes, a + b) == PipesAfter(PipesAfter(pipes, a), b)
    decreases |b|
  {
    if |b| == 0 {
      assert a + b == a;
    } else {
      var n := |b| - 1;
      PipesAfterAppend(pipes, a, b[..n]);
      assert (a + b)[..|a + b| - 1] == a + b[..n];
    }
  }

  /** A command no AtomicCmd reads from keeps its old entry. */
  lemma {:induction false} PipesAfterUntouched(pipes: map<nat, nat>, atoms: seq<(nat, Option<nat>)>, p: nat)
    requires forall k :: 0 <= k < |atoms| ==> atoms[k].1 != Some(p)
    ensures p in PipesAfter(pipes, atoms) <==> p in pipes
    ensures p in pipes ==> PipesAfter(pipes, atoms)[p] == pipes[p]
    decreases |atoms|
  {
    if |atoms| > 0 {
      var n := |atoms| - 1;
      assert forall k :: 0 <= k < n ==> atoms[..n][k] == atoms[k];
      PipesAfterUntouched(pipes, atoms[..n], p);
    }
  }

  /** A piped command maps to the LAST AtomicCmd reading from it. */
  lemma {:induction false} PipesAfterLastReader(pipes: map<nat, nat>, atoms: seq<(nat, Option<nat>)>, p: nat, k: nat)
    requires k < |atoms| && atoms[k].1 == Some(p)
    requires forall j :: k < j < |atoms| ==> atoms[j].1 != Some(p)
    ensures p in PipesAfter(pipes, atoms) && PipesAfter(pipes, atoms)[p] == atoms[k].0
    decreases |atoms|
  {
    var n := |atoms| - 1;
    if k < n {
      assert forall j :: k < j < n ==> atoms[..n][j] == atoms[j];
      PipesAfterLastReader(pipes, atoms[..n], p, k);
    }
  }

  lemma {:induction false} DistinctSnoc(xs: seq<nat>, x: nat)
    requires Distinct(xs)
    ensures Distinct(xs + [x]) <==> x !in xs
  {
    if x in xs {
      var k :| 0 <= k < |xs| && xs[k] == x;
      assert (xs + [x])[k] == (xs + [x])[|xs|];
    }
  }

  lemma {:induction false} DistinctPrefix(xs: seq<nat>, ys: seq<nat>)
    requires Distinct(xs + ys)
    ensures Distinct(xs)
  {
    assert forall k :: 0 <= k < |xs| ==> (xs + ys)[k] == xs[k];
  }

  /** How the member loop of `_collect_stats` advances its two lists. */
  lemma {:induction false} CollectStep(ms: seq<CmdNode>, i: nat, order: seq<nat>, pipes: map<nat, nat>)
    requires i < |ms|
    ensures order + Ids(AtomsOf(ms[..i + 1])) == (order + Ids(AtomsOf(ms[..i]))) + Ids(Atoms(ms[i]))
    ensures PipesAfter(pipes, AtomsOf(ms[..i + 1])) == PipesAfter(PipesAfter(pipes, AtomsOf(ms[..i])), Atoms(ms[i]))
    ensures Distinct(order + Ids(AtomsOf(ms))) ==> Distinct(order + Ids(AtomsOf(ms[..i + 1])))
  {
    assert ms[..i + 1][..i] == ms[..i];
    var before, here := AtomsOf(ms[..i]), Atoms(ms[i]);
    assert AtomsOf(ms[..i + 1]) == before + here;
    assert Ids(before + here) == Ids(before) + Ids(here);
    PipesAfterAppend(pipes, before, here);
    AtomsOfAppend(ms[..i + 1], ms[i + 1..]);
    assert ms[..i + 1] + ms[i + 1..] == ms;
    var rest := AtomsOf(ms[i + 1..]);
    assert Ids(before + here + rest) == Ids(before + here) + Ids(rest);
    if Distinct(order + Ids(AtomsOf(ms))) {
      assert order + Ids(AtomsOf(ms)) == (order + Ids(AtomsOf(ms[..i + 1]))) + Ids(rest);
      DistinctPrefix(order + Ids(AtomsOf(ms[..i + 1])), Ids(rest));
    }
  }

  /** `_collect_stats(cmd, stats)`, with `stats["id"]` held as the list of
      its keys in insertion order (the number of a command is its position,
      since each was numbered `len(stats["id"])` when added). The assertion
      fails exactly when an AtomicCmd is reached a second time. */
  method CollectStats(c: CmdNode, order: seq<nat>, pipes: map<nat, nat>) returns (r: Outcome, order': seq<nat>, pipes': map<nat, nat>)
    requires Distinct(order)
    decreases c
    ensures r.Pass? <==> Distinct(order + Ids(Atoms(c)))
    ensures r.Fail? ==> r.error == AssertionError
    ensures r.Pass? ==> order' == order + Ids(Atoms(c)) && pipes' == PipesAfter(pipes, Atoms(c))
  {
    match c
    case Atom(id, stdin) =>
      assert Ids(Atoms(c)) == [id];
      DistinctSnoc(order, id);
      if id in order {
        return Fail(AssertionError), order, pipes;
      }
      order' := order + [id];
      pipes' := if stdin.Some? then pipes[stdin.value := id] else pipes;
      assert Atoms(c)[..0] == [];
      r := Pass;
    case CmdSet(ms) =>
      order', pipes' := order, pipes;
      var i := 0;
      while i < |ms|
        invariant 0 <= i <= |ms|
        invariant Distinct(order')
        invariant order' == order + Ids(AtomsOf(ms[..i]))
        invariant pipes' == PipesAfter(pipes, AtomsOf(ms[..i]))
      {
        var sub, subOrder, subPipes := CollectStats(ms[i], order', pipes');
        CollectStep(ms, i, order, pipes);
        if sub.Fail? {
          return sub, order', pipes';
        }
        order', pipes' := subOrder, subPipes;
        i := i + 1;
      }
      assert ms[..i] == ms;
      r := Pass;
    case OtherObject =>
      assert order + Ids(Atoms(c)) == order;
      order', pipes' := order, pipes;
      r := Pass;
  }

  // ---------------------------------------------------------------------
  // pformat

  /** `pformat(cmd)`: the rendered lines joined by newlines, in "<" ">". */
  function Pformat(lines: seq<string>): string
  {
    "<" + PyText.Join("\n", lines) + ">"
  }

  /** The lines can be read back from `pformat`'s text when none holds a
      newline of its own. */
  lemma {:induction false} PformatLines(lines: seq<string>)
    requires |lines| > 0 && forall k :: 0 <= k < |lines| ==> '\n' !in lines[k]
    ensures var s := Pformat(lines);
      |s| >= 2 && s[0] == '<' && s[|s| - 1] == '>' &&
      PyText.SplitOn(s[1..|s| - 1], '\n') == lines
  {
    var s := Pformat(lines);
    assert s[1..|s| - 1] == PyText.Join("\n", lines);
    PyText.SplitOnJoin(lines, '\n');
  }
}
