// The sequence nodes of pypeline/nodes/sequences.py: singleton filtering
// (`FilterSingletonsNode`), which masks the bases of a taxon that no other
// taxon of its group shares, and `CollectSequencesNode`, which gathers one
// FASTA file per requested sequence from one FASTA file per taxon.
//
// Reading a file is abstracted as the outcome of the reader for that path; a
// path missing from the map raises OSError. Writing and moving the output
// files is not modelled: the operations return what would be written.
module NodeSequences {
  import opened PyErrors
  import opened Seqs
  import PyText
  import Msa
  import Fasta
  import FileUtils
  import Utilities

  // ---------------------------------------------------------------------
  // FilterSingletonsNode constructor

  /** `filter_by` after the constructor's rewrite: each target joins its
      own group, and a group that is then just the target raises
      RuntimeError. */
  function FilterTable(filterBy: map<string, set<string>>): (r: Result<map<string, set<string>>>)
    ensures r.Err? <==> exists t :: t in filterBy && filterBy[t] <= {t}
    ensures r.Err? ==> r.error == RuntimeError
    ensures r.Ok? ==> r.value.Keys == filterBy.Keys
    ensures r.Ok? ==> forall t :: t in r.value ==> filterBy[t] <= r.value[t]
    ensures r.Ok? ==> TableValid(r.value)
  {
    if exists t :: t in filterBy && |filterBy[t] + {t}| == 1 then
      var t :| t in filterBy && |filterBy[t] + {t}| == 1;
      SingletonSet(filterBy[t] + {t}, t);
      Err(RuntimeError)
    else
      var table := map t | t in filterBy :: filterBy[t] + {t};
      assert TableValid(table) by {
        forall t | t in table ensures t in table[t] && exists g :: g in table[t] && g != t {
          var groups := filterBy[t] + {t};
          assert |groups| != 1;
          assert groups - {t} != {} by {
            assert groups - {t} == {} ==> groups == {t};
          }
          var g :| g in groups - {t};
        }
      }
      assert !exists t :: t in filterBy && filterBy[t] <= {t} by {
        forall t | t in filterBy ensures !(filterBy[t] <= {t}) {
          var groups := filterBy[t] + {t};
          assert groups != {t};
        }
      }
      Ok(table)
  }

  /** What the constructor guarantees of each group: it holds its own target
      and at least one other taxon. */
  predicate TableValid(table: map<string, set<string>>)
  {
    forall t :: t in table ==> t in table[t] && exists g :: g in table[t] && g != t
  }

  /** The constructor's loop, rewriting the table one target at a time. */
  method RewriteFilterBy(filterBy: map<string, set<string>>) returns (r: Result<map<string, set<string>>>)
    ensures r == FilterTable(filterBy)
  {
    var table := filterBy;
    var todo := filterBy.Keys;
    while todo != {}
      invariant todo <= filterBy.Keys && table.Keys == filterBy.Keys
      invariant forall t :: t in todo ==> table[t] == filterBy[t]
      invariant forall t :: t in filterBy && t !in todo ==> table[t] == filterBy[t] + {t}
      invariant forall t :: t in filterBy && t !in todo ==> |filterBy[t] + {t}| != 1
      decreases |todo|
    {
      var t :| t in todo;
      var groups := filterBy[t] + {t};
      if |groups| == 1 {
        SingletonSet(groups, t);
        assert filterBy[t] <= {t};
        return Err(RuntimeError);
      }
      table := table[t := groups];
      todo := todo - {t};
    }
    assert !exists t :: t in filterBy && |filterBy[t] + {t}| == 1;
    assert table == map t | t in filterBy :: filterBy[t] + {t};
    r := Ok(table);
  }

  /** A set of one element that holds `t` is `{t}`. */
  lemma SingletonSet(s: set<string>, t: string)
    requires t in s && |s| == 1
    ensures s == {t}
  {
    assert s == {t} + (s - {t});
  }

  // ---------------------------------------------------------------------
  // FilterSingletonsNode._run: the column rule

  /** The base of `target` at column `i` is shared by no other taxon of the
      group. */
  predicate Unique(alignment: Msa.Alignment, target: string, groups: set<string>, i: nat)
    requires Msa.WellFormed(alignment) && target in groups && groups <= alignment.Keys
    requires i < |alignment[target]|
  {
    forall g :: g in groups && g != target ==> alignment[g][i] != alignment[target][i]
  }

  /** The bases of the group's sequences at column `i`, in the order the
      group is visited: one element of `zip(*sequences)`. */
  function Column(alignment: Msa.Alignment, members: seq<string>, i: nat): (r: seq<char>)
    requires Msa.WellFormed(alignment)
    requires forall k :: 0 <= k < |members| ==> members[k] in alignment && i < |alignment[members[k]]|
    ensures |r| == |members|
  {
    seq(|members|, k requires 0 <= k < |members| => alignment[members[k]][i])
  }

  /** The base written at column `i` for base `nt`: `'n'` when `nt` is not
      N, n or - and occurs once in the column. */
  function MaskedBase(column: seq<char>, nt: char): char
  {
    if nt !in "Nn-" && Count(column, nt) == 1 then 'n' else nt
  }

  /** The sequence of `target` after the loop over the columns of its
      group. The group is visited in sorted order; the count does not
      depend on it. */
  function Filtered(alignment: Msa.Alignment, target: string, groups: set<string>): (r: string)
    requires Msa.WellFormed(alignment) && target in groups && groups <= alignment.Keys
    ensures |r| == |alignment[target]|
  {
    var members := PyText.SortedSet(groups);
    var s := alignment[target];
    seq(|s|, i requires 0 <= i < |s| => MaskedBase(Column(alignment, members, i), s[i]))
  }

  lemma {:induction false} CountZero<T>(xs: seq<T>, x: T)
    ensures Count(xs, x) == 0 <==> x !in xs
    decreases |xs|
  {
    if |xs| > 0 {
      CountZero(xs[1..], x);
      assert xs == [xs[0]] + xs[1..];
    }
  }

  /** An element counts once exactly when no other position holds it. */
  lemma {:induction false} CountOne<T>(xs: seq<T>, j: nat)
    requires j < |xs|
    ensures Count(xs, xs[j]) == 1 <==> forall k :: 0 <= k < |xs| && k != j ==> xs[k] != xs[j]
    decreases |xs|
  {
    var x := xs[j];
    var rest := xs[1..];
    if j == 0 {
      CountZero(rest, x);
      if x in rest {
        var k' :| 0 <= k' < |rest| && rest[k'] == x;
        assert xs[k' + 1] == x;
      }
    } else {
      assert rest[j - 1] == x;
      CountOne(rest, j - 1);
      if xs[0] == x {
        CountZero(rest, x);
      } else {
        if forall k :: 0 <= k < |rest| && k != j - 1 ==> rest[k] != x {
          forall k | 0 <= k < |xs| && k != j ensures xs[k] != x {
            if k > 0 {
              assert xs[k] == rest[k - 1];
            }
          }
        }
      }
    }
  }

  /** The count of the target's base in its column is one exactly when the
      base is unique to the target within the group. */
  lemma ColumnCountOne(alignment: Msa.Alignment, target: string, groups: set<string>, i: nat)
    requires Msa.WellFormed(alignment) && target in groups && groups <= alignment.Keys
    requires i < |alignment[target]|
    ensures Count(Column(alignment, PyText.SortedSet(groups), i), alignment[target][i]) == 1
            <==> Unique(alignment, target, groups, i)
  {
    var members := PyText.SortedSet(groups);
    PyText.SortedStringsDistinct(members);
    var column := Column(alignment, members, i);
    var j :| 0 <= j < |members| && members[j] == target;
    CountOne(column, j);
    ColumnDistinctUnique(alignment, target, groups, i, members, j);
  }

  /** The target's base differs from every other base of the column exactly
      when no other taxon of the group has it. */
  lemma ColumnDistinctUnique(alignment: Msa.Alignment, target: string, groups: set<string>, i: nat,
                             members: seq<string>, j: nat)
    requires Msa.WellFormed(alignment) && target in groups && groups <= alignment.Keys
    requires i < |alignment[target]|
    requires forall g :: g in groups <==> g in members
    requires forall a, b :: 0 <= a < b < |members| ==> members[a] != members[b]
    requires j < |members| && members[j] == target
    ensures (forall k :: 0 <= k < |members| && k != j ==> Column(alignment, members, i)[k] != alignment[target][i])
            <==> Unique(alignment, target, groups, i)
  {
    var column := Column(alignment, members, i);
    if Unique(alignment, target, groups, i) {
      forall k | 0 <= k < |column| && k != j ensures column[k] != alignment[target][i] {
        assert members[k] in groups && members[k] != target;
      }
    }
    if forall k :: 0 <= k < |column| && k != j ==> column[k] != alignment[target][i] {
      forall g | g in groups && g != target ensures alignment[g][i] != alignment[target][i] {
        var k :| 0 <= k < |members| && members[k] == g;
        assert column[k] == alignment[g][i];
      }
    }
  }

  /** The column rule: a base of the target changes exactly when it is not
      N, n or - and no other taxon of the group has it at that column; a
      changed base becomes `'n'`. */
  lemma FilteredMeaning(alignment: Msa.Alignment, target: string, groups: set<string>, i: nat)
    requires Msa.WellFormed(alignment) && target in groups && groups <= alignment.Keys
    requires i < |alignment[target]|
    ensures Filtered(alignment, target, groups)[i] != alignment[target][i]
            <==> alignment[target][i] !in "Nn-" && Unique(alignment, target, groups, i)
    ensures Filtered(alignment, target, groups)[i] != alignment[target][i]
            ==> Filtered(alignment, target, groups)[i] == 'n'
  {
    ColumnCountOne(alignment, target, groups, i);
  }

  // ---------------------------------------------------------------------
  // FilterSingletonsNode._run: the targets in turn

  /** One target: the group's sequences are looked up (KeyError for a
      missing taxon), then the target's entry is reassigned. */
  function FilterTarget(alignment: Msa.Alignment, target: string, groups: set<string>): (r: Result<Msa.Alignment>)
    requires Msa.WellFormed(alignment) && target in groups
    ensures r.Err? <==> !(groups <= alignment.Keys)
    ensures r.Err? ==> r.error == KeyError
    ensures r.Ok? ==> Msa.WellFormed(r.value) && r.value.Keys == alignment.Keys
    ensures r.Ok? ==> forall k :: k in alignment && k != target ==> r.value[k] == alignment[k]
    ensures r.Ok? ==> r.value[target] == Filtered(alignment, target, groups)
  {
    if !(groups <= alignment.Keys) then Err(KeyError)
    else Ok(alignment[target := Filtered(alignment, target, groups)])
  }

  /** The alignment after the targets in `targets`, in that order (the
      iteration order of `filter_by`); each target sees the replacements
      made for the ones before it. */
  function FilterAll(alignment: Msa.Alignment, table: map<string, set<string>>, targets: seq<string>): (r: Result<Msa.Alignment>)
    requires Msa.WellFormed(alignment) && TableValid(table)
    requires forall k :: 0 <= k < |targets| ==> targets[k] in table
    ensures r.Ok? ==> Msa.WellFormed(r.value) && r.value.Keys == alignment.Keys
    decreases |targets|
  {
    if |targets| == 0 then Ok(alignment)
    else
      var last := targets[|targets| - 1];
      match FilterAll(alignment, table, targets[..|targets| - 1])
      case Err(e) => Err(e)
      case Ok(current) => FilterTarget(current, last, table[last])
  }

  /** Filtering the same target again changes nothing: no base of the
      target outside N, n and - is left unique to it. */
  lemma FilterTargetSettled(alignment: Msa.Alignment, target: string, groups: set<string>)
    requires Msa.WellFormed(alignment) && target in groups && groups <= alignment.Keys
    ensures FilterTarget(FilterTarget(alignment, target, groups).value, target, groups)
            == FilterTarget(alignment, target, groups)
    ensures var b := FilterTarget(alignment, target, groups).value;
            forall i :: 0 <= i < |b[target]| ==> b[target][i] in "Nn-" || !Unique(b, target, groups, i)
  {
    var b := FilterTarget(alignment, target, groups).value;
    var row := Filtered(b, target, groups);
    forall i | 0 <= i < |b[target]|
      ensures row[i] == b[target][i]
      ensures b[target][i] in "Nn-" || !Unique(b, target, groups, i)
    {
      FilteredMeaning(alignment, target, groups, i);
      FilteredMeaning(b, target, groups, i);
      if b[target][i] == alignment[target][i] && b[target][i] !in "Nn-" {
        assert !Unique(alignment, target, groups, i);
        var g :| g in groups && g != target && alignment[g][i] == alignment[target][i];
        assert b[g][i] == b[target][i];
      }
    }
    assert row == b[target];
    assert b[target := row] == b;
  }

  /** What the whole run keeps: the same taxa with the same lengths, the
      taxa never filtered untouched, and every changed base an `'n'`. */
  lemma {:induction false} FilterAllFrame(alignment: Msa.Alignment, table: map<string, set<string>>, targets: seq<string>)
    requires Msa.WellFormed(alignment) && TableValid(table)
    requires forall k :: 0 <= k < |targets| ==> targets[k] in table
    requires FilterAll(alignment, table, targets).Ok?
    ensures var r := FilterAll(alignment, table, targets).value;
            forall k :: k in alignment ==> |r[k]| == |alignment[k]|
    ensures var r := FilterAll(alignment, table, targets).value;
            forall k :: k in alignment && k !in targets ==> r[k] == alignment[k]
    ensures var r := FilterAll(alignment, table, targets).value;
            forall k, i :: k in alignment && 0 <= i < |r[k]| && r[k][i] != alignment[k][i] ==> r[k][i] == 'n'
    decreases |targets|
  {
    if |targets| > 0 {
      var prefix := targets[..|targets| - 1];
      var last := targets[|targets| - 1];
      FilterAllFrame(alignment, table, prefix);
      var current := FilterAll(alignment, table, prefix).value;
      var r := FilterAll(alignment, table, targets).value;
      assert r == FilterTarget(current, last, table[last]).value;
      forall i | 0 <= i < |r[last]| && r[last][i] != current[last][i] ensures r[last][i] == 'n' {
        FilteredMeaning(current, last, table[last], i);
      }
    }
  }

  /** Every group of the targets names only taxa of the alignment. */
  predicate GroupsPresent(table: map<string, set<string>>, targets: seq<string>, taxa: set<string>)
    requires forall k :: 0 <= k < |targets| ==> targets[k] in table
  {
    forall k :: 0 <= k < |targets| ==> table[targets[k]] <= taxa
  }

  /** The run fails, with KeyError, exactly when some target's group names
      a taxon the alignment lacks. */
  lemma {:induction false} FilterAllErr(alignment: Msa.Alignment, table: map<string, set<string>>, targets: seq<string>)
    requires Msa.WellFormed(alignment) && TableValid(table)
    requires forall k :: 0 <= k < |targets| ==> targets[k] in table
    ensures FilterAll(alignment, table, targets).Err? <==> !GroupsPresent(table, targets, alignment.Keys)
    ensures FilterAll(alignment, table, targets).Err? ==> FilterAll(alignment, table, targets).error == KeyError
    decreases |targets|
  {
    if |targets| > 0 {
      var prefix := targets[..|targets| - 1];
      var last := targets[|targets| - 1];
      FilterAllErr(alignment, table, prefix);
      GroupsPresentSnoc(table, targets, alignment.Keys);
      var before := FilterAll(alignment, table, prefix);
      if before.Ok? {
        assert FilterAll(alignment, table, targets) == FilterTarget(before.value, last, table[last]);
      }
    }
  }

  /** The groups of all targets are present exactly when those of all but
      the last are and the last one's is. */
  lemma GroupsPresentSnoc(table: map<string, set<string>>, targets: seq<string>, taxa: set<string>)
    requires forall k :: 0 <= k < |targets| ==> targets[k] in table
    requires |targets| > 0
    ensures GroupsPresent(table, targets, taxa) <==>
      GroupsPresent(table, targets[..|targets| - 1], taxa) && table[targets[|targets| - 1]] <= taxa
  {
    var prefix := targets[..|targets| - 1];
    assert forall k :: 0 <= k < |prefix| ==> prefix[k] == targets[k];
  }

  /** Once a target fails, the run fails with that error. */
  lemma {:induction false} FilterAllErrStays(alignment: Msa.Alignment, table: map<string, set<string>>, targets: seq<string>, n: nat)
    requires Msa.WellFormed(alignment) && TableValid(table)
    requires forall k :: 0 <= k < |targets| ==> targets[k] in table
    requires n <= |targets| && FilterAll(alignment, table, targets[..n]).Err?
    ensures FilterAll(alignment, table, targets) == FilterAll(alignment, table, targets[..n])
    decreases |targets| - n
  {
    if n < |targets| {
      assert targets[..n + 1][..n] == targets[..n];
      FilterAllErrStays(alignment, table, targets, n + 1);
    } else {
      assert targets[..n] == targets;
    }
  }

  /** The order of the targets matters. Take taxa a, b and c with one
      column, where a and b hold the same base x and c another base y, a
      filtered against {a, c} and b against {a, b}: filtering a first masks
      a's x, which leaves b's x unique, so b is masked too; filtering b
      first finds x shared with a, so b keeps it. */
  lemma FilterOrderMatters(alignment: Msa.Alignment, table: map<string, set<string>>, a: string, b: string, c: string)
    requires ExampleSetup(alignment, table, a, b, c)
    ensures FilterAll(alignment, table, [a, b]).Ok? && FilterAll(alignment, table, [a, b]).value[b] == "n"
    ensures FilterAll(alignment, table, [b, a]).Ok? && FilterAll(alignment, table, [b, a]).value[b] == alignment[b]
  {
    ExampleValid(alignment, table, a, b, c);
    FilterAllPair(alignment, table, a, b);
    FilterAllPair(alignment, table, b, a);
    ExampleAFirst(alignment, table, a, b, c);
    ExampleBFirst(alignment, table, a, b, c);
  }

  /** The alignment and table of the example: a and b share the base x at
      the only column, c holds y. */
  predicate ExampleSetup(alignment: Msa.Alignment, table: map<string, set<string>>, a: string, b: string, c: string)
  {
    && a != b && b != c && a != c && "" !in {a, b, c}
    && alignment.Keys == {a, b, c}
    && |alignment[a]| == 1 && alignment[b] == alignment[a] && |alignment[c]| == 1
    && alignment[a][0] !in "Nn-" && alignment[c][0] != alignment[a][0]
    && table == map[a := {a, c}, b := {a, b}]
  }

  lemma ExampleValid(alignment: Msa.Alignment, table: map<string, set<string>>, a: string, b: string, c: string)
    requires ExampleSetup(alignment, table, a, b, c)
    ensures Msa.WellFormed(alignment) && TableValid(table)
    ensures table[a] <= alignment.Keys && table[b] <= alignment.Keys
  {
    assert a in alignment;
    assert TableValid(table) by {
      forall t | t in table ensures t in table[t] && exists g :: g in table[t] && g != t {
        if t == a {
          assert c in table[t];
        } else {
          assert a in table[t];
        }
      }
    }
  }

  /** The column rule on a one-column sequence. */
  lemma OneColumnFiltered(alignment: Msa.Alignment, target: string, groups: set<string>)
    requires Msa.WellFormed(alignment) && target in groups && groups <= alignment.Keys
    requires |alignment[target]| == 1
    ensures Filtered(alignment, target, groups)
            == if alignment[target][0] !in "Nn-" && Unique(alignment, target, groups, 0) then "n" else alignment[target]
  {
    FilteredMeaning(alignment, target, groups, 0);
  }

  /** Two targets: the second is filtered on the first's result. */
  lemma FilterAllPair(alignment: Msa.Alignment, table: map<string, set<string>>, t1: string, t2: string)
    requires Msa.WellFormed(alignment) && TableValid(table) && t1 in table && t2 in table
    requires table[t1] <= alignment.Keys
    ensures FilterAll(alignment, table, [t1, t2])
            == FilterTarget(FilterTarget(alignment, t1, table[t1]).value, t2, table[t2])
  {
    assert [t1][..0] == [];
    FilterAllLast(alignment, table, [t1]);
    assert [t1, t2][..1] == [t1];
    FilterAllLast(alignment, table, [t1, t2]);
  }

  lemma FilterAllLast(alignment: Msa.Alignment, table: map<string, set<string>>, targets: seq<string>)
    requires Msa.WellFormed(alignment) && TableValid(table)
    requires forall k :: 0 <= k < |targets| ==> targets[k] in table
    requires |targets| > 0 && FilterAll(alignment, table, targets[..|targets| - 1]).Ok?
    ensures FilterAll(alignment, table, targets)
            == FilterTarget(FilterAll(alignment, table, targets[..|targets| - 1]).value, targets[|targets| - 1], table[targets[|targets| - 1]])
  {
  }

  lemma ExampleAFirst(alignment: Msa.Alignment, table: map<string, set<string>>, a: string, b: string, c: string)
    requires ExampleSetup(alignment, table, a, b, c)
    requires Msa.WellFormed(alignment) && TableValid(table)
    requires table[a] <= alignment.Keys && table[b] <= alignment.Keys
    ensures FilterTarget(alignment, a, table[a]).Ok?
    ensures FilterTarget(FilterTarget(alignment, a, table[a]).value, b, table[b]).Ok?
    ensures FilterTarget(FilterTarget(alignment, a, table[a]).value, b, table[b]).value[b] == "n"
  {
    ExampleA(alignment, table, a, b, c);
    var first := alignment[a := "n"];
    assert Msa.UniformLength(first);
    OneColumnFiltered(first, b, table[b]);
    assert Unique(first, b, table[b], 0);
  }

  lemma ExampleA(alignment: Msa.Alignment, table: map<string, set<string>>, a: string, b: string, c: string)
    requires ExampleSetup(alignment, table, a, b, c)
    requires Msa.WellFormed(alignment) && TableValid(table)
    requires table[a] <= alignment.Keys
    ensures FilterTarget(alignment, a, table[a]) == Ok(alignment[a := "n"])
  {
    OneColumnFiltered(alignment, a, table[a]);
    assert Unique(alignment, a, table[a], 0);
  }

  lemma ExampleBFirst(alignment: Msa.Alignment, table: map<string, set<string>>, a: string, b: string, c: string)
    requires ExampleSetup(alignment, table, a, b, c)
    requires Msa.WellFormed(alignment) && TableValid(table)
    requires table[a] <= alignment.Keys && table[b] <= alignment.Keys
    ensures FilterTarget(alignment, b, table[b]).Ok?
    ensures FilterTarget(alignment, b, table[b]).value == alignment
  {
    OneColumnFiltered(alignment, b, table[b]);
    assert !Unique(alignment, b, table[b], 0) by {
      assert a in table[b] && alignment[a][0] == alignment[b][0];
    }
    assert alignment[b := alignment[b]] == alignment;
  }

  /** The loop over the columns of one target, on a list copy of its
      sequence. */
  method MaskSingletons(alignment: Msa.Alignment, target: string, groups: set<string>) returns (row: string)
    requires Msa.WellFormed(alignment) && target in groups && groups <= alignment.Keys
    ensures row == Filtered(alignment, target, groups)
  {
    var members := PyText.SortedSet(groups);
    var s := alignment[target];
    var sequence := new char[|s|](k requires 0 <= k < |s| => s[k]);
    ghost var spec := Filtered(alignment, target, groups);
    for index := 0 to |s|
      invariant sequence[..] == spec[..index] + s[index..]
    {
      var nt := sequence[index];
      assert nt == s[index];
      if nt !in "Nn-" && Count(Column(alignment, members, index), nt) == 1 {
        sequence[index] := 'n';
      }
      assert sequence[index] == spec[index];
    }
    row := sequence[..];
  }

  /** `FilterSingletonsNode._run` on the alignment `read_msa` returned. */
  method FilterSingletons(alignment: Msa.Alignment, table: map<string, set<string>>, targets: seq<string>)
    returns (r: Result<Msa.Alignment>)
    requires Msa.WellFormed(alignment) && TableValid(table)
    requires forall k :: 0 <= k < |targets| ==> targets[k] in table
    ensures r == FilterAll(alignment, table, targets)
  {
    var current := alignment;
    for n := 0 to |targets|
      invariant FilterAll(alignment, table, targets[..n]) == Ok(current)
    {
      assert targets[..n + 1][..n] == targets[..n];
      var target := targets[n];
      var groups := table[target];
      assert FilterAll(alignment, table, targets[..n + 1]) == FilterTarget(current, target, groups);
      if !(groups <= current.Keys) {
        FilterAllErrStays(alignment, table, targets, n + 1);
        return Err(KeyError);
      }
      var row := MaskSingletons(current, target, groups);
      current := current[target := row];
    }
    assert targets[..|targets|] == targets;
    r := Ok(current);
  }

  // ---------------------------------------------------------------------
  // CollectSequencesNode

  /** The path of the file written for the sequence `name` under
      `directory`. */
  function SequenceFile(directory: string, name: string): string
  {
    FileUtils.PathJoin(directory, name + ".fasta")
  }

  /** The output files the constructor declares. */
  function CollectOutfiles(destination: string, sequences: set<string>): (r: set<string>)
    ensures forall name :: name in sequences ==> SequenceFile(destination, name) in r
    ensures forall p :: p in r ==> exists name :: name in sequences && p == SequenceFile(destination, name)
  {
    set name | name in sequences :: SequenceFile(destination, name)
  }

  /** The file `_run` writes under the temporary directory for a sequence
      is the one `_teardown` moves, and it lands on the output the
      constructor declares for it, named `<name>.fasta`; so names without a
      slash give one distinct output per sequence. */
  lemma CollectOutfileNamed(temp: string, destination: string, name: string)
    requires '/' !in name
    ensures FileUtils.Basename(SequenceFile(temp, name)) == name + ".fasta"
    ensures FileUtils.Basename(SequenceFile(destination, name)) == name + ".fasta"
    ensures SequenceFile(destination, name) == FileUtils.RerootPath(destination, SequenceFile(temp, name))
  {
    var file := name + ".fasta";
    assert '/' !in file by {
      assert file[|name|..] == ".fasta";
      assert forall i :: 0 <= i < |file| ==> file[i] != '/' by {
        forall i | 0 <= i < |file| ensures file[i] != '/' {
          if i < |name| {
            assert file[i] == name[i];
          } else {
            assert file[i] == ".fasta"[i - |name|];
          }
        }
      }
    }
    FileUtils.LastIndexOfNone(file, '/');
    assert FileUtils.Basename(file) == file;
    FileUtils.RerootKeepsBasename(temp, file);
    FileUtils.RerootKeepsBasename(destination, file);
  }

  lemma CollectOutfilesDistinct(destination: string, sequences: set<string>, a: string, b: string)
    requires a in sequences && b in sequences && a != b
    requires '/' !in a && '/' !in b
    ensures SequenceFile(destination, a) != SequenceFile(destination, b)
  {
    CollectOutfileNamed(destination, destination, a);
    CollectOutfileNamed(destination, destination, b);
    assert (a + ".fasta")[..|a|] == a && (b + ".fasta")[..|b|] == b;
  }

  /** `read_fasta(filename)`, as the records it yields or the error it
      raises; a missing file raises OSError. */
  function ReadFasta(parsed: map<string, Result<seq<Fasta.FastaRecord>>>, filename: string): Result<seq<Fasta.FastaRecord>>
  {
    if filename in parsed then parsed[filename] else Err(OSError)
  }

  /** `current_fastas` after the loop over the records of one file. */
  function RecordMap(records: seq<Fasta.FastaRecord>): map<string, string>
    decreases |records|
  {
    if |records| == 0 then map[]
    else
      var last := records[|records| - 1];
      RecordMap(records[..|records| - 1])[last.name := last.sequence]
  }

  /** Its keys are the record names. */
  lemma {:induction false} RecordMapKeys(records: seq<Fasta.FastaRecord>)
    ensures forall j :: 0 <= j < |records| ==> records[j].name in RecordMap(records)
    ensures forall k :: k in RecordMap(records) ==> exists j :: 0 <= j < |records| && records[j].name == k
    decreases |records|
  {
    if |records| > 0 {
      var prefix := records[..|records| - 1];
      RecordMapKeys(prefix);
      forall j | 0 <= j < |prefix| ensures records[j].name in RecordMap(records) {
        assert prefix[j] == records[j];
      }
      forall k | k in RecordMap(records) ensures exists j :: 0 <= j < |records| && records[j].name == k {
        if k != records[|records| - 1].name {
          var j :| 0 <= j < |prefix| && prefix[j].name == k;
          assert records[j] == prefix[j];
        }
      }
    }
  }

  /** Each name maps to the sequence of the last record carrying it. */
  lemma {:induction false} RecordMapLast(records: seq<Fasta.FastaRecord>, j: nat)
    requires j < |records| && LastWithName(records, j)
    ensures records[j].name in RecordMap(records)
    ensures RecordMap(records)[records[j].name] == records[j].sequence
    decreases |records|
  {
    var prefix := records[..|records| - 1];
    if j < |prefix| {
      assert prefix[j] == records[j];
      assert LastWithName(prefix, j);
      RecordMapLast(prefix, j);
    }
  }

  /** No record after position `j` carries the name of record `j`. */
  predicate LastWithName(records: seq<Fasta.FastaRecord>, j: nat)
    requires j < |records|
  {
    forall k :: j < k < |records| ==> records[k].name != records[j].name
  }

  /** The key `fastas` gets for a taxon's records. Written as
      `fastas[name] = current_fastas` after an inner loop that rebinds `name`
      to each record's name, the key is the last record's name, or the taxon
      when the file has no records (`rebound`); the evident intent is the
      taxon. */
  function FastaKey(taxon: string, records: seq<Fasta.FastaRecord>, rebound: bool): string
  {
    if rebound && |records| > 0 then records[|records| - 1].name else taxon
  }

  /** `fastas` after the loop over `infiles`, visited in the order `taxa`. */
  function ReadTaxa(taxa: seq<string>, infiles: map<string, string>, parsed: map<string, Result<seq<Fasta.FastaRecord>>>,
                    rebound: bool): (r: Result<map<string, map<string, string>>>)
    requires forall k :: 0 <= k < |taxa| ==> taxa[k] in infiles
    decreases |taxa|
  {
    if |taxa| == 0 then Ok(map[])
    else
      var last := taxa[|taxa| - 1];
      match ReadTaxa(taxa[..|taxa| - 1], infiles, parsed, rebound)
      case Err(e) => Err(e)
      case Ok(fastas) =>
        match ReadFasta(parsed, infiles[last])
        case Err(e) => Err(e)
        case Ok(records) => Ok(fastas[FastaKey(last, records, rebound) := RecordMap(records)])
  }

  /** One record of an output file: the taxon and the name the sequence
      has in it, then the sequence in lines of 60 characters. */
  function RecordText(taxon: string, current: string, sequence: string): string
  {
    ">" + taxon + " " + current + "\n" + PyText.Join("\n", Utilities.Fragment(60, sequence).value) + "\n"
  }

  /** The text of the output file for `sequenceName`: one record per taxon
      of `fastas`, in the order `taxa`. A taxon lacking the sequence, or
      missing from the sequence's taxa map, raises KeyError. */
  function SequenceText(fastas: map<string, map<string, string>>, taxa: seq<string>, sequenceName: string,
                        taxaMap: map<string, string>): (r: Result<string>)
    requires forall k :: 0 <= k < |taxa| ==> taxa[k] in fastas
    decreases |taxa|
  {
    if |taxa| == 0 then Ok("")
    else
      var last := taxa[|taxa| - 1];
      match SequenceText(fastas, taxa[..|taxa| - 1], sequenceName, taxaMap)
      case Err(e) => Err(e)
      case Ok(text) =>
        if sequenceName !in fastas[last] || last !in taxaMap then Err(KeyError)
        else Ok(text + RecordText(last, taxaMap[last], fastas[last][sequenceName]))
  }

  /** The output files, by sequence name, for the sequences `names`, each
      with one record per taxon of `taxa`. */
  function WriteAll(fastas: map<string, map<string, string>>, taxa: seq<string>, names: seq<string>,
                    sequences: map<string, map<string, string>>): (r: Result<map<string, string>>)
    requires forall k :: 0 <= k < |taxa| ==> taxa[k] in fastas
    requires forall k :: 0 <= k < |names| ==> names[k] in sequences
    decreases |names|
  {
    if |names| == 0 then Ok(map[])
    else
      var last := names[|names| - 1];
      match WriteAll(fastas, taxa, names[..|names| - 1], sequences)
      case Err(e) => Err(e)
      case Ok(files) =>
        match SequenceText(fastas, taxa, last, sequences[last])
        case Err(e) => Err(e)
        case Ok(text) => Ok(files[last := text])
  }

  /** `CollectSequencesNode._run`: the text of each output file, by
      sequence name. */
  function CollectRun(infiles: map<string, string>, sequences: map<string, map<string, string>>,
                      parsed: map<string, Result<seq<Fasta.FastaRecord>>>, rebound: bool): Result<map<string, string>>
  {
    match ReadTaxa(PyText.SortedSet(infiles.Keys), infiles, parsed, rebound)
    case Err(e) => Err(e)
    case Ok(fastas) => WriteAll(fastas, PyText.SortedSet(fastas.Keys), PyText.SortedSet(sequences.Keys), sequences)
  }

  /** Every read of the taxa `taxa` succeeds. */
  predicate AllParsed(taxa: seq<string>, infiles: map<string, string>, parsed: map<string, Result<seq<Fasta.FastaRecord>>>)
    requires forall k :: 0 <= k < |taxa| ==> taxa[k] in infiles
  {
    forall k :: 0 <= k < |taxa| ==> ReadFasta(parsed, infiles[taxa[k]]).Ok?
  }

  /** With each taxon as its key, `fastas` maps every taxon to the records
      of its file; the loop fails at the first file that cannot be read, with
      that file's error. */
  lemma ReadTaxaMeaning(taxa: seq<string>, infiles: map<string, string>,
                        parsed: map<string, Result<seq<Fasta.FastaRecord>>>)
    requires forall k :: 0 <= k < |taxa| ==> taxa[k] in infiles
    ensures ReadTaxa(taxa, infiles, parsed, false).Ok? <==> AllParsed(taxa, infiles, parsed)
    ensures ReadTaxa(taxa, infiles, parsed, false).Ok? ==>
              (forall t :: t in ReadTaxa(taxa, infiles, parsed, false).value ==> t in taxa)
    ensures ReadTaxa(taxa, infiles, parsed, false).Ok? ==>
              (forall k :: 0 <= k < |taxa| ==>
                 (taxa[k] in ReadTaxa(taxa, infiles, parsed, false).value
                  && ReadTaxa(taxa, infiles, parsed, false).value[taxa[k]] == RecordMap(ReadFasta(parsed, infiles[taxa[k]]).value)))
    ensures ReadTaxa(taxa, infiles, parsed, false).Err? ==>
              exists k :: 0 <= k < |taxa| && AllParsed(taxa[..k], infiles, parsed)
                && ReadFasta(parsed, infiles[taxa[k]]) == Err(ReadTaxa(taxa, infiles, parsed, false).error)
  {
    ReadTaxaOutcome(taxa, infiles, parsed);
    if AllParsed(taxa, infiles, parsed) {
      ReadTaxaValues(taxa, infiles, parsed);
    }
  }

  /** The loop succeeds exactly when every file is read, and otherwise
      fails with the error of the first file that is not. */
  lemma {:induction false} ReadTaxaOutcome(taxa: seq<string>, infiles: map<string, string>,
                                           parsed: map<string, Result<seq<Fasta.FastaRecord>>>)
    requires forall k :: 0 <= k < |taxa| ==> taxa[k] in infiles
    ensures ReadTaxa(taxa, infiles, parsed, false).Ok? <==> AllParsed(taxa, infiles, parsed)
    ensures ReadTaxa(taxa, infiles, parsed, false).Err? ==>
              exists k :: 0 <= k < |taxa| && AllParsed(taxa[..k], infiles, parsed)
                && ReadFasta(parsed, infiles[taxa[k]]) == Err(ReadTaxa(taxa, infiles, parsed, false).error)
    decreases |taxa|
  {
    if |taxa| > 0 {
      var prefix := taxa[..|taxa| - 1];
      var last := taxa[|taxa| - 1];
      ReadTaxaOutcome(prefix, infiles, parsed);
      var before := ReadTaxa(prefix, infiles, parsed, false);
      AllParsedSnoc(taxa, infiles, parsed);
      if before.Err? {
        var k :| 0 <= k < |prefix| && AllParsed(prefix[..k], infiles, parsed)
                 && ReadFasta(parsed, infiles[prefix[k]]) == Err(before.error);
        assert prefix[..k] == taxa[..k] && prefix[k] == taxa[k];
      } else if ReadFasta(parsed, infiles[last]).Err? {
        assert taxa[..|taxa| - 1] == prefix;
      }
    }
  }

  /** Every file read means every taxon read is a key, and nothing else. */
  lemma {:induction false} ReadTaxaValues(taxa: seq<string>, infiles: map<string, string>,
                                          parsed: map<string, Result<seq<Fasta.FastaRecord>>>)
    requires forall k :: 0 <= k < |taxa| ==> taxa[k] in infiles
    requires AllParsed(taxa, infiles, parsed)
    ensures ReadTaxa(taxa, infiles, parsed, false).Ok?
    ensures forall t :: t in ReadTaxa(taxa, infiles, parsed, false).value ==> t in taxa
    ensures forall k :: 0 <= k < |taxa| ==>
              taxa[k] in ReadTaxa(taxa, infiles, parsed, false).value
              && ReadTaxa(taxa, infiles, parsed, false).value[taxa[k]] == RecordMap(ReadFasta(parsed, infiles[taxa[k]]).value)
    decreases |taxa|
  {
    if |taxa| > 0 {
      var prefix := taxa[..|taxa| - 1];
      var last := taxa[|taxa| - 1];
      AllParsedSnoc(taxa, infiles, parsed);
      ReadTaxaValues(prefix, infiles, parsed);
      var r := ReadTaxa(taxa, infiles, parsed, false);
      forall k | 0 <= k < |taxa|
        ensures taxa[k] in r.value && r.value[taxa[k]] == RecordMap(ReadFasta(parsed, infiles[taxa[k]]).value)
      {
        if k < |prefix| {
          assert taxa[k] == prefix[k];
        }
      }
      forall t | t in r.value ensures t in taxa {
        if t != last {
          assert t in prefix;
        }
      }
    }
  }

  /** Every file of `taxa` is read exactly when those of all but the last
      are and the last one is. */
  lemma AllParsedSnoc(taxa: seq<string>, infiles: map<string, string>,
                      parsed: map<string, Result<seq<Fasta.FastaRecord>>>)
    requires forall k :: 0 <= k < |taxa| ==> taxa[k] in infiles
    requires |taxa| > 0
    ensures AllParsed(taxa, infiles, parsed) <==>
      AllParsed(taxa[..|taxa| - 1], infiles, parsed) && ReadFasta(parsed, infiles[taxa[|taxa| - 1]]).Ok?
  {
    var prefix := taxa[..|taxa| - 1];
    assert forall k :: 0 <= k < |prefix| ==> prefix[k] == taxa[k];
  }

  /** Every taxon of `taxa` has the sequence and a name for it. */
  predicate Present(fastas: map<string, map<string, string>>, taxa: seq<string>, sequenceName: string,
                    taxaMap: map<string, string>)
  {
    forall k :: 0 <= k < |taxa| ==> taxa[k] in fastas && sequenceName in fastas[taxa[k]] && taxa[k] in taxaMap
  }

  /** The records of an output file, one per taxon. */
  function TaxonTexts(fastas: map<string, map<string, string>>, taxa: seq<string>, sequenceName: string,
                      taxaMap: map<string, string>): (r: seq<string>)
    requires Present(fastas, taxa, sequenceName, taxaMap)
    ensures |r| == |taxa|
  {
    seq(|taxa|, k requires 0 <= k < |taxa| && Present(fastas, taxa, sequenceName, taxaMap) =>
      RecordText(taxa[k], taxaMap[taxa[k]], fastas[taxa[k]][sequenceName]))
  }

  /** The records of `taxa` are those of all but its last taxon, then the
      last one's. */
  lemma TaxonTextsSnoc(fastas: map<string, map<string, string>>, taxa: seq<string>, sequenceName: string,
                       taxaMap: map<string, string>)
    requires |taxa| > 0 && Present(fastas, taxa[..|taxa| - 1], sequenceName, taxaMap)
    requires taxa[|taxa| - 1] in fastas && sequenceName in fastas[taxa[|taxa| - 1]] && taxa[|taxa| - 1] in taxaMap
    ensures Present(fastas, taxa, sequenceName, taxaMap)
    ensures var last := taxa[|taxa| - 1];
      TaxonTexts(fastas, taxa, sequenceName, taxaMap) ==
      TaxonTexts(fastas, taxa[..|taxa| - 1], sequenceName, taxaMap) + [RecordText(last, taxaMap[last], fastas[last][sequenceName])]
  {
    var prefix := taxa[..|taxa| - 1];
    forall k | 0 <= k < |taxa| ensures taxa[k] in fastas && sequenceName in fastas[taxa[k]] && taxa[k] in taxaMap {
      if k < |prefix| {
        assert taxa[k] == prefix[k];
      }
    }
  }

  /** An output file is written exactly when every taxon has the sequence
      and a name for it, and then holds one record per taxon in order;
      otherwise KeyError. */
  lemma {:induction false} SequenceTextMeaning(fastas: map<string, map<string, string>>, taxa: seq<string>,
                                               sequenceName: string, taxaMap: map<string, string>)
    requires forall k :: 0 <= k < |taxa| ==> taxa[k] in fastas
    ensures SequenceText(fastas, taxa, sequenceName, taxaMap).Ok? <==> Present(fastas, taxa, sequenceName, taxaMap)
    ensures SequenceText(fastas, taxa, sequenceName, taxaMap).Err? ==> SequenceText(fastas, taxa, sequenceName, taxaMap).error == KeyError
    ensures SequenceText(fastas, taxa, sequenceName, taxaMap).Ok? ==>
              SequenceText(fastas, taxa, sequenceName, taxaMap).value == Flatten(TaxonTexts(fastas, taxa, sequenceName, taxaMap))
    decreases |taxa|
  {
    if |taxa| > 0 {
      var prefix := taxa[..|taxa| - 1];
      var last := taxa[|taxa| - 1];
      SequenceTextMeaning(fastas, prefix, sequenceName, taxaMap);
      var before := SequenceText(fastas, prefix, sequenceName, taxaMap);
      if before.Err? {
        var k :| 0 <= k < |prefix| && !(prefix[k] in fastas && sequenceName in fastas[prefix[k]] && prefix[k] in taxaMap);
        assert taxa[k] == prefix[k];
      } else if sequenceName in fastas[last] && last in taxaMap {
        TaxonTextsSnoc(fastas, taxa, sequenceName, taxaMap);
        FlattenSnoc(TaxonTexts(fastas, prefix, sequenceName, taxaMap), RecordText(last, taxaMap[last], fastas[last][sequenceName]));
      }
    }
  }

  /** The output files are written exactly when every sequence's file is,
      one per sequence name, each holding its text; otherwise KeyError. */
  lemma {:induction false} WriteAllMeaning(fastas: map<string, map<string, string>>, taxa: seq<string>, names: seq<string>,
                                           sequences: map<string, map<string, string>>)
    requires forall k :: 0 <= k < |taxa| ==> taxa[k] in fastas
    requires forall k :: 0 <= k < |names| ==> names[k] in sequences
    ensures WriteAll(fastas, taxa, names, sequences).Ok?
            <==> forall k :: 0 <= k < |names| ==> SequenceText(fastas, taxa, names[k], sequences[names[k]]).Ok?
    ensures WriteAll(fastas, taxa, names, sequences).Err? ==> WriteAll(fastas, taxa, names, sequences).error == KeyError
    ensures WriteAll(fastas, taxa, names, sequences).Ok? ==>
              (forall n :: n in WriteAll(fastas, taxa, names, sequences).value ==> n in names)
    ensures WriteAll(fastas, taxa, names, sequences).Ok? ==>
              (forall k :: 0 <= k < |names| ==>
                 (names[k] in WriteAll(fastas, taxa, names, sequences).value
                  && WriteAll(fastas, taxa, names, sequences).value[names[k]]
                     == SequenceText(fastas, taxa, names[k], sequences[names[k]]).value))
    decreases |names|
  {
    if |names| > 0 {
      var prefix := names[..|names| - 1];
      var last := names[|names| - 1];
      WriteAllMeaning(fastas, taxa, prefix, sequences);
      SequenceTextMeaning(fastas, taxa, last, sequences[last]);
      var before := WriteAll(fastas, taxa, prefix, sequences);
      var r := WriteAll(fastas, taxa, names, sequences);
      if before.Err? {
        var k :| 0 <= k < |prefix| && !SequenceText(fastas, taxa, prefix[k], sequences[prefix[k]]).Ok?;
        assert names[k] == prefix[k];
      } else if SequenceText(fastas, taxa, last, sequences[last]).Ok? {
        forall k | 0 <= k < |names|
          ensures SequenceText(fastas, taxa, names[k], sequences[names[k]]).Ok?
          ensures names[k] in r.value && r.value[names[k]] == SequenceText(fastas, taxa, names[k], sequences[names[k]]).value
        {
          if k < |prefix| {
            assert names[k] == prefix[k];
          }
        }
        forall n | n in r.value ensures n in names {
          if n != last {
            assert n in prefix;
          }
        }
      }
    }
  }

  /** Every file can be read, and every requested sequence is in every
      taxon's file and has a name for every taxon. */
  predicate Collectable(infiles: map<string, string>, sequences: map<string, map<string, string>>,
                        parsed: map<string, Result<seq<Fasta.FastaRecord>>>)
  {
    && (forall t :: t in infiles ==> ReadFasta(parsed, infiles[t]).Ok?)
    && forall s, t :: s in sequences && t in infiles ==>
         s in RecordMap(ReadFasta(parsed, infiles[t]).value) && t in sequences[s]
  }

  /** The records of each taxon's file, by taxon. */
  function Fastas(infiles: map<string, string>, parsed: map<string, Result<seq<Fasta.FastaRecord>>>): map<string, map<string, string>>
    requires forall t :: t in infiles ==> ReadFasta(parsed, infiles[t]).Ok?
  {
    map t | t in infiles :: RecordMap(ReadFasta(parsed, infiles[t]).value)
  }

  /** Reading keyed by taxon, in any order that visits each taxon, gives
      `Fastas` when every file can be read, and a read error otherwise. */
  lemma ReadInOrder(taxa: seq<string>, infiles: map<string, string>, parsed: map<string, Result<seq<Fasta.FastaRecord>>>)
    requires forall t :: t in infiles <==> t in taxa
    ensures ReadTaxa(taxa, infiles, parsed, false).Ok? <==> forall t :: t in infiles ==> ReadFasta(parsed, infiles[t]).Ok?
    ensures ReadTaxa(taxa, infiles, parsed, false).Ok? ==> ReadTaxa(taxa, infiles, parsed, false).value == Fastas(infiles, parsed)
    ensures ReadTaxa(taxa, infiles, parsed, false).Err? ==>
              (exists t :: t in infiles && ReadFasta(parsed, infiles[t]) == Err(ReadTaxa(taxa, infiles, parsed, false).error))
  {
    ReadTaxaMeaning(taxa, infiles, parsed);
    var r := ReadTaxa(taxa, infiles, parsed, false);
    if forall t :: t in infiles ==> ReadFasta(parsed, infiles[t]).Ok? {
      assert AllParsed(taxa, infiles, parsed);
      assert r.value == Fastas(infiles, parsed) by {
        forall t | t in infiles ensures t in r.value && r.value[t] == RecordMap(ReadFasta(parsed, infiles[t]).value) {
          var k :| 0 <= k < |taxa| && taxa[k] == t;
        }
      }
    } else {
      assert !AllParsed(taxa, infiles, parsed) by {
        var t :| t in infiles && !ReadFasta(parsed, infiles[t]).Ok?;
        var k :| 0 <= k < |taxa| && taxa[k] == t;
      }
      var k :| 0 <= k < |taxa| && AllParsed(taxa[..k], infiles, parsed) && ReadFasta(parsed, infiles[taxa[k]]) == Err(r.error);
      assert taxa[k] in infiles;
    }
  }

  /** Writing, in any orders that visit each taxon and each sequence,
      succeeds exactly when every sequence is in every taxon's records and
      has a name for every taxon, and then gives one file per sequence. */
  lemma WriteInOrder(fastas: map<string, map<string, string>>, taxa: seq<string>, names: seq<string>,
                     sequences: map<string, map<string, string>>)
    requires forall t :: t in fastas <==> t in taxa
    requires forall s :: s in sequences <==> s in names
    ensures WriteAll(fastas, taxa, names, sequences).Ok?
            <==> forall s, t :: s in sequences && t in fastas ==> s in fastas[t] && t in sequences[s]
    ensures WriteAll(fastas, taxa, names, sequences).Err? ==> WriteAll(fastas, taxa, names, sequences).error == KeyError
    ensures WriteAll(fastas, taxa, names, sequences).Ok? ==> WriteAll(fastas, taxa, names, sequences).value.Keys == sequences.Keys
    ensures WriteAll(fastas, taxa, names, sequences).Ok? ==>
              (forall s :: s in sequences ==>
                 WriteAll(fastas, taxa, names, sequences).value[s] == Flatten(TaxonTexts(fastas, taxa, s, sequences[s])))
  {
    WriteAllMeaning(fastas, taxa, names, sequences);
    forall k | 0 <= k < |names| {
      SequenceTextMeaning(fastas, taxa, names[k], sequences[names[k]]);
    }
    var r := WriteAll(fastas, taxa, names, sequences);
    if forall s, t :: s in sequences && t in fastas ==> s in fastas[t] && t in sequences[s] {
      assert r.Ok? by {
        forall k | 0 <= k < |names| ensures Present(fastas, taxa, names[k], sequences[names[k]]) {
          forall j | 0 <= j < |taxa| ensures taxa[j] in fastas && names[k] in fastas[taxa[j]] && taxa[j] in sequences[names[k]] {
            assert names[k] in sequences;
          }
        }
      }
      forall s | s in sequences ensures s in r.value && r.value[s] == Flatten(TaxonTexts(fastas, taxa, s, sequences[s])) {
        var k :| 0 <= k < |names| && names[k] == s;
      }
    } else {
      var s, t :| s in sequences && t in fastas && !(s in fastas[t] && t in sequences[s]);
      var k :| 0 <= k < |names| && names[k] == s;
      var j :| 0 <= j < |taxa| && taxa[j] == t;
      assert !Present(fastas, taxa, names[k], sequences[names[k]]);
    }
  }

  /** The files written when every taxon of `taxa` has every sequence and
      a name for it: for each requested sequence, one record per taxon in
      the order of `taxa`. */
  function Written(fastas: map<string, map<string, string>>, taxa: seq<string>,
                   sequences: map<string, map<string, string>>): map<string, string>
    requires forall s :: s in sequences ==> Present(fastas, taxa, s, sequences[s])
  {
    map s | s in sequences :: Flatten(TaxonTexts(fastas, taxa, s, sequences[s]))
  }

  lemma AllPresent(fastas: map<string, map<string, string>>, taxa: seq<string>,
                   sequences: map<string, map<string, string>>)
    requires forall t :: t in fastas <==> t in taxa
    requires forall s, t :: s in sequences && t in fastas ==> s in fastas[t] && t in sequences[s]
    ensures forall s :: s in sequences ==> Present(fastas, taxa, s, sequences[s])
  {
    forall s | s in sequences ensures Present(fastas, taxa, s, sequences[s]) {
      forall k | 0 <= k < |taxa| ensures taxa[k] in fastas && s in fastas[taxa[k]] && taxa[k] in sequences[s] {
        assert taxa[k] in fastas;
      }
    }
  }

  /** Writing, in any orders that visit each taxon and each sequence, when
      every sequence is in every taxon's records and has a name for every
      taxon (so that `AllPresent` holds), gives `Written`. */
  lemma WriteWritten(fastas: map<string, map<string, string>>, taxa: seq<string>, names: seq<string>,
                     sequences: map<string, map<string, string>>)
    requires forall t :: t in fastas <==> t in taxa
    requires forall s :: s in sequences <==> s in names
    requires forall s, t :: s in sequences && t in fastas ==> s in fastas[t] && t in sequences[s]
    requires forall s :: s in sequences ==> Present(fastas, taxa, s, sequences[s])
    ensures WriteAll(fastas, taxa, names, sequences) == Ok(Written(fastas, taxa, sequences))
  {
    WriteInOrder(fastas, taxa, names, sequences);
    var files := WriteAll(fastas, taxa, names, sequences).value;
    var w := Written(fastas, taxa, sequences);
    assert files.Keys == w.Keys;
    assert forall s :: s in files ==> files[s] == w[s];
    assert files == w;
  }

  /** The files written when everything is present: for each requested
      sequence, one record per taxon in sorted order. */
  function CollectedFiles(infiles: map<string, string>, sequences: map<string, map<string, string>>,
                          parsed: map<string, Result<seq<Fasta.FastaRecord>>>): map<string, string>
    requires Collectable(infiles, sequences, parsed)
  {
    var fastas := Fastas(infiles, parsed);
    var taxa := PyText.SortedSet(infiles.Keys);
    CollectablePresent(infiles, sequences, parsed);
    AllPresent(fastas, taxa, sequences);
    Written(fastas, taxa, sequences)
  }

  /** `CollectSequencesNode._run` succeeds exactly when every file can be
      read, every requested sequence is in every taxon's file and has a name
      for every taxon, and then writes `CollectedFiles`; otherwise it raises
      KeyError or a read error. */
  lemma CollectRunMeaning(infiles: map<string, string>, sequences: map<string, map<string, string>>,
                          parsed: map<string, Result<seq<Fasta.FastaRecord>>>)
    ensures Collectable(infiles, sequences, parsed) ==>
              CollectRun(infiles, sequences, parsed, false) == Ok(CollectedFiles(infiles, sequences, parsed))
    ensures !Collectable(infiles, sequences, parsed) ==>
              (CollectRun(infiles, sequences, parsed, false) == Err(KeyError)
               || exists t :: t in infiles && ReadFasta(parsed, infiles[t]).Err?
                    && CollectRun(infiles, sequences, parsed, false) == ReadFasta(parsed, infiles[t]).PropagateFailure())
  {
    if Collectable(infiles, sequences, parsed) {
      CollectRunOk(infiles, sequences, parsed);
    } else {
      CollectRunErr(infiles, sequences, parsed);
    }
  }

  lemma CollectRunOk(infiles: map<string, string>, sequences: map<string, map<string, string>>,
                     parsed: map<string, Result<seq<Fasta.FastaRecord>>>)
    requires Collectable(infiles, sequences, parsed)
    ensures CollectRun(infiles, sequences, parsed, false) == Ok(CollectedFiles(infiles, sequences, parsed))
  {
    CollectReadOk(infiles, parsed);
    var fastas := Fastas(infiles, parsed);
    assert fastas.Keys == infiles.Keys;
    CollectWriteOk(infiles, sequences, parsed);
  }

  lemma CollectReadOk(infiles: map<string, string>, parsed: map<string, Result<seq<Fasta.FastaRecord>>>)
    requires forall t :: t in infiles ==> ReadFasta(parsed, infiles[t]).Ok?
    ensures ReadTaxa(PyText.SortedSet(infiles.Keys), infiles, parsed, false) == Ok(Fastas(infiles, parsed))
  {
    ReadInOrder(PyText.SortedSet(infiles.Keys), infiles, parsed);
  }

  lemma CollectWriteOk(infiles: map<string, string>, sequences: map<string, map<string, string>>,
                       parsed: map<string, Result<seq<Fasta.FastaRecord>>>)
    requires Collectable(infiles, sequences, parsed)
    ensures WriteAll(Fastas(infiles, parsed), PyText.SortedSet(infiles.Keys), PyText.SortedSet(sequences.Keys), sequences)
            == Ok(CollectedFiles(infiles, sequences, parsed))
  {
    CollectablePresent(infiles, sequences, parsed);
    AllPresent(Fastas(infiles, parsed), PyText.SortedSet(infiles.Keys), sequences);
    WriteWritten(Fastas(infiles, parsed), PyText.SortedSet(infiles.Keys), PyText.SortedSet(sequences.Keys), sequences);
  }

  lemma CollectablePresent(infiles: map<string, string>, sequences: map<string, map<string, string>>,
                           parsed: map<string, Result<seq<Fasta.FastaRecord>>>)
    requires Collectable(infiles, sequences, parsed)
    ensures forall s, t :: s in sequences && t in Fastas(infiles, parsed) ==>
              s in Fastas(infiles, parsed)[t] && t in sequences[s]
  {
  }

  lemma CollectRunErr(infiles: map<string, string>, sequences: map<string, map<string, string>>,
                      parsed: map<string, Result<seq<Fasta.FastaRecord>>>)
    requires !Collectable(infiles, sequences, parsed)
    ensures CollectRun(infiles, sequences, parsed, false) == Err(KeyError)
            || exists t :: t in infiles && ReadFasta(parsed, infiles[t]).Err?
                 && CollectRun(infiles, sequences, parsed, false) == ReadFasta(parsed, infiles[t]).PropagateFailure()
  {
    if forall t :: t in infiles ==> ReadFasta(parsed, infiles[t]).Ok? {
      CollectReadOk(infiles, parsed);
      CollectableMissing(infiles, sequences, parsed);
      var fastas := Fastas(infiles, parsed);
      assert fastas.Keys == infiles.Keys;
      WriteMissing(fastas, PyText.SortedSet(infiles.Keys), PyText.SortedSet(sequences.Keys), sequences);
    } else {
      CollectReadErr(infiles, parsed);
    }
  }

  lemma CollectReadErr(infiles: map<string, string>, parsed: map<string, Result<seq<Fasta.FastaRecord>>>)
    requires !forall t :: t in infiles ==> ReadFasta(parsed, infiles[t]).Ok?
    ensures exists t :: t in infiles && ReadFasta(parsed, infiles[t]).Err?
              && ReadTaxa(PyText.SortedSet(infiles.Keys), infiles, parsed, false) == Err(ReadFasta(parsed, infiles[t]).error)
  {
    var taxa := PyText.SortedSet(infiles.Keys);
    ReadInOrder(taxa, infiles, parsed);
    var t :| t in infiles && ReadFasta(parsed, infiles[t]) == Err(ReadTaxa(taxa, infiles, parsed, false).error);
  }

  lemma CollectableMissing(infiles: map<string, string>, sequences: map<string, map<string, string>>,
                           parsed: map<string, Result<seq<Fasta.FastaRecord>>>)
    requires forall t :: t in infiles ==> ReadFasta(parsed, infiles[t]).Ok?
    requires !Collectable(infiles, sequences, parsed)
    ensures !forall s, t :: s in sequences && t in Fastas(infiles, parsed) ==>
               s in Fastas(infiles, parsed)[t] && t in sequences[s]
  {
    var s, t :| s in sequences && t in infiles && !(s in RecordMap(ReadFasta(parsed, infiles[t]).value) && t in sequences[s]);
    assert t in Fastas(infiles, parsed);
  }

  /** Writing, in any orders that visit each taxon and each sequence, when
      some sequence is missing from some taxon's records or has no name for
      it, raises KeyError. */
  lemma WriteMissing(fastas: map<string, map<string, string>>, taxa: seq<string>, names: seq<string>,
                     sequences: map<string, map<string, string>>)
    requires forall t :: t in fastas <==> t in taxa
    requires forall s :: s in sequences <==> s in names
    requires !forall s, t :: s in sequences && t in fastas ==> s in fastas[t] && t in sequences[s]
    ensures WriteAll(fastas, taxa, names, sequences) == Err(KeyError)
  {
    WriteInOrder(fastas, taxa, names, sequences);
  }

  /** Written as `fastas[name] = current_fastas`, a taxon whose file's last
      record is named differently is filed under that name, and the taxa
      map has no entry for it: one taxon whose file holds the one record
      the sequence asks for raises KeyError, where keying by taxon writes
      the record. */
  lemma ReboundLosesTaxon(taxon: string, file: string, record: Fasta.FastaRecord,
                          infiles: map<string, string>, sequences: map<string, map<string, string>>,
                          parsed: map<string, Result<seq<Fasta.FastaRecord>>>)
    requires record.name != taxon
    requires infiles == map[taxon := file] && parsed == map[file := Ok([record])]
    requires sequences == map[record.name := map[taxon := record.name]]
    ensures CollectRun(infiles, sequences, parsed, true) == Err(KeyError)
  {
    SortedOne(taxon);
    ReadOne(taxon, file, [record], true);
    OneRecord(record);
    var shadowed := map[record.name := map[record.name := record.sequence]];
    assert ReadTaxa(PyText.SortedSet(infiles.Keys), infiles, parsed, true) == Ok(shadowed);
    assert shadowed.Keys == {record.name} && sequences.Keys == {record.name};
    SortedOne(record.name);
    TextOne(shadowed, record.name, record.name, sequences[record.name]);
    WriteOne(shadowed, [record.name], record.name, sequences);
  }

  /** The same input, with each file keyed by its taxon, writes the
      record. */
  lemma KeyedKeepsTaxon(taxon: string, file: string, record: Fasta.FastaRecord,
                        infiles: map<string, string>, sequences: map<string, map<string, string>>,
                        parsed: map<string, Result<seq<Fasta.FastaRecord>>>)
    requires infiles == map[taxon := file] && parsed == map[file := Ok([record])]
    requires sequences == map[record.name := map[taxon := record.name]]
    ensures CollectRun(infiles, sequences, parsed, false) == Ok(map[record.name := RecordText(taxon, record.name, record.sequence)])
  {
    SortedOne(taxon);
    ReadOne(taxon, file, [record], false);
    OneRecord(record);
    var fastas := map[taxon := map[record.name := record.sequence]];
    assert ReadTaxa(PyText.SortedSet(infiles.Keys), infiles, parsed, false) == Ok(fastas);
    assert fastas.Keys == {taxon} && sequences.Keys == {record.name};
    SortedOne(record.name);
    TextOne(fastas, taxon, record.name, sequences[record.name]);
    WriteOne(fastas, [taxon], record.name, sequences);
  }

  lemma OneRecord(record: Fasta.FastaRecord)
    ensures RecordMap([record]) == map[record.name := record.sequence]
  {
    assert [record][..0] == [];
  }

  /** The sorted order of one name. */
  lemma SortedOne(x: string)
    ensures PyText.SortedSet({x}) == [x]
  {
    var r := PyText.SortedSet({x});
    assert |r| == 1 && x in r;
  }

  /** Reading one taxon's file files its records under `FastaKey`. */
  lemma ReadOne(taxon: string, file: string, records: seq<Fasta.FastaRecord>, rebound: bool)
    ensures ReadTaxa([taxon], map[taxon := file], map[file := Ok(records)], rebound)
            == Ok(map[FastaKey(taxon, records, rebound) := RecordMap(records)])
  {
    assert [taxon][..0] == [];
  }

  /** The output file for one taxon holds its one record, or KeyError. */
  lemma TextOne(fastas: map<string, map<string, string>>, taxon: string, sequenceName: string, taxaMap: map<string, string>)
    requires taxon in fastas
    ensures SequenceText(fastas, [taxon], sequenceName, taxaMap)
            == if sequenceName in fastas[taxon] && taxon in taxaMap
               then Ok(RecordText(taxon, taxaMap[taxon], fastas[taxon][sequenceName]))
               else Err(KeyError)
  {
    assert [taxon][..0] == [];
    if sequenceName in fastas[taxon] && taxon in taxaMap {
      var text := RecordText(taxon, taxaMap[taxon], fastas[taxon][sequenceName]);
      assert "" + text == text;
    }
  }

  /** Writing one sequence's file. */
  lemma WriteOne(fastas: map<string, map<string, string>>, taxa: seq<string>, sequenceName: string,
                 sequences: map<string, map<string, string>>)
    requires forall k :: 0 <= k < |taxa| ==> taxa[k] in fastas
    requires sequenceName in sequences
    ensures WriteAll(fastas, taxa, [sequenceName], sequences)
            == match SequenceText(fastas, taxa, sequenceName, sequences[sequenceName])
               case Err(e) => Err(e)
               case Ok(text) => Ok(map[sequenceName := text])
  {
    assert [sequenceName][..0] == [];
  }

  lemma {:induction false} NewlinesJoin(chunks: seq<string>)
    requires |chunks| > 0
    ensures Flatten(Fasta.WithNewlines(chunks)) == PyText.Join("\n", chunks) + "\n"
    decreases |chunks|
  {
    if |chunks| > 1 {
      NewlinesJoin(chunks[1..]);
    }
  }

  /** A record of a non-empty sequence is what `wrap_fasta` writes for the
      header "taxon name": sequence lines of 60 characters, the last one
      possibly shorter. */
  lemma RecordTextIsWrapFasta(taxon: string, current: string, sequence: string)
    requires |sequence| > 0
    ensures RecordText(taxon, current, sequence) == Fasta.WrapFasta(taxon + " " + current, sequence)
  {
    var chunks := Utilities.Fragment(60, sequence).value;
    assert chunks != [];
    var header := ">" + (taxon + " " + current);
    var lines := Fasta.FastaLines(taxon + " " + current, sequence);
    assert lines == [header] + chunks;
    assert Fasta.WithNewlines(lines) == [header + "\n"] + Fasta.WithNewlines(chunks);
    NewlinesJoin(chunks);
    assert Flatten([header + "\n"] + Fasta.WithNewlines(chunks)) == header + "\n" + Flatten(Fasta.WithNewlines(chunks));
  }

  /** Once the loop over the files has failed, it fails with the same error
      however many files follow. */
  lemma {:induction false} ReadTaxaErrStays(taxa: seq<string>, infiles: map<string, string>,
                                            parsed: map<string, Result<seq<Fasta.FastaRecord>>>, rebound: bool, i: nat)
    requires forall k :: 0 <= k < |taxa| ==> taxa[k] in infiles
    requires i <= |taxa| && ReadTaxa(taxa[..i], infiles, parsed, rebound).Err?
    ensures ReadTaxa(taxa, infiles, parsed, rebound) == ReadTaxa(taxa[..i], infiles, parsed, rebound)
    decreases |taxa|
  {
    if i < |taxa| {
      var prefix := taxa[..|taxa| - 1];
      assert prefix[..i] == taxa[..i];
      ReadTaxaErrStays(prefix, infiles, parsed, rebound, i);
    } else {
      assert taxa[..i] == taxa;
    }
  }

  /** Once an output file has failed, it fails however many taxa follow. */
  lemma {:induction false} SequenceTextErrStays(fastas: map<string, map<string, string>>, taxa: seq<string>,
                                                sequenceName: string, taxaMap: map<string, string>, i: nat)
    requires forall k :: 0 <= k < |taxa| ==> taxa[k] in fastas
    requires i <= |taxa| && SequenceText(fastas, taxa[..i], sequenceName, taxaMap).Err?
    ensures SequenceText(fastas, taxa, sequenceName, taxaMap) == SequenceText(fastas, taxa[..i], sequenceName, taxaMap)
    decreases |taxa|
  {
    if i < |taxa| {
      var prefix := taxa[..|taxa| - 1];
      assert prefix[..i] == taxa[..i];
      SequenceTextErrStays(fastas, prefix, sequenceName, taxaMap, i);
    } else {
      assert taxa[..i] == taxa;
    }
  }

  /** Once writing has failed, it fails however many sequences follow. */
  lemma {:induction false} WriteAllErrStays(fastas: map<string, map<string, string>>, taxa: seq<string>, names: seq<string>,
                                            sequences: map<string, map<string, string>>, i: nat)
    requires forall k :: 0 <= k < |taxa| ==> taxa[k] in fastas
    requires forall k :: 0 <= k < |names| ==> names[k] in sequences
    requires i <= |names| && WriteAll(fastas, taxa, names[..i], sequences).Err?
    ensures WriteAll(fastas, taxa, names, sequences) == WriteAll(fastas, taxa, names[..i], sequences)
    decreases |names|
  {
    if i < |names| {
      var prefix := names[..|names| - 1];
      assert prefix[..i] == names[..i];
      WriteAllErrStays(fastas, taxa, prefix, sequences, i);
    } else {
      assert names[..i] == names;
    }
  }

  /** The records of one file, by record name, as the inner loop of
      `CollectSequencesNode._run` gathers them. */
  method ReadRecords(records: seq<Fasta.FastaRecord>) returns (current: map<string, string>)
    ensures current == RecordMap(records)
  {
    current := map[];
    for j := 0 to |records|
      invariant current == RecordMap(records[..j])
    {
      assert records[..j + 1][..j] == records[..j];
      current := current[records[j].name := records[j].sequence];
    }
    assert records[..|records|] == records;
  }

  /** The text of one output file: a record per taxon, in the order of
      `taxa`, or KeyError when a taxon lacks the sequence or a name. */
  method WriteSequence(fastas: map<string, map<string, string>>, taxa: seq<string>, sequenceName: string,
                       taxaMap: map<string, string>) returns (r: Result<string>)
    requires forall k :: 0 <= k < |taxa| ==> taxa[k] in fastas
    ensures r == SequenceText(fastas, taxa, sequenceName, taxaMap)
  {
    var lines: seq<string> := [];
    for j := 0 to |taxa|
      invariant SequenceText(fastas, taxa[..j], sequenceName, taxaMap) == Ok(Flatten(lines))
    {
      var taxon := taxa[j];
      assert taxa[..j + 1][..j] == taxa[..j];
      if sequenceName !in fastas[taxon] || taxon !in taxaMap {
        SequenceTextErrStays(fastas, taxa, sequenceName, taxaMap, j + 1);
        return Err(KeyError);
      }
      FlattenSnoc(lines, RecordText(taxon, taxaMap[taxon], fastas[taxon][sequenceName]));
      lines := lines + [RecordText(taxon, taxaMap[taxon], fastas[taxon][sequenceName])];
    }
    assert taxa[..|taxa|] == taxa;
    r := Ok(Flatten(lines));
  }

  /** The first loop of `CollectSequencesNode._run`: every taxon's file is
      read, in the order `taxa`, and its records are filed under the taxon. */
  method ReadFiles(taxa: seq<string>, infiles: map<string, string>,
                   parsed: map<string, Result<seq<Fasta.FastaRecord>>>) returns (r: Result<map<string, map<string, string>>>)
    requires forall k :: 0 <= k < |taxa| ==> taxa[k] in infiles
    ensures r == ReadTaxa(taxa, infiles, parsed, false)
  {
    var fastas: map<string, map<string, string>> := map[];
    for i := 0 to |taxa|
      invariant ReadTaxa(taxa[..i], infiles, parsed, false) == Ok(fastas)
    {
      var taxon := taxa[i];
      assert taxa[..i + 1][..i] == taxa[..i];
      var read := ReadFasta(parsed, infiles[taxon]);
      if read.Err? {
        ReadTaxaErrStays(taxa, infiles, parsed, false, i + 1);
        return Err(read.error);
      }
      var current := ReadRecords(read.value);
      fastas := fastas[taxon := current];
    }
    assert taxa[..|taxa|] == taxa;
    r := Ok(fastas);
  }

  /** The second loop of `CollectSequencesNode._run`: one file per sequence
      name, in the order `names`. */
  method WriteFiles(fastas: map<string, map<string, string>>, taxa: seq<string>, names: seq<string>,
                    sequences: map<string, map<string, string>>) returns (r: Result<map<string, string>>)
    requires forall k :: 0 <= k < |taxa| ==> taxa[k] in fastas
    requires forall k :: 0 <= k < |names| ==> names[k] in sequences
    ensures r == WriteAll(fastas, taxa, names, sequences)
  {
    var files: map<string, string> := map[];
    for i := 0 to |names|
      invariant WriteAll(fastas, taxa, names[..i], sequences) == Ok(files)
    {
      var name := names[i];
      assert names[..i + 1][..i] == names[..i];
      var text := WriteSequence(fastas, taxa, name, sequences[name]);
      if text.Err? {
        WriteAllErrStays(fastas, taxa, names, sequences, i + 1);
        return Err(text.error);
      }
      files := files[name := text.value];
    }
    assert names[..|names|] == names;
    r := Ok(files);
  }

  /** `CollectSequencesNode._run`, with each file's records keyed by its
      taxon: the files are read in sorted order of taxa, then each requested
      sequence's file is written in sorted order of sequence names. */
  method CollectSequences(infiles: map<string, string>, sequences: map<string, map<string, string>>,
                          parsed: map<string, Result<seq<Fasta.FastaRecord>>>) returns (r: Result<map<string, string>>)
    ensures r == CollectRun(infiles, sequences, parsed, false)
  {
    var read := ReadFiles(PyText.SortedSet(infiles.Keys), infiles, parsed);
    match read {
      case Err(e) =>
        CollectRunReadErr(infiles, sequences, parsed, e);
        r := Err(e);
      case Ok(fastas) =>
        CollectRunReadOk(infiles, sequences, parsed, fastas);
        r := WriteFiles(fastas, PyText.SortedSet(fastas.Keys), PyText.SortedSet(sequences.Keys), sequences);
    }
  }

  /** A failed read fails the run with its error. */
  lemma CollectRunReadErr(infiles: map<string, string>, sequences: map<string, map<string, string>>,
                          parsed: map<string, Result<seq<Fasta.FastaRecord>>>, e: ErrorKind)
    requires ReadTaxa(PyText.SortedSet(infiles.Keys), infiles, parsed, false) == Err(e)
    ensures CollectRun(infiles, sequences, parsed, false) == Err(e)
  {
  }

  /** After a successful read, the run is the write of what was read. */
  lemma CollectRunReadOk(infiles: map<string, string>, sequences: map<string, map<string, string>>,
                         parsed: map<string, Result<seq<Fasta.FastaRecord>>>, fastas: map<string, map<string, string>>)
    requires ReadTaxa(PyText.SortedSet(infiles.Keys), infiles, parsed, false) == Ok(fastas)
    ensures forall k :: 0 <= k < |PyText.SortedSet(fastas.Keys)| ==> PyText.SortedSet(fastas.Keys)[k] in fastas
    ensures forall k :: 0 <= k < |PyText.SortedSet(sequences.Keys)| ==> PyText.SortedSet(sequences.Keys)[k] in sequences
    ensures CollectRun(infiles, sequences, parsed, false)
            == WriteAll(fastas, PyText.SortedSet(fastas.Keys), PyText.SortedSet(sequences.Keys), sequences)
  {
  }
}
