// The makefile normalisation of the phylogeny pipeline,
// pypeline/tools/phylo_pipeline/makefile.py: the taxa tree is checked for
// repeated names and flattened into taxa and named groups, every interval
// and taxon is given its name, singleton filters are expanded into sets of
// taxa, and excluded groups must name taxa.
//
// The taxa tree is a makefile value: a dictionary whose keys are taxon
// names, or group names written "<name>" holding a subtree. Where Python's
// dictionary order decides the outcome, the model takes keys in sorted
// order.
module PhyloMakefile {
  import opened PyErrors
  import opened PyValues
  import opened PyText
  import Makefile

  // ---------------------------------------------------------------------
  // The taxa tree

  /** `key.startswith("<") and key.endswith(">")`; a lone "<" does not end
      with ">", but "<>" is a group. */
  predicate IsGroupKey(key: string)
  {
    |key| > 0 && key[0] == '<' && key[|key| - 1] == '>'
  }

  function LStripChar(s: string, c: char): (r: string)
    ensures |r| <= |s|
  {
    if |s| > 0 && s[0] == c then LStripChar(s[1..], c) else s
  }

  function RStripChar(s: string, c: char): (r: string)
    ensures |r| <= |s|
  {
    if |s| > 0 && s[|s| - 1] == c then RStripChar(s[..|s| - 1], c) else s
  }

  /** `key.lstrip("<").rstrip(">")`: the name of a group. */
  function GroupName(key: string): string
  {
    RStripChar(LStripChar(key, '<'), '>')
  }

  /** The taxon `name` is a leaf of the tree, directly or inside groups. */
  predicate HasLeaf(tree: Value, name: string)
    decreases tree, 1
  {
    tree.PDict? && exists k :: k in tree.entries && LeafUnder(tree, k, name)
  }

  /** The key `k` of the tree is the taxon `name`, or a group holding it. */
  predicate LeafUnder(tree: Value, k: string, name: string)
    requires tree.PDict? && k in tree.entries
    decreases tree, 0
  {
    if IsGroupKey(k) then HasLeaf(tree.entries[k], name) else k == name
  }

  /** Every group is a dictionary and every taxon a dictionary of its
      properties. */
  predicate WellShaped(tree: Value)
    decreases tree, 1
  {
    tree.PDict? && forall k :: k in tree.entries ==> EntryShaped(tree, k)
  }

  predicate EntryShaped(tree: Value, k: string)
    requires tree.PDict? && k in tree.entries
    decreases tree, 0
  {
    if IsGroupKey(k) then WellShaped(tree.entries[k]) else tree.entries[k].PDict?
  }

  /** A taxon whose `Name` is its key. */
  predicate Named(taxon: Value, name: string)
  {
    taxon.PDict? && "Name" in taxon.entries && taxon.entries["Name"] == PStr(name)
  }

  // ---------------------------------------------------------------------
  // _validate_taxa

  /** The number of taxa in the tree, counting every occurrence. */
  function LeafCount(tree: Value): nat
    decreases tree, 1
  {
    if !tree.PDict? then 0 else LeafCountOf(tree, SortedSet(tree.entries.Keys))
  }

  function LeafCountOf(tree: Value, keys: seq<string>): nat
    requires tree.PDict? && forall i :: 0 <= i < |keys| ==> keys[i] in tree.entries
    decreases tree, 0, |keys|
  {
    if |keys| == 0 then 0
    else (if IsGroupKey(keys[0]) then LeafCount(tree.entries[keys[0]]) else 1) + LeafCountOf(tree, keys[1..])
  }

  /** `_validate_taxa(path, tree, seen)`: the lower-cased taxa seen once the
      tree is checked. A group must be a dictionary, a taxon's name must not
      have been seen in any case, and each taxon is checked against the
      reference structure `taxonReference`. */
  function ValidateTaxa(tree: Value, seen: set<string>, taxonReference: Makefile.Reference): Result<set<string>>
    decreases tree, 1
  {
    if !tree.PDict? then Err(MAKEFileError)
    else ValidateEntries(tree, SortedSet(tree.entries.Keys), seen, taxonReference)
  }

  function ValidateEntries(tree: Value, keys: seq<string>, seen: set<string>, taxonReference: Makefile.Reference)
    : Result<set<string>>
    requires tree.PDict? && forall i :: 0 <= i < |keys| ==> keys[i] in tree.entries
    decreases tree, 0, |keys|
  {
    if |keys| == 0 then Ok(seen)
    else
      var seen' :- ValidateKey(tree, keys[0], seen, taxonReference);
      ValidateEntries(tree, keys[1..], seen', taxonReference)
  }

  /** One key of the tree: a group is checked as a tree of its own; a taxon
      must be new, ignoring case, and conform to `taxonReference`. */
  function ValidateKey(tree: Value, key: string, seen: set<string>, taxonReference: Makefile.Reference)
    : Result<set<string>>
    requires tree.PDict? && key in tree.entries
    decreases tree, 0, 0
  {
    if IsGroupKey(key) then ValidateTaxa(tree.entries[key], seen, taxonReference)
    else if Lower(key) in seen then Err(MAKEFileError)
    else
      var checked := Makefile.ValidateMakefile(tree.entries[key], taxonReference);
      if checked.Fail? then Err(checked.error) else Ok(seen + {Lower(key)})
  }

  /** The taxa of the tree, gathered group by group. */
  function Leaves(tree: Value): set<string>
    decreases tree, 1
  {
    if !tree.PDict? then {} else LeavesOf(tree, SortedSet(tree.entries.Keys))
  }

  function LeavesOf(tree: Value, keys: seq<string>): set<string>
    requires tree.PDict? && forall i :: 0 <= i < |keys| ==> keys[i] in tree.entries
    decreases tree, 0, |keys|
  {
    if |keys| == 0 then {}
    else (if IsGroupKey(keys[0]) then Leaves(tree.entries[keys[0]]) else {keys[0]}) + LeavesOf(tree, keys[1..])
  }

  /** The lower-cased names of a set of taxa. */
  function LowerAll(names: set<string>): set<string>
  {
    set n | n in names :: Lower(n)
  }

  /** The taxa gathered are exactly the leaves `HasLeaf` names. */
  lemma {:induction false} LeavesMeaning(tree: Value, name: string)
    ensures name in Leaves(tree) <==> HasLeaf(tree, name)
    decreases tree, 1
  {
    if tree.PDict? {
      var keys := SortedSet(tree.entries.Keys);
      LeavesOfMeaning(tree, keys, name);
      if HasLeaf(tree, name) {
        var k :| k in tree.entries && LeafUnder(tree, k, name);
        assert k in keys;
      }
    }
  }

  lemma {:induction false} LeavesOfMeaning(tree: Value, keys: seq<string>, name: string)
    requires tree.PDict? && forall i :: 0 <= i < |keys| ==> keys[i] in tree.entries
    ensures name in LeavesOf(tree, keys) <==> exists i :: 0 <= i < |keys| && LeafUnder(tree, keys[i], name)
    decreases tree, 0, |keys|
  {
    if |keys| > 0 {
      if IsGroupKey(keys[0]) {
        LeavesMeaning(tree.entries[keys[0]], name);
      }
      LeavesOfMeaning(tree, keys[1..], name);
      if exists i :: 0 <= i < |keys| && LeafUnder(tree, keys[i], name) {
        var i :| 0 <= i < |keys| && LeafUnder(tree, keys[i], name);
        if i > 0 {
          assert keys[1..][i - 1] == keys[i];
        }
      }
      if exists i :: 0 <= i < |keys[1..]| && LeafUnder(tree, keys[1..][i], name) {
        var i :| 0 <= i < |keys[1..]| && LeafUnder(tree, keys[1..][i], name);
        assert keys[1..][i] == keys[i + 1];
      }
    }
  }

  /** A tree that passes adds one new lower-cased name per taxon it holds,
      and the names it adds are its taxa, lower-cased: no taxon repeats in
      any case, and none was seen before. */
  lemma {:induction false} ValidateTaxaMeaning(tree: Value, seen: set<string>, taxonReference: Makefile.Reference)
    ensures var r := ValidateTaxa(tree, seen, taxonReference);
      r.Ok? ==> tree.PDict? && r.value == seen + LowerAll(Leaves(tree)) && |r.value| == |seen| + LeafCount(tree)
    decreases tree, 1
  {
    if tree.PDict? {
      ValidateEntriesNames(tree, SortedSet(tree.entries.Keys), seen, taxonReference);
      ValidateEntriesCount(tree, SortedSet(tree.entries.Keys), seen, taxonReference);
    }
  }

  lemma {:induction false} ValidateEntriesNames(tree: Value, keys: seq<string>, seen: set<string>,
                                                taxonReference: Makefile.Reference)
    requires tree.PDict? && forall i :: 0 <= i < |keys| ==> keys[i] in tree.entries
    ensures var r := ValidateEntries(tree, keys, seen, taxonReference);
      r.Ok? ==> r.value == seen + LowerAll(LeavesOf(tree, keys))
    decreases tree, 0, |keys|
  {
    var r := ValidateEntries(tree, keys, seen, taxonReference);
    if |keys| > 0 {
      var key := keys[0];
      var rest := keys[1..];
      var first := ValidateKey(tree, key, seen, taxonReference);
      if first.Ok? {
        var here := if IsGroupKey(key) then Leaves(tree.entries[key]) else {key};
        ValidateKeyNames(tree, key, seen, taxonReference);
        ValidateEntriesNames(tree, rest, first.value, taxonReference);
        assert LeavesOf(tree, keys) == here + LeavesOf(tree, rest);
        if r.Ok? {
          LowerAllStep(seen, first.value, here, LeavesOf(tree, rest), r.value);
        }
      }
    }
  }

  lemma {:induction false} ValidateKeyNames(tree: Value, key: string, seen: set<string>,
                                            taxonReference: Makefile.Reference)
    requires tree.PDict? && key in tree.entries
    ensures var r := ValidateKey(tree, key, seen, taxonReference);
      r.Ok? ==> r.value == seen + LowerAll(if IsGroupKey(key) then Leaves(tree.entries[key]) else {key})
    decreases tree, 0, 0
  {
    if IsGroupKey(key) {
      ValidateTaxaMeaning(tree.entries[key], seen, taxonReference);
    } else {
      assert LowerAll({key}) == {Lower(key)};
    }
  }

  lemma {:induction false} ValidateEntriesCount(tree: Value, keys: seq<string>, seen: set<string>,
                                                taxonReference: Makefile.Reference)
    requires tree.PDict? && forall i :: 0 <= i < |keys| ==> keys[i] in tree.entries
    ensures var r := ValidateEntries(tree, keys, seen, taxonReference);
      r.Ok? ==> |r.value| == |seen| + LeafCountOf(tree, keys)
    decreases tree, 0, |keys|
  {
    if |keys| > 0 {
      var first := ValidateKey(tree, keys[0], seen, taxonReference);
      if first.Ok? {
        ValidateKeyCount(tree, keys[0], seen, taxonReference);
        ValidateEntriesCount(tree, keys[1..], first.value, taxonReference);
      }
    }
  }

  lemma {:induction false} ValidateKeyCount(tree: Value, key: string, seen: set<string>,
                                            taxonReference: Makefile.Reference)
    requires tree.PDict? && key in tree.entries
    ensures var r := ValidateKey(tree, key, seen, taxonReference);
      r.Ok? ==> |r.value| == |seen| + if IsGroupKey(key) then LeafCount(tree.entries[key]) else 1
    decreases tree, 0, 0
  {
    if IsGroupKey(key) {
      ValidateTaxaMeaning(tree.entries[key], seen, taxonReference);
    }
  }

  /** Names added in two stages are the lower-cased names of both. */
  lemma LowerAllStep(seen: set<string>, middle: set<string>, first: set<string>, second: set<string>,
                     result: set<string>)
    requires middle == seen + LowerAll(first) && result == middle + LowerAll(second)
    ensures result == seen + LowerAll(first + second)
  {
  }

  // ---------------------------------------------------------------------
  // _collapse_taxa

  /** `subdd["Name"] = key`: only a dictionary takes the assignment. */
  function WithName(taxon: Value, key: string): (r: Result<Value>)
    ensures r.Ok? <==> taxon.PDict?
    ensures r.Ok? ==> Named(r.value, key) && r.value.entries.Keys == taxon.entries.Keys + {"Name"} &&
                      forall k :: k in taxon.entries && k != "Name" ==> r.value.entries[k] == taxon.entries[k]
    ensures r.Err? ==> r.error == TypeError
  {
    if taxon.PDict? then Ok(PDict(taxon.entries["Name" := PStr(key)])) else Err(TypeError)
  }

  type Taxa = map<string, Value>
  type Groups = map<seq<string>, Taxa>

  /** Every taxon is named by its key. */
  predicate AllNamed(taxa: Taxa)
  {
    forall t :: t in taxa ==> Named(taxa[t], t)
  }

  /** `p` lies at or below the group path `path`. */
  predicate Extends(p: seq<string>, path: seq<string>)
  {
    |path| <= |p| && p[..|path|] == path
  }

  /** `_collect_taxa(tree, path)`: the taxa below `path`, each named, and the
      group table once every group at or below `path` has been recorded. A
      tree that is not a dictionary has no `iteritems`; a taxon that is not
      a dictionary cannot take its name. */
  function CollectTaxa(tree: Value, path: seq<string>, groups: Groups): Result<(Taxa, Groups)>
    decreases tree, 1
  {
    if !tree.PDict? then Err(AttributeError)
    else CollectEntries(tree, SortedSet(tree.entries.Keys), path, map[], groups)
  }

  function CollectEntries(tree: Value, keys: seq<string>, path: seq<string>, current: Taxa, groups: Groups)
    : Result<(Taxa, Groups)>
    requires tree.PDict? && forall i :: 0 <= i < |keys| ==> keys[i] in tree.entries
    decreases tree, 0, |keys|
  {
    if |keys| == 0 then Ok((current, groups[path := current]))
    else
      var key := keys[0];
      if IsGroupKey(key) then
        var below :- CollectTaxa(tree.entries[key], path + [GroupName(key)], groups);
        CollectEntries(tree, keys[1..], path, current + below.0, below.1)
      else
        var named :- WithName(tree.entries[key], key);
        CollectEntries(tree, keys[1..], path, current[key := named], groups)
  }

  /** The tree collapses exactly when it is well shaped. */
  lemma {:induction false} CollectTaxaOk(tree: Value, path: seq<string>, groups: Groups)
    ensures CollectTaxa(tree, path, groups).Ok? <==> WellShaped(tree)
    decreases tree, 1
  {
    if tree.PDict? {
      var keys := SortedSet(tree.entries.Keys);
      CollectEntriesOk(tree, keys, path, map[], groups);
      if forall i :: 0 <= i < |keys| ==> EntryShaped(tree, keys[i]) {
        forall k | k in tree.entries
          ensures EntryShaped(tree, k)
        {
          assert k in keys;
        }
      }
    }
  }

  lemma {:induction false} CollectEntriesOk(tree: Value, keys: seq<string>, path: seq<string>, current: Taxa,
                                            groups: Groups)
    requires tree.PDict? && forall i :: 0 <= i < |keys| ==> keys[i] in tree.entries
    ensures CollectEntries(tree, keys, path, current, groups).Ok? <==>
            forall i :: 0 <= i < |keys| ==> EntryShaped(tree, keys[i])
    decreases tree, 0, |keys|
  {
    if |keys| > 0 {
      var key := keys[0];
      var rest := keys[1..];
      assert forall i :: 0 <= i < |rest| ==> rest[i] == keys[i + 1];
      if IsGroupKey(key) {
        var sub := tree.entries[key];
        CollectTaxaOk(sub, path + [GroupName(key)], groups);
        var below := CollectTaxa(sub, path + [GroupName(key)], groups);
        if below.Ok? {
          CollectEntriesOk(tree, rest, path, current + below.value.0, below.value.1);
        }
      } else {
        var named := WithName(tree.entries[key], key);
        if named.Ok? {
          CollectEntriesOk(tree, rest, path, current[key := named.value], groups);
        }
      }
    }
  }

  /** The taxa collected are the leaves of the tree. */
  lemma {:induction false} CollectTaxaLeaves(tree: Value, path: seq<string>, groups: Groups)
    ensures var r := CollectTaxa(tree, path, groups); r.Ok? ==> r.value.0.Keys == Leaves(tree)
    decreases tree, 1
  {
    if tree.PDict? {
      CollectEntriesLeaves(tree, SortedSet(tree.entries.Keys), path, map[], groups);
    }
  }

  lemma {:induction false} CollectEntriesLeaves(tree: Value, keys: seq<string>, path: seq<string>, current: Taxa,
                                                groups: Groups)
    requires tree.PDict? && forall i :: 0 <= i < |keys| ==> keys[i] in tree.entries
    ensures var r := CollectEntries(tree, keys, path, current, groups);
      r.Ok? ==> r.value.0.Keys == current.Keys + LeavesOf(tree, keys)
    decreases tree, 0, |keys|
  {
    var r := CollectEntries(tree, keys, path, current, groups);
    if |keys| > 0 && r.Ok? {
      var key := keys[0];
      var rest := keys[1..];
      assert LeavesOf(tree, keys) == (if IsGroupKey(key) then Leaves(tree.entries[key]) else {key}) + LeavesOf(tree, rest);
      if IsGroupKey(key) {
        var sub := tree.entries[key];
        CollectTaxaLeaves(sub, path + [GroupName(key)], groups);
        var below := CollectTaxa(sub, path + [GroupName(key)], groups).value;
        assert r == CollectEntries(tree, rest, path, current + below.0, below.1);
        CollectEntriesLeaves(tree, rest, path, current + below.0, below.1);
      } else {
        var named := WithName(tree.entries[key], key).value;
        assert r == CollectEntries(tree, rest, path, current[key := named], groups);
        CollectEntriesLeaves(tree, rest, path, current[key := named], groups);
      }
    }
  }

  /** Every taxon collected is named by its key, and the taxa are recorded
      as the group at `path`. */
  lemma {:induction false} CollectTaxaNamed(tree: Value, path: seq<string>, groups: Groups)
    ensures var r := CollectTaxa(tree, path, groups);
      r.Ok? ==> AllNamed(r.value.0) && path in r.value.1 && r.value.1[path] == r.value.0
    decreases tree, 1
  {
    if tree.PDict? {
      CollectEntriesNamed(tree, SortedSet(tree.entries.Keys), path, map[], groups);
    }
  }

  lemma {:induction false} CollectEntriesNamed(tree: Value, keys: seq<string>, path: seq<string>, current: Taxa,
                                               groups: Groups)
    requires tree.PDict? && forall i :: 0 <= i < |keys| ==> keys[i] in tree.entries
    requires AllNamed(current)
    ensures var r := CollectEntries(tree, keys, path, current, groups);
      r.Ok? ==> AllNamed(r.value.0) && path in r.value.1 && r.value.1[path] == r.value.0
    decreases tree, 0, |keys|
  {
    var r := CollectEntries(tree, keys, path, current, groups);
    if |keys| > 0 && r.Ok? {
      var key := keys[0];
      var rest := keys[1..];
      if IsGroupKey(key) {
        var sub := tree.entries[key];
        CollectTaxaNamed(sub, path + [GroupName(key)], groups);
        var below := CollectTaxa(sub, path + [GroupName(key)], groups).value;
        assert r == CollectEntries(tree, rest, path, current + below.0, below.1);
        CollectEntriesNamed(tree, rest, path, current + below.0, below.1);
      } else {
        var named := WithName(tree.entries[key], key).value;
        assert r == CollectEntries(tree, rest, path, current[key := named], groups);
        CollectEntriesNamed(tree, rest, path, current[key := named], groups);
      }
    }
  }

  /** A path below `path + [g]` is below `path`. */
  lemma ExtendsLonger(p: seq<string>, path: seq<string>, g: string)
    requires Extends(p, path + [g])
    ensures Extends(p, path)
  {
    assert p[..|path|] == p[..|path| + 1][..|path|];
  }

  /** Collapsing records groups only at or below `path`, drops none, and
      leaves every other group as it was. */
  lemma {:induction false} CollectTaxaFrame(tree: Value, path: seq<string>, groups: Groups)
    ensures var r := CollectTaxa(tree, path, groups);
      r.Ok? ==> groups.Keys <= r.value.1.Keys &&
                (forall p :: p in groups && !Extends(p, path) ==> r.value.1[p] == groups[p]) &&
                (forall p :: p in r.value.1 ==> p in groups || Extends(p, path))
    decreases tree, 1
  {
    if tree.PDict? {
      CollectEntriesFrame(tree, SortedSet(tree.entries.Keys), path, map[], groups);
    }
  }

  lemma {:induction false} CollectEntriesFrame(tree: Value, keys: seq<string>, path: seq<string>, current: Taxa,
                                               groups: Groups)
    requires tree.PDict? && forall i :: 0 <= i < |keys| ==> keys[i] in tree.entries
    ensures var r := CollectEntries(tree, keys, path, current, groups);
      r.Ok? ==> groups.Keys <= r.value.1.Keys &&
                (forall p :: p in groups && !Extends(p, path) ==> r.value.1[p] == groups[p]) &&
                (forall p :: p in r.value.1 ==> p in groups || Extends(p, path))
    decreases tree, 0, |keys|
  {
    var r := CollectEntries(tree, keys, path, current, groups);
    if |keys| == 0 {
      assert Extends(path, path);
    } else if r.Ok? {
      var key := keys[0];
      var rest := keys[1..];
      if IsGroupKey(key) {
        var sub := tree.entries[key];
        var subPath := path + [GroupName(key)];
        CollectTaxaFrame(sub, subPath, groups);
        var below := CollectTaxa(sub, subPath, groups).value;
        assert r == CollectEntries(tree, rest, path, current + below.0, below.1);
        CollectEntriesFrame(tree, rest, path, current + below.0, below.1);
        forall p | p in below.1 && p !in groups
          ensures Extends(p, path)
        {
          ExtendsLonger(p, path, GroupName(key));
        }
        forall p | p in groups && !Extends(p, path)
          ensures !Extends(p, subPath)
        {
          if Extends(p, subPath) {
            ExtendsLonger(p, path, GroupName(key));
          }
        }
      } else {
        var named := WithName(tree.entries[key], key).value;
        assert r == CollectEntries(tree, rest, path, current[key := named], groups);
        CollectEntriesFrame(tree, rest, path, current[key := named], groups);
      }
    }
  }

  /** The group table entry at `p` is the one it held before. */
  predicate Kept(before: Groups, after: Groups, p: seq<string>)
  {
    p in before && p in after && after[p] == before[p]
  }

  lemma AllNamedUnion(a: Taxa, b: Taxa)
    requires AllNamed(a) && AllNamed(b)
    ensures AllNamed(a + b)
  {
  }

  /** Every group entry that changed from `before` to `after` holds named
      taxa from `leaves`. */
  predicate RecordedWithin(before: Groups, after: Groups, leaves: set<string>)
  {
    forall p :: p in after && !Kept(before, after, p) ==> after[p].Keys <= leaves && AllNamed(after[p])
  }

  lemma RecordedWithinStep(before: Groups, middle: Groups, after: Groups, small: set<string>, leaves: set<string>)
    requires small <= leaves
    requires RecordedWithin(before, middle, small) && RecordedWithin(middle, after, leaves)
    ensures RecordedWithin(before, after, leaves)
  {
    forall p | p in after && !Kept(before, after, p)
      ensures after[p].Keys <= leaves && AllNamed(after[p])
    {
      if Kept(middle, after, p) {
        assert !Kept(before, middle, p);
      }
    }
  }

  lemma RecordedWithinUpdate(groups: Groups, path: seq<string>, current: Taxa, leaves: set<string>)
    requires current.Keys <= leaves && AllNamed(current)
    ensures RecordedWithin(groups, groups[path := current], leaves)
  {
  }

  /** Every group the collapse records holds named leaves of the tree. */
  lemma {:induction false} CollectTaxaBelow(tree: Value, path: seq<string>, groups: Groups)
    ensures var r := CollectTaxa(tree, path, groups);
      r.Ok? ==> RecordedWithin(groups, r.value.1, Leaves(tree))
    decreases tree, 1
  {
    if tree.PDict? {
      CollectEntriesBelow(tree, SortedSet(tree.entries.Keys), path, map[], groups, Leaves(tree));
    }
  }

  lemma {:induction false} CollectEntriesBelow(tree: Value, keys: seq<string>, path: seq<string>, current: Taxa,
                                               groups: Groups, leaves: set<string>)
    requires tree.PDict? && forall i :: 0 <= i < |keys| ==> keys[i] in tree.entries
    requires current.Keys + LeavesOf(tree, keys) <= leaves && AllNamed(current)
    ensures var r := CollectEntries(tree, keys, path, current, groups);
      r.Ok? ==> RecordedWithin(groups, r.value.1, leaves)
    decreases tree, 0, |keys|, 1
  {
    var r := CollectEntries(tree, keys, path, current, groups);
    if |keys| == 0 {
      RecordedWithinUpdate(groups, path, current, leaves);
    } else if r.Ok? {
      var key := keys[0];
      var rest := keys[1..];
      assert LeavesOf(tree, keys) == (if IsGroupKey(key) then Leaves(tree.entries[key]) else {key}) + LeavesOf(tree, rest);
      if IsGroupKey(key) {
        CollectGroupBelow(tree, keys, path, current, groups, leaves);
      } else {
        var named := WithName(tree.entries[key], key).value;
        AllNamedUnion(current, map[key := named]);
        assert current[key := named] == current + map[key := named];
        assert r == CollectEntries(tree, rest, path, current[key := named], groups);
        CollectEntriesBelow(tree, rest, path, current[key := named], groups, leaves);
      }
    }
  }

  /** `CollectEntriesBelow` when the first key is a group. */
  lemma {:induction false} CollectGroupBelow(tree: Value, keys: seq<string>, path: seq<string>, current: Taxa,
                                             groups: Groups, leaves: set<string>)
    requires tree.PDict? && forall i :: 0 <= i < |keys| ==> keys[i] in tree.entries
    requires |keys| > 0 && IsGroupKey(keys[0])
    requires current.Keys + Leaves(tree.entries[keys[0]]) + LeavesOf(tree, keys[1..]) <= leaves && AllNamed(current)
    ensures var r := CollectEntries(tree, keys, path, current, groups);
      r.Ok? ==> RecordedWithin(groups, r.value.1, leaves)
    decreases tree, 0, |keys|, 0
  {
    var r := CollectEntries(tree, keys, path, current, groups);
    var sub := tree.entries[keys[0]];
    var subPath := path + [GroupName(keys[0])];
    var collected := CollectTaxa(sub, subPath, groups);
    if collected.Ok? {
      CollectTaxaBelow(sub, subPath, groups);
      CollectTaxaLeaves(sub, subPath, groups);
      CollectTaxaNamed(sub, subPath, groups);
      var below := collected.value;
      AllNamedUnion(current, below.0);
      assert r == CollectEntries(tree, keys[1..], path, current + below.0, below.1);
      CollectEntriesBelow(tree, keys[1..], path, current + below.0, below.1, leaves);
      if r.Ok? {
        RecordedWithinStep(groups, below.1, r.value.1, Leaves(sub), leaves);
      }
    }
  }

  /** Every group key of the tree is recorded under its bracket-stripped
      name. */
  lemma {:induction false} CollectTaxaGroupKeys(tree: Value, path: seq<string>, groups: Groups)
    ensures var r := CollectTaxa(tree, path, groups);
      r.Ok? ==> forall k :: k in tree.entries && IsGroupKey(k) ==> path + [GroupName(k)] in r.value.1
    decreases tree, 1
  {
    if tree.PDict? {
      var keys := SortedSet(tree.entries.Keys);
      CollectEntriesGroupKeys(tree, keys, path, map[], groups);
      var r := CollectTaxa(tree, path, groups);
      if r.Ok? {
        forall k | k in tree.entries && IsGroupKey(k)
          ensures path + [GroupName(k)] in r.value.1
        {
          assert k in keys;
        }
      }
    }
  }

  lemma {:induction false} CollectEntriesGroupKeys(tree: Value, keys: seq<string>, path: seq<string>, current: Taxa,
                                                   groups: Groups)
    requires tree.PDict? && forall i :: 0 <= i < |keys| ==> keys[i] in tree.entries
    ensures var r := CollectEntries(tree, keys, path, current, groups);
      r.Ok? ==> forall i :: 0 <= i < |keys| && IsGroupKey(keys[i]) ==> path + [GroupName(keys[i])] in r.value.1
    decreases tree, 0, |keys|
  {
    var r := CollectEntries(tree, keys, path, current, groups);
    if |keys| > 0 && r.Ok? {
      var key := keys[0];
      var rest := keys[1..];
      assert forall i :: 0 <= i < |rest| ==> rest[i] == keys[i + 1];
      if IsGroupKey(key) {
        var sub := tree.entries[key];
        var subPath := path + [GroupName(key)];
        CollectTaxaNamed(sub, subPath, groups);
        var below := CollectTaxa(sub, subPath, groups).value;
        assert r == CollectEntries(tree, rest, path, current + below.0, below.1);
        CollectEntriesGroupKeys(tree, rest, path, current + below.0, below.1);
        CollectEntriesFrame(tree, rest, path, current + below.0, below.1);
      } else {
        var named := WithName(tree.entries[key], key).value;
        assert r == CollectEntries(tree, rest, path, current[key := named], groups);
        CollectEntriesGroupKeys(tree, rest, path, current[key := named], groups);
      }
    }
  }

  /** The whole collapse of a taxa tree: the taxa are its leaves, each named
      by its key; the top-level group is the taxa themselves; every group
      holds named taxa; and every top-level group key has its group. */
  lemma CollapseMeaning(tree: Value)
    ensures var r := CollectTaxa(tree, [], map[]);
      r.Ok? ==> tree.PDict? && r.value.0.Keys == Leaves(tree) && AllNamed(r.value.0) &&
                [] in r.value.1 && r.value.1[[]] == r.value.0 &&
                (forall p :: p in r.value.1 ==> r.value.1[p].Keys <= r.value.0.Keys && AllNamed(r.value.1[p])) &&
                (forall k :: k in tree.entries && IsGroupKey(k) ==> [GroupName(k)] in r.value.1)
  {
    CollectTaxaLeaves(tree, [], map[]);
    CollectTaxaNamed(tree, [], map[]);
    CollectTaxaBelow(tree, [], map[]);
    CollectTaxaGroupKeys(tree, [], map[]);
    assert forall k: string :: [] + [k] == [k];
  }

  // ---------------------------------------------------------------------
  // _update_filtering

  /** One entry of a singleton filter: "<a/b>" names the group at path
      (a, b), which must exist; any other entry must be a taxon. */
  function Expand(taxa: Taxa, groups: Groups, entry: string): (r: Result<set<string>>)
    ensures r.Err? ==> r.error == MAKEFileError
  {
    if IsGroupKey(entry) then
      var key := SplitOn(entry[1..|entry| - 1], '/');
      if key in groups then Ok(groups[key].Keys) else Err(MAKEFileError)
    else if entry in taxa then Ok({entry})
    else Err(MAKEFileError)
  }

  /** The group written with its path joined by "/" expands to that group's
      taxa; a plain name expands to itself exactly when it is a taxon. */
  lemma ExpandGroupPath(taxa: Taxa, groups: Groups, path: seq<string>)
    requires |path| >= 1 && forall i :: 0 <= i < |path| ==> '/' !in path[i]
    ensures var entry := "<" + Join("/", path) + ">";
      Expand(taxa, groups, entry) == if path in groups then Ok(groups[path].Keys) else Err(MAKEFileError)
  {
    var entry := "<" + Join("/", path) + ">";
    assert entry[1..|entry| - 1] == Join("/", path);
    SplitOnJoin(path, '/');
  }

  lemma ExpandTaxon(taxa: Taxa, groups: Groups, name: string)
    requires !IsGroupKey(name)
    ensures Expand(taxa, groups, name).Ok? <==> name in taxa
    ensures Expand(taxa, groups, name).Ok? ==> Expand(taxa, groups, name).value == {name}
  {
  }

  /** `filtering[target].update(...)` for each entry in turn; the first
      entry that does not expand raises. */
  function ExpandAll(taxa: Taxa, groups: Groups, entries: seq<string>, acc: set<string>): Result<set<string>>
    decreases |entries|
  {
    if |entries| == 0 then Ok(acc)
    else
      var first :- Expand(taxa, groups, entries[0]);
      ExpandAll(taxa, groups, entries[1..], acc + first)
  }

  /** A filter expands exactly when each of its entries does, to the union
      of their expansions. */
  lemma {:induction false} ExpandAllMeaning(taxa: Taxa, groups: Groups, entries: seq<string>, acc: set<string>)
    ensures ExpandAll(taxa, groups, entries, acc).Ok? <==>
            forall i :: 0 <= i < |entries| ==> Expand(taxa, groups, entries[i]).Ok?
    ensures var r := ExpandAll(taxa, groups, entries, acc);
      r.Ok? ==> forall x :: x in r.value <==>
                  x in acc || exists i :: 0 <= i < |entries| && x in Expand(taxa, groups, entries[i]).value
    ensures var r := ExpandAll(taxa, groups, entries, acc); r.Err? ==> r.error == MAKEFileError
    decreases |entries|
  {
    if |entries| > 0 {
      var rest := entries[1..];
      assert forall i :: 0 <= i < |rest| ==> rest[i] == entries[i + 1];
      var first := Expand(taxa, groups, entries[0]);
      if first.Ok? {
        ExpandAllMeaning(taxa, groups, rest, acc + first.value);
        var r := ExpandAll(taxa, groups, entries, acc);
        if r.Ok? {
          forall x | x in r.value
            ensures x in acc || exists i :: 0 <= i < |entries| && x in Expand(taxa, groups, entries[i]).value
          {
            if x !in acc && x !in first.value {
              var i :| 0 <= i < |rest| && x in Expand(taxa, groups, rest[i]).value;
              assert x in Expand(taxa, groups, entries[i + 1]).value;
            }
          }
          forall x | x in acc || exists i :: 0 <= i < |entries| && x in Expand(taxa, groups, entries[i]).value
            ensures x in r.value
          {
            if x !in acc && x !in first.value {
              var i :| 0 <= i < |entries| && x in Expand(taxa, groups, entries[i]).value;
              assert i != 0;
              assert x in Expand(taxa, groups, rest[i - 1]).value;
            }
          }
        }
      }
    }
  }

  /** When every group holds taxa, a filter expands to taxa only. */
  lemma ExpandAllWithinTaxa(taxa: Taxa, groups: Groups, entries: seq<string>)
    requires forall p :: p in groups ==> groups[p].Keys <= taxa.Keys
    ensures var r := ExpandAll(taxa, groups, entries, {}); r.Ok? ==> r.value <= taxa.Keys
  {
    ExpandAllMeaning(taxa, groups, entries, {});
    var r := ExpandAll(taxa, groups, entries, {});
    if r.Ok? {
      forall x | x in r.value
        ensures x in taxa
      {
        var i :| 0 <= i < |entries| && x in Expand(taxa, groups, entries[i]).value;
      }
    }
  }

  /** `_update_filtering`: the targets, in sorted order, each with the set
      of taxa its filter expands to. */
  function FilterTargets(taxa: Taxa, groups: Groups, filters: map<string, seq<string>>, targets: seq<string>,
                         acc: map<string, set<string>>): Result<map<string, set<string>>>
    requires forall i :: 0 <= i < |targets| ==> targets[i] in filters
    decreases |targets|
  {
    if |targets| == 0 then Ok(acc)
    else
      var expanded :- ExpandAll(taxa, groups, filters[targets[0]], {});
      FilterTargets(taxa, groups, filters, targets[1..], acc[targets[0] := expanded])
  }

  function Filtering(taxa: Taxa, groups: Groups, filters: map<string, seq<string>>): Result<map<string, set<string>>>
  {
    FilterTargets(taxa, groups, filters, SortedSet(filters.Keys), map[])
  }

  lemma {:induction false} FilterTargetsMeaning(taxa: Taxa, groups: Groups, filters: map<string, seq<string>>,
                                                targets: seq<string>, acc: map<string, set<string>>)
    requires forall i :: 0 <= i < |targets| ==> targets[i] in filters
    ensures FilterTargets(taxa, groups, filters, targets, acc).Ok? <==>
            forall i :: 0 <= i < |targets| ==> ExpandAll(taxa, groups, filters[targets[i]], {}).Ok?
    ensures var r := FilterTargets(taxa, groups, filters, targets, acc);
      r.Ok? ==> (forall t :: t in r.value <==> t in acc || t in targets) &&
                (forall t :: t in targets ==> r.value[t] == ExpandAll(taxa, groups, filters[t], {}).value) &&
                (forall t :: t in acc && t !in targets ==> r.value[t] == acc[t])
    decreases |targets|
  {
    if |targets| > 0 {
      var rest := targets[1..];
      assert forall i :: 0 <= i < |rest| ==> rest[i] == targets[i + 1];
      assert forall t :: t in targets <==> t == targets[0] || t in rest;
      var first := ExpandAll(taxa, groups, filters[targets[0]], {});
      if first.Ok? {
        FilterTargetsMeaning(taxa, groups, filters, rest, acc[targets[0] := first.value]);
      }
    }
  }

  /** The filtering holds one entry per target: the expansion of its filter.
      It succeeds exactly when every filter expands, and when every group
      holds taxa, it names taxa only. */
  lemma FilteringMeaning(taxa: Taxa, groups: Groups, filters: map<string, seq<string>>)
    ensures Filtering(taxa, groups, filters).Ok? <==>
            forall t :: t in filters ==> ExpandAll(taxa, groups, filters[t], {}).Ok?
    ensures var r := Filtering(taxa, groups, filters);
      r.Ok? ==> r.value.Keys == filters.Keys &&
                forall t :: t in filters ==> r.value[t] == ExpandAll(taxa, groups, filters[t], {}).value
    ensures var r := Filtering(taxa, groups, filters);
      r.Ok? && (forall p :: p in groups ==> groups[p].Keys <= taxa.Keys) ==>
        forall t :: t in r.value ==> r.value[t] <= taxa.Keys
  {
    var targets := SortedSet(filters.Keys);
    FilterTargetsMeaning(taxa, groups, filters, targets, map[]);
    if forall i :: 0 <= i < |targets| ==> ExpandAll(taxa, groups, filters[targets[i]], {}).Ok? {
      forall t | t in filters
        ensures ExpandAll(taxa, groups, filters[t], {}).Ok?
      {
        assert t in targets;
      }
    }
    var r := Filtering(taxa, groups, filters);
    if r.Ok? && (forall p :: p in groups ==> groups[p].Keys <= taxa.Keys) {
      forall t | t in r.value
        ensures r.value[t] <= taxa.Keys
      {
        ExpandAllWithinTaxa(taxa, groups, filters[t]);
      }
    }
  }

  /** After the collapse, every singleton filter names taxa only, and every
      "<name>" entry for a top-level group of the tree is accepted. */
  lemma CollapsedFilteringNamesTaxa(tree: Value, filters: map<string, seq<string>>)
    ensures var c := CollectTaxa(tree, [], map[]);
      c.Ok? ==> var f := Filtering(c.value.0, c.value.1 - {[]}, filters);
        f.Ok? ==> forall t :: t in f.value ==> f.value[t] <= c.value.0.Keys
    ensures var c := CollectTaxa(tree, [], map[]);
      c.Ok? ==> forall k :: k in tree.entries && IsGroupKey(k) && '/' !in GroupName(k) ==>
        Expand(c.value.0, c.value.1 - {[]}, "<" + Join("/", [GroupName(k)]) + ">").Ok?
  {
    var c := CollectTaxa(tree, [], map[]);
    if c.Ok? {
      CollapseMeaning(tree);
      var groups := c.value.1 - {[]};
      FilteringMeaning(c.value.0, groups, filters);
      forall k | k in tree.entries && IsGroupKey(k) && '/' !in GroupName(k)
        ensures Expand(c.value.0, groups, "<" + Join("/", [GroupName(k)]) + ">").Ok?
      {
        ExpandGroupPath(c.value.0, groups, [GroupName(k)]);
        assert [GroupName(k)] != [];
      }
    }
  }

  /** The `groups` table that `_collect_taxa` fills as it recurses. */
  class TaxaCollector {
    var groups: Groups

    constructor()
      ensures groups == map[]
    {
      groups := map[];
    }

    /** `_collect_taxa(tree, path)`: records the group at `path` and every
        group below it, and returns the taxa below `path`. */
    method Collect(tree: Value, path: seq<string>) returns (r: Result<Taxa>)
      modifies this
      ensures var spec := CollectTaxa(tree, path, old(groups));
        r.Ok? == spec.Ok? && (r.Err? ==> r.error == spec.error) &&
        (r.Ok? ==> r.value == spec.value.0 && groups == spec.value.1)
      decreases tree
    {
      if !tree.PDict? {
        return Err(AttributeError);
      }
      var keys := SortedSet(tree.entries.Keys);
      var current: Taxa := map[];
      var i := 0;
      while i < |keys|
        invariant 0 <= i <= |keys|
        invariant CollectEntries(tree, keys, path, map[], old(groups)) == CollectEntries(tree, keys[i..], path, current, groups)
      {
        var key := keys[i];
        assert keys[i..][1..] == keys[i + 1..];
        if IsGroupKey(key) {
          var below := Collect(tree.entries[key], path + [GroupName(key)]);
          if below.Err? {
            return Err(below.error);
          }
          current := current + below.value;
        } else {
          var named := WithName(tree.entries[key], key);
          if named.Err? {
            return Err(named.error);
          }
          current := current[key := named.value];
        }
        i := i + 1;
      }
      groups := groups[path := current];
      r := Ok(current);
    }
  }

  // ---------------------------------------------------------------------
  // The makefile and _mangle_makefile

  /** The set of taxa one target's filter expands to. */
  method ExpandEntries(taxa: Taxa, groups: Groups, entries: seq<string>) returns (r: Result<set<string>>)
    ensures r == ExpandAll(taxa, groups, entries, {})
  {
    var expanded: set<string> := {};
    var i := 0;
    while i < |entries|
      invariant 0 <= i <= |entries|
      invariant ExpandAll(taxa, groups, entries, {}) == ExpandAll(taxa, groups, entries[i..], expanded)
    {
      assert entries[i..][1..] == entries[i + 1..];
      var first := Expand(taxa, groups, entries[i]);
      if first.Err? {
        return Err(first.error);
      }
      expanded := expanded + first.value;
      i := i + 1;
    }
    r := Ok(expanded);
  }

  /** Every interval is a dictionary that can take its name. */
  predicate IntervalsAreDicts(intervals: map<string, Value>)
  {
    forall k :: k in intervals ==> intervals[k].PDict?
  }

  /** Every interval of `after` is the one of `before` with its own name. */
  predicate IntervalsNamed(before: map<string, Value>, after: map<string, Value>)
  {
    after.Keys == before.Keys && forall k :: k in after ==> WithName(before[k], k) == Ok(after[k])
  }

  /** The first `i` intervals, in the order of `keys`, carry their names;
      the others are as they were. */
  predicate NamedUpTo(intervals: map<string, Value>, keys: seq<string>, i: nat, updated: map<string, Value>)
  {
    i <= |keys| && updated.Keys == intervals.Keys && (forall j :: 0 <= j < |keys| ==> keys[j] in intervals) &&
    (forall j :: 0 <= j < i ==> WithName(intervals[keys[j]], keys[j]) == Ok(updated[keys[j]])) &&
    (forall j :: i <= j < |keys| ==> updated[keys[j]] == intervals[keys[j]])
  }

  lemma NamedUpToStep(intervals: map<string, Value>, keys: seq<string>, i: nat, updated: map<string, Value>)
    requires NamedUpTo(intervals, keys, i, updated) && i < |keys| && SortedStrings(keys)
    requires WithName(updated[keys[i]], keys[i]).Ok?
    ensures NamedUpTo(intervals, keys, i + 1, updated[keys[i] := WithName(updated[keys[i]], keys[i]).value])
  {
    SortedStringsDistinct(keys);
  }

  /** The loop of `_update_intervals`: names each interval in turn, and
      stops at the first one that is not a dictionary. */
  method NameIntervals(intervals: map<string, Value>) returns (updated: map<string, Value>, r: Outcome)
    ensures updated.Keys == intervals.Keys
    ensures r.Pass? <==> IntervalsAreDicts(intervals)
    ensures r.Fail? ==> r.error == TypeError
    ensures r.Pass? ==> IntervalsNamed(intervals, updated)
  {
    var keys := SortedSet(intervals.Keys);
    updated := intervals;
    var i := 0;
    while i < |keys|
      invariant NamedUpTo(intervals, keys, i, updated)
    {
      var key := keys[i];
      var named := WithName(updated[key], key);
      if named.Err? {
        return updated, Fail(TypeError);
      }
      NamedUpToStep(intervals, keys, i, updated);
      updated := updated[key := named.value];
      i := i + 1;
    }
    forall k | k in updated
      ensures WithName(intervals[k], k) == Ok(updated[k])
    {
      assert k in keys;
    }
    r := Pass;
  }

  /** The loop of `_update_filtering` over the targets, in sorted order. */
  method FilterAll(taxa: Taxa, groups: Groups, filters: map<string, seq<string>>)
    returns (r: Result<map<string, set<string>>>)
    ensures r == Filtering(taxa, groups, filters)
  {
    var targets := SortedSet(filters.Keys);
    var done: map<string, set<string>> := map[];
    var i := 0;
    while i < |targets|
      invariant 0 <= i <= |targets|
      invariant Filtering(taxa, groups, filters) == FilterTargets(taxa, groups, filters, targets[i..], done)
    {
      assert targets[i..][1..] == targets[i + 1..];
      var expanded := ExpandEntries(taxa, groups, filters[targets[i]]);
      if expanded.Err? {
        return Err(expanded.error);
      }
      done := done[targets[i] := expanded.value];
      i := i + 1;
    }
    r := Ok(done);
  }

  /** `set(ExcludeGroups) - set(Taxa)`. */
  function UnknownGroups(excludeGroups: seq<string>, taxa: Taxa): (r: set<string>)
    ensures forall x :: x in r <==> x in excludeGroups && x !in taxa
  {
    set i | 0 <= i < |excludeGroups| && excludeGroups[i] !in taxa :: excludeGroups[i]
  }

  /** The parts of a phylogeny makefile that its normalisation reads and
      rewrites. */
  class PhyloMakefile {
    /** Project:Taxa: the taxa tree as read, the flat taxa once collapsed. */
    var taxa: Value
    /** Project:Groups: each group path with the taxa below it. */
    var groups: Groups
    /** Project:Intervals. */
    var intervals: map<string, Value>
    /** Project:Filter Singletons as read: each target with its entries. */
    var filterSingletons: map<string, seq<string>>
    /** Project:Filter Singletons once expanded: each target with its taxa. */
    var filtering: map<string, set<string>>
    /** Genotyping:Padding. */
    var padding: Value
    /** Genotyping:Random. */
    var random: map<string, Value>
    /** Phylogenetic Inference:ExcludeGroups. */
    var excludeGroups: seq<string>
    /** Nodes. */
    var nodes: seq<Value>

    constructor(taxa: Value, intervals: map<string, Value>, filterSingletons: map<string, seq<string>>,
                padding: Value, random: map<string, Value>, excludeGroups: seq<string>)
      ensures this.taxa == taxa && this.groups == map[] && this.intervals == intervals
      ensures this.filterSingletons == filterSingletons && this.filtering == map[]
      ensures this.padding == padding && this.random == random && this.excludeGroups == excludeGroups
      ensures this.nodes == []
    {
      this.taxa := taxa;
      this.groups := map[];
      this.intervals := intervals;
      this.filterSingletons := filterSingletons;
      this.filtering := map[];
      this.padding := padding;
      this.random := random;
      this.excludeGroups := excludeGroups;
      this.nodes := [];
    }

    /** `_collapse_taxa`: the taxa tree becomes the flat, named taxa, and
        every group below the top level is recorded by its path. */
    method CollapseTaxa() returns (r: Outcome)
      modifies this
      ensures var spec := CollectTaxa(old(taxa), [], map[]);
        r.Pass? == spec.Ok? && (r.Fail? ==> r.error == spec.error && taxa == old(taxa) && groups == old(groups)) &&
        (r.Pass? ==> taxa == PDict(spec.value.0) && groups == spec.value.1 - {[]})
      ensures intervals == old(intervals) && filterSingletons == old(filterSingletons) && filtering == old(filtering)
      ensures padding == old(padding) && random == old(random) && excludeGroups == old(excludeGroups)
      ensures nodes == old(nodes)
    {
      var collector := new TaxaCollector();
      var collected := collector.Collect(taxa, []);
      if collected.Err? {
        return Fail(collected.error);
      }
      CollectTaxaNamed(taxa, [], map[]);
      taxa := PDict(collector.groups[[]]);
      groups := collector.groups - {[]};
      r := Pass;
    }

    /** `_update_intervals`: every interval gets its own name. */
    method UpdateIntervals() returns (r: Outcome)
      modifies this
      ensures r.Pass? <==> IntervalsAreDicts(old(intervals))
      ensures r.Fail? ==> r.error == TypeError
      ensures r.Pass? ==> IntervalsNamed(old(intervals), intervals)
      ensures taxa == old(taxa) && groups == old(groups) && filterSingletons == old(filterSingletons)
      ensures filtering == old(filtering) && padding == old(padding) && random == old(random)
      ensures excludeGroups == old(excludeGroups) && nodes == old(nodes)
    {
      var updated;
      updated, r := NameIntervals(intervals);
      intervals := updated;
    }

    /** `_update_filtering`: each target's filter is expanded against the
        collapsed taxa and groups. */
    method UpdateFiltering() returns (r: Outcome)
      requires taxa.PDict?
      modifies this
      ensures taxa == old(taxa) && groups == old(groups) && intervals == old(intervals)
      ensures var spec := Filtering(taxa.entries, groups, filterSingletons);
        r.Pass? == spec.Ok? && (r.Fail? ==> r.error == spec.error) && (r.Pass? ==> filtering == spec.value)
      ensures filterSingletons == old(filterSingletons) && padding == old(padding) && random == old(random)
      ensures excludeGroups == old(excludeGroups) && nodes == old(nodes)
    {
      var expanded := FilterAll(taxa.entries, groups, filterSingletons);
      if expanded.Err? {
        return Fail(expanded.error);
      }
      filtering := expanded.value;
      r := Pass;
    }

    /** `_mangle_makefile`: collapse the taxa, name the intervals, expand the
        singleton filters, clear the nodes, pass the padding on to random
        sampling, and require every excluded group to be a taxon. */
    method Mangle() returns (r: Outcome)
      modifies this
      ensures var c := CollectTaxa(old(taxa), [], map[]);
        r.Pass? <==> c.Ok? && IntervalsAreDicts(old(intervals)) &&
                     Filtering(c.value.0, c.value.1 - {[]}, old(filterSingletons)).Ok? &&
                     UnknownGroups(old(excludeGroups), c.value.0) == {}
      ensures var c := CollectTaxa(old(taxa), [], map[]);
        r.Pass? ==> taxa == PDict(c.value.0) && groups == c.value.1 - {[]} &&
                    IntervalsNamed(old(intervals), intervals) &&
                    Filtering(c.value.0, c.value.1 - {[]}, old(filterSingletons)) == Ok(filtering) &&
                    nodes == [] && random == old(random)["--padding" := old(padding)]
      ensures var c := CollectTaxa(old(taxa), [], map[]);
        r.Fail? && c.Ok? && IntervalsAreDicts(old(intervals)) &&
          Filtering(c.value.0, c.value.1 - {[]}, old(filterSingletons)).Ok? ==>
        r.error == MakefileError
    {
      ghost var c := CollectTaxa(taxa, [], map[]);
      ghost var filters := filterSingletons;
      r := CollapseTaxa();
      if r.Fail? {
        return;
      }
      assert taxa.entries == c.value.0 && groups == c.value.1 - {[]};
      r := UpdateIntervals();
      if r.Fail? {
        return;
      }
      r := UpdateFiltering();
      if r.Fail? {
        return;
      }
      assert Filtering(c.value.0, c.value.1 - {[]}, filters) == Ok(filtering);
      nodes := [];
      random := random["--padding" := padding];
      if UnknownGroups(excludeGroups, taxa.entries) != {} {
        return Fail(MakefileError);
      }
      r := Pass;
    }
  }
}
