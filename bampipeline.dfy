// Graph walking and target selection of
// pypeline/tools/bam_pipeline/pipeline.py: `walk_nodes`, `list_output_files`,
// `build_pipeline_targets` and `list_targets_for`. Nodes are those of
// pypeline/node.py, numbered so that children come before their parents.
module BamPipeline {
  import opened PyErrors
  import opened Seqs
  import PyText
  import opened Nodes

  // ---------------------------------------------------------------------
  // walk_nodes

  predicate ChildOf(g: Graph, parent: nat, child: nat)
    requires parent < |g|
  {
    child in g[parent].subnodes || child in g[parent].dependencies
  }

  predicate Below(nodes: seq<nat>, bound: nat)
  {
    forall i :: 0 <= i < |nodes| ==> nodes[i] < bound
  }

  /** Every node reachable from `nodes` (themselves included). `bound` is
      above every node listed, and only measures the recursion. */
  function Reach(g: Graph, nodes: seq<nat>, bound: nat): (r: set<nat>)
    requires ValidGraph(g) && bound <= |g| && Below(nodes, bound)
    ensures forall n :: n in r ==> n < bound
    decreases bound, |nodes|
  {
    if |nodes| == 0 then {}
    else
      var node := nodes[0];
      assert ChildrenBefore(g[node], node);
      {node} + Reach(g, g[node].subnodes, node) + Reach(g, g[node].dependencies, node) +
      Reach(g, nodes[1..], bound)
  }

  /** The outcome of a walk: whether it ran to the end, the skip set after
      it, and the nodes `func` was called on, in order. */
  datatype WalkResult = WalkResult(ok: bool, skip: set<nat>, calls: seq<nat>)

  /** `walk_nodes(nodes, func, skip)` where `func` returns False exactly on
      the nodes in `refuse`: depth first, each node's subnodes before its
      dependencies, stopping at the first refusal. */
  function Walk(g: Graph, nodes: seq<nat>, bound: nat, refuse: set<nat>, skip: set<nat>): WalkResult
    requires ValidGraph(g) && bound <= |g| && Below(nodes, bound)
    decreases bound, |nodes|
  {
    if |nodes| == 0 then WalkResult(true, skip, [])
    else
      var node := nodes[0];
      assert ChildrenBefore(g[node], node);
      if node in skip then Walk(g, nodes[1..], bound, refuse, skip)
      else if node in refuse then WalkResult(false, skip, [node])
      else
        var sub := Walk(g, g[node].subnodes, node, refuse, skip + {node});
        if !sub.ok then WalkResult(false, sub.skip, [node] + sub.calls)
        else
          var dep := Walk(g, g[node].dependencies, node, refuse, sub.skip);
          if !dep.ok then WalkResult(false, dep.skip, [node] + sub.calls + dep.calls)
          else
            var rest := Walk(g, nodes[1..], bound, refuse, dep.skip);
            WalkResult(rest.ok, rest.skip, [node] + sub.calls + dep.calls + rest.calls)
  }

  function Elems(xs: seq<nat>): set<nat>
  {
    set x | x in xs
  }

  lemma DistinctAppend(a: seq<nat>, b: seq<nat>)
    requires Distinct(a) && Distinct(b) && Elems(a) !! Elems(b)
    ensures Distinct(a + b)
  {
    var ab := a + b;
    forall i, j | 0 <= i < j < |ab|
      ensures ab[i] != ab[j]
    {
      if j >= |a| && i < |a| {
        assert ab[i] in Elems(a) && ab[j] == b[j - |a|] && ab[j] in Elems(b);
      } else if i >= |a| {
        assert ab[i] == b[i - |a|] && ab[j] == b[j - |a|];
      }
    }
  }

  lemma ElemsAppend(a: seq<nat>, b: seq<nat>)
    ensures Elems(a + b) == Elems(a) + Elems(b)
  {
  }

  /** A walk calls `func` on each node at most once, never on a node in the
      skip set, and only on reachable nodes; it adds to the skip set only
      nodes it called `func` on, and all of them when it runs to the end. */
  lemma {:induction false} WalkCalls(g: Graph, nodes: seq<nat>, bound: nat, refuse: set<nat>, skip: set<nat>)
    requires ValidGraph(g) && bound <= |g| && Below(nodes, bound)
    ensures var w := Walk(g, nodes, bound, refuse, skip);
      && Distinct(w.calls)
      && Elems(w.calls) !! skip
      && Elems(w.calls) <= Reach(g, nodes, bound)
      && skip <= w.skip <= skip + Elems(w.calls)
      && (w.ok ==> w.skip == skip + Elems(w.calls))
    decreases bound, |nodes|, 1
  {
    if |nodes| > 0 {
      var node := nodes[0];
      assert ChildrenBefore(g[node], node);
      if node in skip {
        WalkCalls(g, nodes[1..], bound, refuse, skip);
      } else if node in refuse {
      } else {
        WalkNodeCalls(g, nodes, bound, refuse, skip);
      }
    }
  }

  /** The case of `WalkCalls` where the first node is walked into. */
  lemma {:induction false} WalkNodeCalls(g: Graph, nodes: seq<nat>, bound: nat, refuse: set<nat>, skip: set<nat>)
    requires ValidGraph(g) && bound <= |g| && Below(nodes, bound)
    requires |nodes| > 0 && nodes[0] !in skip && nodes[0] !in refuse
    ensures var w := Walk(g, nodes, bound, refuse, skip);
      && Distinct(w.calls)
      && Elems(w.calls) !! skip
      && Elems(w.calls) <= Reach(g, nodes, bound)
      && skip <= w.skip <= skip + Elems(w.calls)
      && (w.ok ==> w.skip == skip + Elems(w.calls))
    decreases bound, |nodes|, 0
  {
    var node := nodes[0];
    assert ChildrenBefore(g[node], node);
    var sub := Walk(g, g[node].subnodes, node, refuse, skip + {node});
    WalkCalls(g, g[node].subnodes, node, refuse, skip + {node});
    var w := Walk(g, nodes, bound, refuse, skip);
    assert Reach(g, g[node].subnodes, node) <= Reach(g, nodes, bound);
    DistinctAppend([node], sub.calls);
    ElemsAppend([node], sub.calls);
    if sub.ok {
      var dep := Walk(g, g[node].dependencies, node, refuse, sub.skip);
      WalkCalls(g, g[node].dependencies, node, refuse, sub.skip);
      assert Reach(g, g[node].dependencies, node) <= Reach(g, nodes, bound);
      DistinctAppend([node] + sub.calls, dep.calls);
      ElemsAppend([node] + sub.calls, dep.calls);
      if dep.ok {
        var rest := Walk(g, nodes[1..], bound, refuse, dep.skip);
        WalkCalls(g, nodes[1..], bound, refuse, dep.skip);
        assert Reach(g, nodes[1..], bound) <= Reach(g, nodes, bound);
        DistinctAppend([node] + sub.calls + dep.calls, rest.calls);
        ElemsAppend([node] + sub.calls + dep.calls, rest.calls);
        assert w == WalkResult(rest.ok, rest.skip, [node] + sub.calls + dep.calls + rest.calls);
      }
    }
  }

  /** `calls` ends at the first refused node: every call but the last was
      accepted, and `ok` holds exactly when the last one was accepted too. */
  predicate StopsAt(calls: seq<nat>, ok: bool, refuse: set<nat>)
  {
    && (forall i :: 0 <= i < |calls| - 1 ==> calls[i] !in refuse)
    && (ok <==> |calls| == 0 || calls[|calls| - 1] !in refuse)
  }

  /** Accepted calls in front of a walk that stops keep it stopping. */
  lemma StopsAfter(p: seq<nat>, q: seq<nat>, ok: bool, refuse: set<nat>)
    requires forall i :: 0 <= i < |p| ==> p[i] !in refuse
    requires StopsAt(q, ok, refuse)
    ensures StopsAt(p + q, ok, refuse)
  {
    var c := p + q;
    assert forall i :: |p| <= i < |c| ==> c[i] == q[i - |p|];
    assert forall i :: 0 <= i < |p| ==> c[i] == p[i];
  }

  /** A walk that stops without failing accepted every call it made. */
  lemma StopsAccepted(q: seq<nat>, refuse: set<nat>)
    requires StopsAt(q, true, refuse)
    ensures forall i :: 0 <= i < |q| ==> q[i] !in refuse
  {
  }

  /** The walk stops at the first node `func` refuses: every call but the
      last was accepted, and the walk fails exactly when the last was
      refused. */
  lemma {:induction false} WalkStops(g: Graph, nodes: seq<nat>, bound: nat, refuse: set<nat>, skip: set<nat>)
    requires ValidGraph(g) && bound <= |g| && Below(nodes, bound)
    ensures var w := Walk(g, nodes, bound, refuse, skip); StopsAt(w.calls, w.ok, refuse)
    decreases bound, |nodes|
  {
    if |nodes| > 0 {
      var node := nodes[0];
      assert ChildrenBefore(g[node], node);
      if node in skip {
        WalkStops(g, nodes[1..], bound, refuse, skip);
      } else if node !in refuse {
        var sub := Walk(g, g[node].subnodes, node, refuse, skip + {node});
        WalkStops(g, g[node].subnodes, node, refuse, skip + {node});
        if !sub.ok {
          StopsAfter([node], sub.calls, false, refuse);
        } else {
          StopsAccepted(sub.calls, refuse);
          StopsAfter([node], sub.calls, true, refuse);
          StopsAccepted([node] + sub.calls, refuse);
          var dep := Walk(g, g[node].dependencies, node, refuse, sub.skip);
          WalkStops(g, g[node].dependencies, node, refuse, sub.skip);
          if !dep.ok {
            StopsAfter([node] + sub.calls, dep.calls, false, refuse);
          } else {
            StopsAfter([node] + sub.calls, dep.calls, true, refuse);
            StopsAccepted([node] + sub.calls + dep.calls, refuse);
            var rest := Walk(g, nodes[1..], bound, refuse, dep.skip);
            WalkStops(g, nodes[1..], bound, refuse, dep.skip);
            StopsAfter([node] + sub.calls + dep.calls, rest.calls, rest.ok, refuse);
          }
        }
      }
    }
  }

  /** Every node of `s` below `bound` has its children in `s`. */
  ghost predicate ClosedBelow(g: Graph, s: set<nat>, bound: nat)
    requires bound <= |g|
  {
    forall n, c :: n in s && n < bound && ChildOf(g, n, c) ==> c in s
  }

  /** A walk that runs to the end leaves a skip set holding the nodes it was
      given and closed under children below the bound, provided the skip
      set it started from was. */
  lemma {:induction false} WalkCloses(g: Graph, nodes: seq<nat>, bound: nat, refuse: set<nat>, skip: set<nat>)
    requires ValidGraph(g) && bound <= |g| && Below(nodes, bound)
    requires ClosedBelow(g, skip, bound)
    ensures var w := Walk(g, nodes, bound, refuse, skip);
      w.ok ==> ClosedBelow(g, w.skip, bound) && forall i :: 0 <= i < |nodes| ==> nodes[i] in w.skip
    decreases bound, |nodes|, 1
  {
    if |nodes| > 0 {
      var node := nodes[0];
      assert ChildrenBefore(g[node], node);
      var w := Walk(g, nodes, bound, refuse, skip);
      if node in skip {
        WalkCloses(g, nodes[1..], bound, refuse, skip);
        WalkCalls(g, nodes[1..], bound, refuse, skip);
        assert forall i :: 1 <= i < |nodes| ==> nodes[i] == nodes[1..][i - 1];
      } else if node !in refuse {
        WalkNodeCloses(g, nodes, bound, refuse, skip);
      }
    }
  }

  lemma {:induction false} WalkNodeCloses(g: Graph, nodes: seq<nat>, bound: nat, refuse: set<nat>, skip: set<nat>)
    requires ValidGraph(g) && bound <= |g| && Below(nodes, bound)
    requires ClosedBelow(g, skip, bound)
    requires |nodes| > 0 && nodes[0] !in skip && nodes[0] !in refuse
    ensures var w := Walk(g, nodes, bound, refuse, skip);
      w.ok ==> ClosedBelow(g, w.skip, bound) && forall i :: 0 <= i < |nodes| ==> nodes[i] in w.skip
    decreases bound, |nodes|, 0
  {
    var node := nodes[0];
    assert ChildrenBefore(g[node], node);
    var w := Walk(g, nodes, bound, refuse, skip);
    var sub := Walk(g, g[node].subnodes, node, refuse, skip + {node});
    if sub.ok {
      WalkCloses(g, g[node].subnodes, node, refuse, skip + {node});
      WalkCalls(g, g[node].subnodes, node, refuse, skip + {node});
      var dep := Walk(g, g[node].dependencies, node, refuse, sub.skip);
      if dep.ok {
        WalkCloses(g, g[node].dependencies, node, refuse, sub.skip);
        WalkCalls(g, g[node].dependencies, node, refuse, sub.skip);
        assert ClosedBelow(g, dep.skip, bound) by {
          forall n, c | n in dep.skip && n < bound && ChildOf(g, n, c)
            ensures c in dep.skip
          {
            if n == node {
              if c in g[node].subnodes {
                var k :| 0 <= k < |g[node].subnodes| && g[node].subnodes[k] == c;
              } else {
                var k :| 0 <= k < |g[node].dependencies| && g[node].dependencies[k] == c;
              }
            } else if n > node {
              assert n in skip;
            }
          }
        }
        WalkCloses(g, nodes[1..], bound, refuse, dep.skip);
        WalkCalls(g, nodes[1..], bound, refuse, dep.skip);
        assert forall i :: 1 <= i < |nodes| ==> nodes[i] == nodes[1..][i - 1];
      }
    }
  }

  /** A set closed under children below the bound that holds the nodes holds
      everything reachable from them. */
  lemma {:induction false} ReachInClosed(g: Graph, nodes: seq<nat>, bound: nat, s: set<nat>)
    requires ValidGraph(g) && bound <= |g| && Below(nodes, bound)
    requires ClosedBelow(g, s, bound) && forall i :: 0 <= i < |nodes| ==> nodes[i] in s
    ensures Reach(g, nodes, bound) <= s
    decreases bound, |nodes|
  {
    if |nodes| > 0 {
      var node := nodes[0];
      assert ChildrenBefore(g[node], node);
      forall i | 0 <= i < |g[node].subnodes|
        ensures g[node].subnodes[i] in s
      {
        assert ChildOf(g, node, g[node].subnodes[i]);
      }
      forall i | 0 <= i < |g[node].dependencies|
        ensures g[node].dependencies[i] in s
      {
        assert ChildOf(g, node, g[node].dependencies[i]);
      }
      ReachInClosed(g, g[node].subnodes, node, s);
      ReachInClosed(g, g[node].dependencies, node, s);
      ReachInClosed(g, nodes[1..], bound, s);
    }
  }

  /** `walk_nodes(nodes, func)` from an empty skip set calls `func` once on
      each node it reaches; when no call is refused, those are exactly the
      nodes reachable from `nodes`. */
  lemma WalkVisitsReachable(g: Graph, nodes: seq<nat>, refuse: set<nat>)
    requires ValidGraph(g) && Below(nodes, |g|)
    ensures var w := Walk(g, nodes, |g|, refuse, {});
      && Distinct(w.calls)
      && Elems(w.calls) <= Reach(g, nodes, |g|)
      && (w.ok ==> Elems(w.calls) == Reach(g, nodes, |g|))
  {
    var w := Walk(g, nodes, |g|, refuse, {});
    WalkCalls(g, nodes, |g|, refuse, {});
    WalkCloses(g, nodes, |g|, refuse, {});
    if w.ok {
      ReachInClosed(g, nodes, |g|, w.skip);
    }
  }

  /** The shared state of a walk: the skip set, and the calls made to
      `func` so far. */
  class Walker {
    var skip: set<nat>
    var calls: seq<nat>

    constructor()
      ensures skip == {} && calls == []
    {
      skip := {};
      calls := [];
    }

    /** `walk_nodes`: `bound` is above every node given and only measures
        the recursion. */
    method WalkNodes(g: Graph, nodes: seq<nat>, ghost bound: nat, refuse: set<nat>) returns (ok: bool)
      requires ValidGraph(g) && bound <= |g| && Below(nodes, bound)
      modifies this
      ensures var w := Walk(g, nodes, bound, refuse, old(skip));
        ok == w.ok && skip == w.skip && calls == old(calls) + w.calls
      decreases bound, 1
    {
      ghost var done: seq<nat> := [];
      for i := 0 to |nodes|
        invariant calls == old(calls) + done
        invariant Walk(g, nodes, bound, refuse, old(skip)) == Then(done, Walk(g, nodes[i..], bound, refuse, skip))
      {
        ghost var first := Walk(g, [nodes[i]], bound, refuse, skip);
        WalkNodesStep(g, nodes, i, bound, refuse, skip, done);
        ghost var before := calls;
        var nodeOk := WalkNode(g, nodes[i], bound, refuse);
        AppendAssoc(old(calls), done, first.calls, before, calls);
        done := done + first.calls;
        if !nodeOk {
          return false;
        }
      }
      assert nodes[|nodes|..] == [];
      ok := true;
    }

    /** The body of the loop of `walk_nodes` for one node: skip it if it
        was seen, otherwise call `func` on it and, unless refused, walk its
        subnodes and then its dependencies. */
    method WalkNode(g: Graph, node: nat, ghost bound: nat, refuse: set<nat>) returns (ok: bool)
      requires ValidGraph(g) && node < bound <= |g|
      modifies this
      ensures var w := Walk(g, [node], bound, refuse, old(skip));
        ok == w.ok && skip == w.skip && calls == old(calls) + w.calls
      decreases bound, 0
    {
      assert ChildrenBefore(g[node], node);
      assert [node][1..] == [];
      if node in skip {
        WalkSkipped(g, [node], bound, refuse, skip);
        return true;
      }
      calls := calls + [node];
      if node in refuse {
        WalkRefused(g, [node], bound, refuse, skip);
        return false;
      }
      ghost var start := skip;
      skip := skip + {node};
      ok := WalkNodes(g, g[node].subnodes, node, refuse);
      ghost var sub := Walk(g, g[node].subnodes, node, refuse, start + {node});
      WalkInto(g, [node], bound, refuse, start);
      if !ok {
        assert calls == old(calls) + ([node] + sub.calls);
        return;
      }
      ok := WalkNodes(g, g[node].dependencies, node, refuse);
      ghost var dep := Walk(g, g[node].dependencies, node, refuse, sub.skip);
      assert calls == old(calls) + ([node] + sub.calls + dep.calls);
    }
  }

  /** One turn of the loop of `walk_nodes`, in terms of the walk still to do. */
  lemma WalkNodesStep(g: Graph, nodes: seq<nat>, i: nat, bound: nat, refuse: set<nat>, skip: set<nat>, done: seq<nat>)
    requires ValidGraph(g) && bound <= |g| && Below(nodes, bound) && i < |nodes|
    ensures var first := Walk(g, [nodes[i]], bound, refuse, skip);
      Then(done, Walk(g, nodes[i..], bound, refuse, skip)) ==
        if first.ok then Then(done + first.calls, Walk(g, nodes[i + 1..], bound, refuse, first.skip))
        else Then(done + first.calls, Walk(g, [], bound, refuse, first.skip)).(ok := false)
  {
    var rest := nodes[i..];
    assert rest[0] == nodes[i] && rest[1..] == nodes[i + 1..];
    WalkCons(g, rest, bound, refuse, skip);
    var first := Walk(g, [nodes[i]], bound, refuse, skip);
    if first.ok {
      ThenThen(done, first.calls, Walk(g, nodes[i + 1..], bound, refuse, first.skip));
    }
  }

  /** Regrouping an append done in two steps. */
  lemma AppendAssoc<T>(base: seq<T>, x: seq<T>, y: seq<T>, before: seq<T>, after: seq<T>)
    requires before == base + x && after == before + y
    ensures after == base + (x + y)
  {
  }

  /** A walk is its first node's walk followed, if that ran to the end, by
      the walk of the rest. */
  lemma WalkCons(g: Graph, nodes: seq<nat>, bound: nat, refuse: set<nat>, skip: set<nat>)
    requires ValidGraph(g) && bound <= |g| && Below(nodes, bound) && |nodes| > 0
    ensures var first := Walk(g, [nodes[0]], bound, refuse, skip);
      Walk(g, nodes, bound, refuse, skip) ==
        if first.ok then Then(first.calls, Walk(g, nodes[1..], bound, refuse, first.skip)) else first
  {
    var node := nodes[0];
    assert [node][1..] == [];
    assert ChildrenBefore(g[node], node);
    if node !in skip && node !in refuse {
      WalkInto(g, nodes, bound, refuse, skip);
      WalkInto(g, [node], bound, refuse, skip);
    }
  }

  lemma WalkSkipped(g: Graph, nodes: seq<nat>, bound: nat, refuse: set<nat>, skip: set<nat>)
    requires ValidGraph(g) && bound <= |g| && Below(nodes, bound)
    requires |nodes| > 0 && nodes[0] in skip
    ensures Walk(g, nodes, bound, refuse, skip) == Walk(g, nodes[1..], bound, refuse, skip)
  {
  }

  lemma WalkRefused(g: Graph, nodes: seq<nat>, bound: nat, refuse: set<nat>, skip: set<nat>)
    requires ValidGraph(g) && bound <= |g| && Below(nodes, bound)
    requires |nodes| > 0 && nodes[0] !in skip && nodes[0] in refuse
    ensures Walk(g, nodes, bound, refuse, skip) == WalkResult(false, skip, [nodes[0]])
  {
  }

  /** One step of a walk into its first node. */
  lemma WalkInto(g: Graph, nodes: seq<nat>, bound: nat, refuse: set<nat>, skip: set<nat>)
    requires ValidGraph(g) && bound <= |g| && Below(nodes, bound)
    requires |nodes| > 0 && nodes[0] !in skip && nodes[0] !in refuse
    ensures var node := nodes[0];
      ChildrenBefore(g[node], node) &&
      var sub := Walk(g, g[node].subnodes, node, refuse, skip + {node});
      && (!sub.ok ==> Walk(g, nodes, bound, refuse, skip) == WalkResult(false, sub.skip, [node] + sub.calls))
      && (sub.ok ==>
            var dep := Walk(g, g[node].dependencies, node, refuse, sub.skip);
            && (!dep.ok ==> Walk(g, nodes, bound, refuse, skip) == WalkResult(false, dep.skip, [node] + sub.calls + dep.calls))
            && (dep.ok ==>
                  Walk(g, nodes, bound, refuse, skip) ==
                  Then([node] + sub.calls + dep.calls, Walk(g, nodes[1..], bound, refuse, dep.skip))))
  {
    assert ChildrenBefore(g[nodes[0]], nodes[0]);
  }

  lemma ThenThen(a: seq<nat>, b: seq<nat>, w: WalkResult)
    ensures Then(a, Then(b, w)) == Then(a + b, w)
  {
    assert a + (b + w.calls) == a + b + w.calls;
  }

  /** `done` followed by the walk `w`. */
  function Then(done: seq<nat>, w: WalkResult): WalkResult
  {
    WalkResult(w.ok, w.skip, done + w.calls)
  }

  // ---------------------------------------------------------------------
  // list_output_files

  /** The absolutised output files of the given nodes. */
  function OutputsOf(g: Graph, ns: set<nat>, abspath: string -> string): set<string>
  {
    set n, f | n in ns && n < |g| && f in g[n].outputFiles :: abspath(f)
  }

  /** `map(os.path.abspath, node.output_files)`. */
  function NodeOutputs(g: Graph, n: nat, abspath: string -> string): set<string>
    requires n < |g|
  {
    set f | f in g[n].outputFiles :: abspath(f)
  }

  lemma OutputsOfAdd(g: Graph, ns: set<nat>, n: nat, abspath: string -> string)
    requires n < |g|
    ensures OutputsOf(g, ns + {n}, abspath) == OutputsOf(g, ns, abspath) + NodeOutputs(g, n, abspath)
  {
    var lhs := OutputsOf(g, ns + {n}, abspath);
    var rhs := OutputsOf(g, ns, abspath) + NodeOutputs(g, n, abspath);
    forall x | x in lhs ensures x in rhs {
      var m, f :| m in ns + {m} && m in ns + {n} && m < |g| && f in g[m].outputFiles && x == abspath(f);
      if m != n {
        assert x in OutputsOf(g, ns, abspath);
      }
    }
  }

  /** `list_output_files`: walk with a `func` that records each node's
      output files (made absolute by `abspath`) and never refuses. */
  method ListOutputFiles(g: Graph, nodes: seq<nat>, abspath: string -> string) returns (files: set<string>)
    requires ValidGraph(g) && Below(nodes, |g|)
    ensures files == OutputsOf(g, Reach(g, nodes, |g|), abspath)
  {
    var walker := new Walker();
    var ok := walker.WalkNodes(g, nodes, |g|, {});
    WalkAccepting(g, nodes);
    files := CollectOutputFiles(g, walker.calls, abspath);
  }

  /** A walk whose `func` accepts every node reaches all of them. */
  lemma WalkAccepting(g: Graph, nodes: seq<nat>)
    requires ValidGraph(g) && Below(nodes, |g|)
    ensures var w := Walk(g, nodes, |g|, {}, {});
      w.ok && Elems(w.calls) == Reach(g, nodes, |g|) && forall i :: 0 <= i < |w.calls| ==> w.calls[i] < |g|
  {
    var w := Walk(g, nodes, |g|, {}, {});
    WalkStops(g, nodes, |g|, {}, {});
    WalkVisitsReachable(g, nodes, {});
    assert forall i :: 0 <= i < |w.calls| ==> w.calls[i] in Elems(w.calls);
  }

  /** The `collect_output_files` calls of a walk, in order. */
  method CollectOutputFiles(g: Graph, calls: seq<nat>, abspath: string -> string) returns (files: set<string>)
    requires forall i :: 0 <= i < |calls| ==> calls[i] < |g|
    ensures files == OutputsOf(g, Elems(calls), abspath)
  {
    files := {};
    for i := 0 to |calls|
      invariant files == OutputsOf(g, Elems(calls[..i]), abspath)
    {
      assert Elems(calls[..i + 1]) == Elems(calls[..i]) + {calls[i]};
      OutputsOfAdd(g, Elems(calls[..i]), calls[i], abspath);
      files := files + NodeOutputs(g, calls[i], abspath);
    }
    assert calls[..|calls|] == calls;
  }

  // ---------------------------------------------------------------------
  // build_pipeline_targets

  /** `tuple(target.split(":"))`. */
  function TargetKey(target: string): seq<string>
  {
    PyText.SplitOn(target, ':')
  }

  /** The nodes listed under the keys of the given targets. */
  function Selected(targets: set<string>, targetList: map<seq<string>, set<nat>>): set<nat>
  {
    set t, n | t in targets && TargetKey(t) in targetList && n in targetList[TargetKey(t)] :: n
  }

  function Unmatched(targets: set<string>, targetList: map<seq<string>, set<nat>>): set<string>
  {
    set t | t in targets && TargetKey(t) !in targetList
  }

  /** The command line options `build_pipeline_targets` updates. */
  class Config {
    var targets: set<string>

    constructor(targets: set<string>)
      ensures this.targets == targets
    {
      this.targets := targets;
    }
  }

  /** `build_pipeline_targets`: the nodes of every target naming a key of
      the target list; those targets are removed from `config.targets`. */
  method BuildPipelineTargets(config: Config, targetList: map<seq<string>, set<nat>>) returns (finalNodes: set<nat>)
    modifies config
    ensures finalNodes == Selected(old(config.targets), targetList)
    ensures config.targets == Unmatched(old(config.targets), targetList)
  {
    finalNodes := {};
    var pending := config.targets;
    ghost var done: set<string> := {};
    while pending != {}
      invariant done + pending == old(config.targets) && done !! pending
      invariant config.targets == pending + Unmatched(done, targetList)
      invariant finalNodes == Selected(done, targetList)
      decreases |pending|
    {
      var target :| target in pending;
      var key := TargetKey(target);
      TargetStep(old(config.targets), done, pending, config.targets, finalNodes, target, targetList);
      if key in targetList {
        finalNodes := finalNodes + targetList[key];
        config.targets := config.targets - {target};
      }
      done := done + {target};
      pending := pending - {target};
    }
  }

  /** One turn of the loop of `build_pipeline_targets`. */
  lemma TargetStep(all: set<string>, done: set<string>, pending: set<string>, current: set<string>,
                   finalNodes: set<nat>, target: string, targetList: map<seq<string>, set<nat>>)
    requires done + pending == all && done !! pending && target in pending
    requires current == pending + Unmatched(done, targetList) && finalNodes == Selected(done, targetList)
    ensures (done + {target}) + (pending - {target}) == all && (done + {target}) !! (pending - {target})
    ensures (if TargetKey(target) in targetList then current - {target} else current) ==
      (pending - {target}) + Unmatched(done + {target}, targetList)
    ensures (if TargetKey(target) in targetList then finalNodes + targetList[TargetKey(target)] else finalNodes) ==
      Selected(done + {target}, targetList)
  {
    SelectedAdd(done, target, targetList);
  }

  lemma SelectedAdd(done: set<string>, target: string, targetList: map<seq<string>, set<nat>>)
    requires target !in done
    ensures Selected(done + {target}, targetList) ==
      Selected(done, targetList) + (if TargetKey(target) in targetList then targetList[TargetKey(target)] else {})
    ensures Unmatched(done + {target}, targetList) ==
      Unmatched(done, targetList) + (if TargetKey(target) in targetList then {} else {target})
    ensures target !in Unmatched(done, targetList)
  {
    var lhs := Selected(done + {target}, targetList);
    var rhs := Selected(done, targetList) + (if TargetKey(target) in targetList then targetList[TargetKey(target)] else {});
    forall n | n in lhs ensures n in rhs {
      var t :| t in done + {target} && TargetKey(t) in targetList && n in targetList[TargetKey(t)];
      if t != target {
        assert n in Selected(done, targetList);
      }
    }
  }

  /** Each target either stays, because it names no key, or contributes its
      key's nodes. */
  lemma TargetsPartition(targets: set<string>, targetList: map<seq<string>, set<nat>>)
    ensures forall t :: t in targets ==> (t in Unmatched(targets, targetList) <==> TargetKey(t) !in targetList)
    ensures forall t, n :: t in targets && t !in Unmatched(targets, targetList) && n in targetList[TargetKey(t)] ==>
      n in Selected(targets, targetList)
    ensures forall n :: n in Selected(targets, targetList) ==>
      exists t :: t in targets && TargetKey(t) in targetList && n in targetList[TargetKey(t)]
  {
  }

  // ---------------------------------------------------------------------
  // list_targets_for

  /** The key length listed for each `show` value. */
  function ShowLength(show: string): (r: Option<nat>)
    ensures r.Some? <==> show in {"targets", "prefixes", "samples", "libraries", "lanes", "mapping", "trimming"}
  {
    if show == "targets" then Some(1)
    else if show == "prefixes" then Some(2)
    else if show == "samples" then Some(3)
    else if show == "libraries" then Some(4)
    else if show == "lanes" then Some(5)
    else if show == "mapping" then Some(6)
    else if show == "trimming" then Some(5)
    else None
  }

  /** `list_targets_for` as written: the keys of the chosen length, those
      for trimming being the ones with "reads" second. The comparison reads
      `target[1]` of every key of that length, so a one-element key raises
      IndexError; an unknown `show` raises KeyError. */
  function TargetsForAsWritten(keys: set<seq<string>>, show: string): (r: Result<set<seq<string>>>)
  {
    match ShowLength(show)
    case None => Err(KeyError)
    case Some(length) =>
      if exists k :: k in keys && |k| == length && |k| < 2 then Err(IndexError)
      else Ok(set k | k in keys && |k| == length && |k| >= 2 && ((show == "trimming") == (k[1] == "reads")))
  }

  /** `list_targets_for` as intended: a key too short to have a second
      component is not a trimming key. */
  function TargetsFor(keys: set<seq<string>>, show: string): (r: Result<set<seq<string>>>)
  {
    match ShowLength(show)
    case None => Err(KeyError)
    case Some(length) =>
      Ok(set k | k in keys && |k| == length && ((show == "trimming") == (|k| >= 2 && k[1] == "reads")))
  }

  /** The keys listed are exactly those of the chosen length that are
      trimming keys when `show` is "trimming" and no others; only an unknown
      `show` fails. */
  lemma TargetsForMeaning(keys: set<seq<string>>, show: string)
    ensures TargetsFor(keys, show).Err? <==> ShowLength(show).None?
    ensures TargetsFor(keys, show).Err? ==> TargetsFor(keys, show).error == KeyError
    ensures TargetsFor(keys, show).Ok? ==> forall k ::
      k in TargetsFor(keys, show).value <==>
        k in keys && |k| == ShowLength(show).value &&
        (show == "trimming" <==> |k| >= 2 && k[1] == "reads")
  {
  }

  /** Both readings agree for every `show` but "targets". */
  lemma TargetsForAgree(keys: set<seq<string>>, show: string)
    requires show != "targets"
    ensures TargetsForAsWritten(keys, show) == TargetsFor(keys, show)
  {
    if ShowLength(show).Some? {
      var length := ShowLength(show).value;
      assert length >= 2;
      var a := set k | k in keys && |k| == length && |k| >= 2 && ((show == "trimming") == (k[1] == "reads"));
      var b := set k | k in keys && |k| == length && ((show == "trimming") == (|k| >= 2 && k[1] == "reads"));
      assert a == b;
    }
  }

  /** Listing the targets of a makefile with one target fails as written,
      where it should list that target. */
  lemma ListTargetsRaises()
    ensures TargetsForAsWritten({["Target"]}, "targets") == Err(IndexError)
    ensures TargetsFor({["Target"]}, "targets") == Ok({["Target"]})
  {
    var keys: set<seq<string>> := {["Target"]};
    assert ["Target"] in keys && |["Target"]| == 1;
    TargetsForMeaning(keys, "targets");
    var listed := TargetsFor(keys, "targets").value;
    assert ["Target"] in listed;
    assert listed == keys;
  }
}
