// The pipeline runner of pypeline/pipeline.py: collecting nodes, the checks
// `run` makes before scheduling anything, and the two scheduling steps of
// its main loop, starting nodes within the thread budget and collecting the
// results of finished ones. The process pool, the polling delays and the
// interrupt handling are not modelled: a finished node's result is given.
module Pipelines {
  import opened PyErrors
  import opened Seqs
  import opened PyValues
  import opened Utilities
  import opened FileUtils
  import opened Nodes
  import opened NodeGraphs

  /** The values `add_nodes(*args)` visits, in order: each argument coerced
      to a tuple. */
  function AddedValues(args: seq<Value>): (r: seq<Value>)
  {
    if args == [] then [] else SafeCoerceToTuple(args[0]) + AddedValues(args[1..])
  }

  lemma {:induction false} AddedValuesSnoc(args: seq<Value>, v: Value)
    ensures AddedValues(args + [v]) == AddedValues(args) + SafeCoerceToTuple(v)
  {
    if args == [] {
      assert [v][1..] == [];
    } else {
      assert (args + [v])[1..] == args[1..] + [v];
      AddedValuesSnoc(args[1..], v);
    }
  }

  /** The nodes appended before the first value that is not a node. */
  function LeadingNodes(vs: seq<Value>, count: nat): (r: seq<nat>)
    ensures |r| <= |vs|
  {
    if vs == [] || !IsNodeRef(vs[0], count) then [] else [vs[0].tag] + LeadingNodes(vs[1..], count)
  }

  /** All the values are nodes and all are appended, or the appended ones
      stop right before the first value that is not a node. */
  lemma {:induction false} LeadingNodesMeaning(vs: seq<Value>, count: nat)
    ensures var r := LeadingNodes(vs, count);
      (forall i :: 0 <= i < |r| ==> IsNodeRef(vs[i], count) && r[i] == vs[i].tag) &&
      ((forall v :: v in vs ==> IsNodeRef(v, count)) <==> |r| == |vs|) &&
      (|r| < |vs| ==> !IsNodeRef(vs[|r|], count))
  {
    if vs != [] && IsNodeRef(vs[0], count) {
      LeadingNodesMeaning(vs[1..], count);
      var r := LeadingNodes(vs[1..], count);
      if forall v :: v in vs[1..] ==> IsNodeRef(v, count) {
        assert forall v :: v in vs ==> v == vs[0] || v in vs[1..];
      }
      if |r| < |vs[1..]| {
        assert vs[1..][|r|] in vs;
      }
    } else if vs != [] {
      assert vs[0] in vs;
    }
  }

  lemma {:induction false} LeadingNodesAppend(a: seq<Value>, b: seq<Value>, count: nat)
    requires forall v :: v in a ==> IsNodeRef(v, count)
    ensures LeadingNodes(a + b, count) == LeadingNodes(a, count) + LeadingNodes(b, count)
  {
    if a == [] {
      assert a + b == b;
    } else {
      assert a[0] in a;
      assert (a + b)[1..] == a[1..] + b;
      assert forall v :: v in a[1..] ==> v in a;
      LeadingNodesAppend(a[1..], b, count);
    }
  }

  /** Every node id in `ns` names a node of `g`. */
  predicate InGraph(g: Graph, ns: seq<nat>)
  {
    forall k :: 0 <= k < |ns| ==> ns[k] < |g|
  }

  /** The sum of the threads of the given nodes. */
  function ThreadSum(g: Graph, ns: seq<nat>): nat
    requires InGraph(g, ns)
  {
    if ns == [] then 0
    else
      assert ns[0] in ns && forall n :: n in ns[1..] ==> n in ns;
      g[ns[0]].threads + ThreadSum(g, ns[1..])
  }

  lemma {:induction false} ThreadSumAppend(g: Graph, a: seq<nat>, b: seq<nat>)
    requires InGraph(g, a) && InGraph(g, b)
    ensures InGraph(g, a + b)
    ensures ThreadSum(g, a + b) == ThreadSum(g, a) + ThreadSum(g, b)
  {
    if a == [] {
      assert a + b == b;
    } else {
      assert (a + b)[1..] == a[1..] + b;
      assert forall n :: n in a[1..] ==> n in a;
      ThreadSumAppend(g, a[1..], b);
    }
  }

  /** `ns` without the nodes of `drop`, in order. */
  function Without(ns: seq<nat>, drop: set<nat>): (r: seq<nat>)
    ensures forall x :: x in r <==> x in ns && x !in drop
  {
    if ns == [] then []
    else
      assert forall x :: x in ns <==> x == ns[0] || x in ns[1..];
      if ns[0] !in drop then [ns[0]] + Without(ns[1..], drop) else Without(ns[1..], drop)
  }

  lemma {:induction false} WithoutNothing(ns: seq<nat>)
    ensures Without(ns, {}) == ns
  {
    if ns != [] {
      WithoutNothing(ns[1..]);
    }
  }

  /** Dropping in two steps is dropping both sets. */
  lemma {:induction false} WithoutTwice(ns: seq<nat>, a: set<nat>, b: set<nat>)
    ensures Without(Without(ns, a), b) == Without(ns, a + b)
  {
    if ns != [] {
      WithoutTwice(ns[1..], a, b);
      var w := Without(ns[1..], a);
      if ns[0] !in a {
        assert ([ns[0]] + w)[0] == ns[0] && ([ns[0]] + w)[1..] == w;
      }
    }
  }

  /** Dropping nodes never raises the thread sum. */
  lemma {:induction false} ThreadSumWithout(g: Graph, ns: seq<nat>, drop: set<nat>)
    requires InGraph(g, ns)
    ensures InGraph(g, Without(ns, drop)) && ThreadSum(g, Without(ns, drop)) <= ThreadSum(g, ns)
  {
    if ns != [] {
      assert ns[0] in ns && forall n :: n in ns[1..] ==> n in ns;
      ThreadSumWithout(g, ns[1..], drop);
      var rest := Without(ns[1..], drop);
      if ns[0] !in drop {
        var r := [ns[0]] + rest;
        assert r[0] == ns[0] && r[1..] == rest;
        assert ThreadSum(g, r) == g[ns[0]].threads + ThreadSum(g, rest);
      }
    }
  }

  /** Every node fits within `maxRunning` threads: the check `run` makes
      before starting anything. */
  predicate ThreadsFit(g: Graph, maxRunning: int)
  {
    forall k :: 0 <= k < |g| ==> g[k].threads <= maxRunning
  }

  class Pypeline {
    var nodes: seq<nat>

    constructor ()
      ensures nodes == []
    {
      nodes := [];
    }

    /** `add_nodes(*args)`: every value of every argument (a list or tuple
        is taken element by element) must be a node, else TypeError; the
        nodes before the offending value have been appended already.
        `count` is the number of nodes built. */
    method AddNodes(args: seq<Value>, count: nat) returns (r: Outcome)
      modifies this
      ensures nodes == old(nodes) + LeadingNodes(AddedValues(args), count)
      ensures r.Pass? <==> AllNodes(AddedValues(args), count)
      ensures r.Fail? ==> r.error == TypeError
    {
      var i := 0;
      ghost var done: seq<Value> := [];
      while i < |args|
        invariant 0 <= i <= |args|
        invariant done == AddedValues(args[..i])
        invariant AllNodes(done, count)
        invariant nodes == old(nodes) + LeadingNodes(done, count)
      {
        var items := SafeCoerceToTuple(args[i]);
        AddedValuesStep(args, i);
        r := AddGroup(items, count);
        if r.Fail? {
          StoppedGroup(old(nodes), done, items, AddedValues(args[i + 1..]), count);
          return;
        }
        GroupAdded(old(nodes), done, items, count);
        done := done + items;
        i := i + 1;
      }
      assert args[..i] == args;
      r := Pass;
    }

    /** The inner loop of `add_nodes`, over the values of one argument. */
    method AddGroup(items: seq<Value>, count: nat) returns (r: Outcome)
      modifies this
      ensures nodes == old(nodes) + LeadingNodes(items, count)
      ensures r.Pass? <==> forall v :: v in items ==> IsNodeRef(v, count)
      ensures r.Fail? ==> r.error == TypeError
    {
      var j := 0;
      while j < |items|
        invariant 0 <= j <= |items|
        invariant forall v :: v in items[..j] ==> IsNodeRef(v, count)
        invariant nodes == old(nodes) + LeadingNodes(items[..j], count)
      {
        if !IsNodeRef(items[j], count) {
          StoppedGroup(old(nodes), items[..j], items[j..], [], count);
          assert items[..j] + items[j..] + [] == items;
          return Fail(TypeError);
        }
        LeadingNodesAppend(items[..j], [items[j]], count);
        assert items[..j + 1] == items[..j] + [items[j]];
        nodes := nodes + [items[j].tag];
        j := j + 1;
      }
      assert items[..j] == items;
      r := Pass;
    }
  }

  /** A whole group of nodes appended after the earlier ones. */
  lemma {:induction false} GroupAdded(start: seq<nat>, done: seq<Value>, items: seq<Value>, count: nat)
    requires AllNodes(done, count) && AllNodes(items, count)
    ensures start + LeadingNodes(done, count) + LeadingNodes(items, count) == start + LeadingNodes(done + items, count)
    ensures AllNodes(done + items, count)
  {
    LeadingNodesAppend(done, items, count);
  }

  /** Every value is one of the `count` nodes built. */
  predicate AllNodes(vs: seq<Value>, count: nat)
  {
    forall v :: v in vs ==> IsNodeRef(v, count)
  }

  /** Nothing after a value that is not a node is appended. */
  lemma {:induction false} StoppedGroup(start: seq<nat>, done: seq<Value>, items: seq<Value>, rest: seq<Value>, count: nat)
    requires forall v :: v in done ==> IsNodeRef(v, count)
    requires !forall v :: v in items ==> IsNodeRef(v, count)
    ensures start + LeadingNodes(done + items + rest, count) == start + LeadingNodes(done, count) + LeadingNodes(items, count)
    ensures !forall v :: v in done + items + rest ==> IsNodeRef(v, count)
  {
    assert done + items + rest == done + (items + rest);
    LeadingNodesAppend(done, items + rest, count);
    StoppedAt(items, rest, count);
  }

  lemma {:induction false} StoppedAt(items: seq<Value>, rest: seq<Value>, count: nat)
    requires !forall v :: v in items ==> IsNodeRef(v, count)
    ensures LeadingNodes(items + rest, count) == LeadingNodes(items, count)
  {
    assert items != [];
    assert (items + rest)[0] == items[0];
    if IsNodeRef(items[0], count) {
      assert (items + rest)[1..] == items[1..] + rest;
      assert forall v :: v in items ==> v == items[0] || v in items[1..];
      StoppedAt(items[1..], rest, count);
    }
  }

  /** One more argument visited. */
  lemma {:induction false} AddedValuesStep(args: seq<Value>, i: nat)
    requires i < |args|
    ensures AddedValues(args[..i + 1]) == AddedValues(args[..i]) + SafeCoerceToTuple(args[i])
    ensures AddedValues(args) == AddedValues(args[..i + 1]) + AddedValues(args[i + 1..])
  {
    AddedValuesSnoc(args[..i], args[i]);
    assert args[..i + 1] == args[..i] + [args[i]];
    AddedValuesPrefix(args, i + 1);
  }

  lemma {:induction false} AddedValuesPrefix(args: seq<Value>, i: nat)
    requires i <= |args|
    ensures AddedValues(args) == AddedValues(args[..i]) + AddedValues(args[i..])
  {
    if i > 0 {
      assert args[1..][..i - 1] == args[1..i];
      assert args[..i][1..] == args[1..i];
      assert args[1..][i - 1..] == args[i..];
      AddedValuesPrefix(args[1..], i - 1);
    } else {
      assert args[..0] == [];
      assert args[0..] == args;
    }
  }

  lemma {:induction false} ThreadSumSnoc(g: Graph, ns: seq<nat>, n: nat)
    requires InGraph(g, ns) && n < |g|
    ensures InGraph(g, ns + [n])
    ensures ThreadSum(g, ns + [n]) == ThreadSum(g, ns) + g[n].threads
  {
    assert [n][1..] == [];
    assert ThreadSum(g, [n]) == g[n].threads;
    ThreadSumAppend(g, ns, [n]);
  }

  /** The checks `run` makes before scheduling: building the node graph (a
      NodeGraphError is reported and `run` returns False; any other error
      propagates) and the thread count of every node against `maxRunning`.
      `Ok(true)` is where the dry run returns True and the real run starts
      scheduling `graph`. */
  method Prepare(g: Graph, fs: FsView, maxRunning: int) returns (r: Result<bool>, graph: NodeGraph?)
    requires ValidGraph(g)
    ensures CheckFileDependencies(g, fs).Fail? ==> r == Ok(false)
    ensures CheckFileDependencies(g, fs).Pass? && CheckRequiredExecutables(g, fs).Fail? ==> r == Ok(false)
    ensures r.Ok? && !ThreadsFit(g, maxRunning) ==> !r.value
    ensures r.Err? ==> r.error != NodeGraphError
    ensures graph != null <==> r == Ok(true)
    ensures r == Ok(true) ==> fresh(graph) && graph.g == g && graph.view == fs && graph.Valid() && ThreadsFit(g, maxRunning)
    ensures r.Err? ==> exists k :: 0 <= k < |g| && StateOf(g, fs, map[], k) == Err(r.error)
    ensures CheckFileDependencies(g, fs).Pass? && CheckRequiredExecutables(g, fs).Pass? && ThreadsFit(g, maxRunning) &&
            (forall k :: 0 <= k < |g| ==> StateOf(g, fs, map[], k).Ok?)
            ==> r == Ok(true)
  {
    var built := NewNodeGraph(g, fs);
    if built.Err? {
      graph := null;
      if built.error == NodeGraphError {
        r := Ok(false);
      } else {
        r := Err(built.error);
      }
      return;
    }
    var k := 0;
    while k < |g|
      invariant 0 <= k <= |g|
      invariant forall j :: 0 <= j < k ==> g[j].threads <= maxRunning
    {
      if g[k].threads > maxRunning {
        return Ok(false), null;
      }
      k := k + 1;
    }
    return Ok(true), built.value;
  }

  /** `_start_new_tasks(remaining, running, nodegraph, max_threads, pool)`.
      `run` keeps `remaining` (a set, taken here in the order it is
      visited) and `running` (the nodes whose task is under way) as its
      own locals, which the call changes in place: here they are passed in
      and their new contents returned. The decisions are those of
      `ScanOf` from the threads left idle by `running`: in that order, a
      node that fits in the idle threads is started if RUNABLE (appended
      to `running` and set RUNNING) and dropped from `remaining` if DONE
      or ERROR; a node that does not fit is passed over, and the scan
      stops there once no thread is idle. `more` says whether nodes
      remain. `started`, `settled` and `seen` record what was started,
      what was dropped and the state each scanned node was found in. */
  method StartNewTasks(graph: NodeGraph, remaining: seq<nat>, running: seq<nat>, maxThreads: int, fs: FsView)
      returns (more: Result<bool>, remaining': seq<nat>, running': seq<nat>,
               ghost started: seq<nat>, ghost settled: seq<nat>, ghost seen: map<nat, State>, ghost culprit: nat)
    requires graph.Valid() && InGraph(graph.g, remaining) && InGraph(graph.g, running)
    requires Distinct(remaining)
    modifies graph
    ensures InGraph(graph.g, started) && InGraph(graph.g, running')
    ensures running' == running + started
    ensures forall n :: n in started ==> n in remaining && n in seen && seen[n] == RUNABLE
    ensures forall n :: n in settled ==> n in remaining && n in seen && seen[n] in {DONE, ERROR}
    ensures more.Ok? ==> graph.Valid()
    ensures more.Ok? ==> var p := ScanOf(graph.g, remaining, seen, maxThreads - ThreadSum(graph.g, running));
      started == p.started && settled == p.settled
    ensures more.Ok? ==> forall j :: 0 <= j < |remaining| && remaining[j] !in seen ==>
      ScanOf(graph.g, remaining[..j], seen, maxThreads - ThreadSum(graph.g, running)).stopped
    ensures more.Ok? ==> forall n :: n in seen ==> n in started || Kept(graph.g, graph.states, n, seen[n], Members(started))
    ensures more.Ok? ==> forall n :: n in started ==> Kept(graph.g, graph.states, n, RUNNING, Members(started))
    ensures more.Ok? ==> Found(graph.g, old(graph.states), seen, started)
    ensures more.Ok? ==> remaining' == Without(remaining, Members(started) + Members(settled))
    ensures more.Ok? ==> more.value == (|remaining'| > 0)
    ensures more.Ok? && ThreadSum(graph.g, running) <= maxThreads ==> ThreadSum(graph.g, running') <= maxThreads
    ensures more.Err? ==> |started| > 0 && RaisedAt(graph.g, graph.states, fs, started[|started| - 1], culprit, more.error)
  {
    var idle := maxThreads - ThreadSum(graph.g, running);
    var outcome, startedNodes;
    outcome, startedNodes, running', started, settled, seen, culprit := Scan(graph, remaining, running, idle, fs);
    if outcome.Fail? {
      more, remaining' := Err(outcome.error), remaining;
    } else {
      assert Members(startedNodes) == Members(started) + Members(settled);
      remaining' := Without(remaining, Members(startedNodes));
      more := Ok(|remaining'| > 0);
    }
  }

  /** Node `n` is in state `s` in the table `states`, unless one of the
      nodes `movers` it depends on has since been set, which recomputes
      the nodes above it. */
  ghost predicate Kept(g: Graph, states: map<nat, State>, n: nat, s: State, movers: set<nat>)
  {
    ValidGraph(g) && n < |g| && n in states &&
    (states[n] == s || exists m :: m in movers && m in Reach(g, n))
  }

  /** Setting node `n` raised `e`: node `i` above it, popped from the
      table, raised when its own flags were asked against `fs`. */
  ghost predicate RaisedAt(g: Graph, states: map<nat, State>, fs: FsView, n: nat, i: nat, e: ErrorKind)
  {
    ValidGraph(g) && n < i < |g| && i !in states &&
    (forall c :: c in Children(g[i]) ==> c in states) &&
    Adjust(g, fs, i, TableMax(states, Children(g[i]))) == Err(e)
  }

  /** The loop of `_start_new_tasks` over `remaining`, with `idle` threads
      free at the start. `startedNodes` lists the nodes to drop from
      `remaining`: the ones started and the ones found DONE or ERROR. */
  method Scan(graph: NodeGraph, remaining: seq<nat>, running: seq<nat>, idle: int, fs: FsView)
      returns (r: Outcome, startedNodes: seq<nat>, running': seq<nat>,
               ghost started: seq<nat>, ghost settled: seq<nat>, ghost seen: map<nat, State>, ghost culprit: nat)
    requires graph.Valid() && InGraph(graph.g, remaining) && InGraph(graph.g, running)
    requires Distinct(remaining)
    modifies graph
    ensures InGraph(graph.g, started) && InGraph(graph.g, running')
    ensures running' == running + started
    ensures Tracked(remaining, started, settled, seen, startedNodes)
    ensures r.Pass? ==> graph.Valid()
    ensures r.Pass? ==> var p := ScanOf(graph.g, remaining, seen, idle); started == p.started && settled == p.settled
    ensures r.Pass? ==> forall j :: 0 <= j < |remaining| && remaining[j] !in seen ==>
      ScanOf(graph.g, remaining[..j], seen, idle).stopped
    ensures r.Pass? ==> forall n :: n in seen ==> n in started || Kept(graph.g, graph.states, n, seen[n], Members(started))
    ensures r.Pass? ==> forall n :: n in started ==> Kept(graph.g, graph.states, n, RUNNING, Members(started))
    ensures r.Pass? ==> Found(graph.g, old(graph.states), seen, started)
    ensures r.Pass? && idle >= 0 ==> ThreadSum(graph.g, running') <= ThreadSum(graph.g, running) + idle
    ensures r.Fail? ==> |started| > 0 && RaisedAt(graph.g, graph.states, fs, started[|started| - 1], culprit, r.error)
  {
    ghost var k, free, stopped;
    r, startedNodes, running', started, settled, seen, culprit, k, free, stopped :=
      ScanLoop(graph, remaining, running, idle, fs);
    if r.Pass? {
      ScanFinal(graph.g, graph.states, remaining, k, idle, running, running', free, started, settled, seen,
                startedNodes, stopped);
    }
  }

  /** The loop itself: it ends after `k` nodes, with the scan's state as
      `ScanInv` and `Scanned` describe it, or on the first failure. */
  method ScanLoop(graph: NodeGraph, remaining: seq<nat>, running: seq<nat>, idle: int, fs: FsView)
      returns (r: Outcome, startedNodes: seq<nat>, running': seq<nat>,
               ghost started: seq<nat>, ghost settled: seq<nat>, ghost seen: map<nat, State>, ghost culprit: nat,
               ghost k: nat, ghost free: int, ghost stopped: bool)
    requires graph.Valid() && InGraph(graph.g, remaining) && InGraph(graph.g, running)
    requires Distinct(remaining)
    modifies graph
    ensures InGraph(graph.g, started) && InGraph(graph.g, running') && running' == running + started
    ensures r.Pass? ==> graph.Valid() && (if stopped then k > 0 else k == |remaining|)
    ensures r.Pass? ==> ScanInv(graph.g, graph.states, remaining, k, idle, running, running', free,
                                started, settled, seen, startedNodes, stopped)
    ensures r.Pass? ==> Scanned(graph.g, old(graph.states), graph.states, seen, started)
    ensures r.Fail? ==> Tracked(remaining, started, settled, seen, startedNodes)
    ensures r.Fail? ==> |started| > 0 && RaisedAt(graph.g, graph.states, fs, started[|started| - 1], culprit, r.error)
  {
    var g := graph.g;
    ghost var s0 := graph.states;
    var left := idle;
    startedNodes, started, settled, seen, culprit := [], [], [], map[], 0;
    running' := running;
    var i, stop := 0, false;
    r := Pass;
    assert remaining[..0] == [];
    while i < |remaining|
      invariant 0 <= i <= |remaining| && r.Pass? && !stop
      invariant graph.Valid()
      invariant ScanInv(g, graph.states, remaining, i, idle, running, running', left, started, settled, seen, startedNodes, false)
      invariant Scanned(g, s0, graph.states, seen, started)
    {
      r, stop, left, running', startedNodes, started, settled, seen, culprit :=
        ScanOneFound(graph, remaining, i, idle, running, running', left, startedNodes, started, settled, seen, s0, fs);
      if r.Fail? {
        k, free, stopped := 0, 0, false;
        return;
      }
      if stop {
        break;
      }
      i := i + 1;
    }
    k, free, stopped := if stop then i + 1 else i, left, stop;
  }

  /** Where the scan ends, at the last node or where it stopped, its
      decisions are those of `ScanOf` over all of `remaining`. */
  lemma ScanFinal(g: Graph, states: map<nat, State>, remaining: seq<nat>, k: nat, idle: int,
                  running: seq<nat>, running': seq<nat>, free: int,
                  started: seq<nat>, settled: seq<nat>, seen: map<nat, State>, startedNodes: seq<nat>, stopped: bool)
    requires ScanInv(g, states, remaining, k, idle, running, running', free, started, settled, seen, startedNodes, stopped)
    requires if stopped then k > 0 else k == |remaining|
    ensures InGraph(g, started) && InGraph(g, running') && running' == running + started
    ensures Tracked(remaining, started, settled, seen, startedNodes)
    ensures var p := ScanOf(g, remaining, seen, idle); started == p.started && settled == p.settled
    ensures forall j :: 0 <= j < |remaining| && remaining[j] !in seen ==> ScanOf(g, remaining[..j], seen, idle).stopped
    ensures AllKept(g, states, seen, started)
    ensures idle >= 0 ==> ThreadSum(g, running') <= ThreadSum(g, running) + idle
  {
    TrackedWithin(remaining, k, started, settled, seen, startedNodes);
    if stopped {
      ScanStopsAt(g, remaining, k - 1, seen, idle);
    } else {
      assert remaining[..k] == remaining;
    }
  }

  /** The state of the scan of `remaining` after `i` nodes, with the
      threads `running` had at the start: what `ScanOf` decided (and
      whether it stopped), every node scanned recorded in `seen`, and each
      recorded state still held unless a node started since lies below. */
  ghost predicate ScanInv(g: Graph, states: map<nat, State>, remaining: seq<nat>, i: nat, idle: int,
                          running: seq<nat>, running': seq<nat>, free: int,
                          started: seq<nat>, settled: seq<nat>, seen: map<nat, State>, startedNodes: seq<nat>,
                          stopped: bool)
  {
    ScanCounts(g, remaining, i, idle, running, running', free, started) &&
    Tracked(remaining[..i], started, settled, seen, startedNodes) &&
    ScanOf(g, remaining[..i], seen, idle) == ScanState(started, settled, free, stopped) &&
    (forall j :: 0 <= j < i ==> remaining[j] in seen) &&
    AllKept(g, states, seen, started)
  }

  /** The threads in use: `running'` is `running` and the nodes started,
      and `free` is what is left of `idle`. */
  ghost predicate ScanCounts(g: Graph, remaining: seq<nat>, i: nat, idle: int, running: seq<nat>, running': seq<nat>,
                             free: int, started: seq<nat>)
  {
    i <= |remaining| && InGraph(g, remaining) && InGraph(g, running) && InGraph(g, started) &&
    running' == running + started && InGraph(g, running') &&
    free == idle - (ThreadSum(g, running') - ThreadSum(g, running)) && (idle >= 0 ==> free >= 0)
  }

  /** Each scanned node still holds the state it was found in, and each
      started node is RUNNING, unless a started node lies below it. */
  ghost predicate AllKept(g: Graph, states: map<nat, State>, seen: map<nat, State>, started: seq<nat>)
  {
    (forall n :: n in seen ==> n in started || Kept(g, states, n, seen[n], Members(started))) &&
    (forall n :: n in started ==> Kept(g, states, n, RUNNING, Members(started)))
  }

  /** One pass of the loop of `_start_new_tasks` with what it tells about
      the whole scan: the node is found in its current state, and every
      node found so far or moved since the scan began from the table `s0`
      is as `Found` and `Moved` say. */
  method ScanOneFound(graph: NodeGraph, remaining: seq<nat>, i: nat, idle: int, running: seq<nat>,
                      runningNow: seq<nat>, free: int, startedNodes: seq<nat>, ghost started: seq<nat>,
                      ghost settled: seq<nat>, ghost seen: map<nat, State>, ghost s0: map<nat, State>, fs: FsView)
      returns (r: Outcome, stop: bool, free': int, running': seq<nat>, startedNodes': seq<nat>,
               ghost started': seq<nat>, ghost settled': seq<nat>, ghost seen': map<nat, State>, ghost culprit: nat)
    requires graph.Valid() && Distinct(remaining) && i < |remaining|
    requires ScanInv(graph.g, graph.states, remaining, i, idle, running, runningNow, free,
                     started, settled, seen, startedNodes, false)
    requires Scanned(graph.g, s0, graph.states, seen, started)
    modifies graph
    ensures seen' == seen[remaining[i] := old(graph.states)[remaining[i]]]
    ensures r.Pass? ==> Scanned(graph.g, s0, graph.states, seen', started')
    ensures r.Pass? ==> graph.Valid()
    ensures r.Pass? ==> ScanInv(graph.g, graph.states, remaining, i + 1, idle, running, running', free',
                                started', settled', seen', startedNodes', stop)
    ensures r.Fail? ==> InGraph(graph.g, started') && running' == running + started' && InGraph(graph.g, running')
    ensures r.Fail? ==> Tracked(remaining, started', settled', seen', startedNodes')
    ensures r.Fail? ==> |started'| > 0 && RaisedAt(graph.g, graph.states, fs, started'[|started'| - 1], culprit, r.error)
  {
    ghost var before := graph.states;
    r, stop, free', running', startedNodes', started', settled', seen', culprit :=
      ScanOne(graph, remaining, i, idle, running, runningNow, free, startedNodes, started, settled, seen, fs);
    if r.Pass? {
      assert remaining[i] !in remaining[..i];
      FoundNext(graph.g, s0, before, remaining, i, idle, running, runningNow, free, started, settled, seen, startedNodes,
                started');
      MovedStep(graph.g, s0, before, graph.states, remaining[i], started, started');
    } else {
      TrackedWithin(remaining, i + 1, started', settled', seen', startedNodes');
    }
  }

  /** One pass of the loop of `_start_new_tasks`, on `remaining[i]`: the
      node's state is read from the table as it is now, and a start moves
      only the nodes above it, to QUEUED, OUTDATED or ERROR. */
  method ScanOne(graph: NodeGraph, remaining: seq<nat>, i: nat, idle: int, running: seq<nat>, runningNow: seq<nat>,
                 free: int, startedNodes: seq<nat>, ghost started: seq<nat>, ghost settled: seq<nat>,
                 ghost seen: map<nat, State>, fs: FsView)
      returns (r: Outcome, stop: bool, free': int, running': seq<nat>, startedNodes': seq<nat>,
               ghost started': seq<nat>, ghost settled': seq<nat>, ghost seen': map<nat, State>, ghost culprit: nat)
    requires graph.Valid() && Distinct(remaining) && i < |remaining|
    requires ScanInv(graph.g, graph.states, remaining, i, idle, running, runningNow, free,
                     started, settled, seen, startedNodes, false)
    modifies graph
    ensures seen' == seen[remaining[i] := old(graph.states)[remaining[i]]]
    ensures r.Pass? ==> graph.Valid()
    ensures r.Pass? ==> started' == started || started' == started + [remaining[i]]
    ensures r.Pass? && started' == started ==> graph.states == old(graph.states)
    ensures r.Pass? && started' != started ==>
      forall k :: 0 <= k < |graph.g| && k != remaining[i] && graph.states[k] != old(graph.states)[k] ==>
        remaining[i] in Reach(graph.g, k) && Rank(graph.states[k]) >= Rank(QUEUED)
    ensures r.Pass? ==> ScanInv(graph.g, graph.states, remaining, i + 1, idle, running, running', free',
                                started', settled', seen', startedNodes', stop)
    ensures r.Fail? ==> InGraph(graph.g, started') && running' == running + started' && InGraph(graph.g, running')
    ensures r.Fail? ==> Tracked(remaining[..i + 1], started', settled', seen', startedNodes')
    ensures r.Fail? ==> |started'| > 0 && RaisedAt(graph.g, graph.states, fs, started'[|started'| - 1], culprit, r.error)
  {
    var g := graph.g;
    var n := remaining[i];
    assert n in remaining && n !in remaining[..i];
    ghost var before := graph.states;
    seen' := seen[n := before[n]];
    r, stop, free', running', startedNodes', started', settled', culprit :=
      Pass, false, free, runningNow, startedNodes, started, settled, 0;
    if free >= g[n].threads {
      var state := graph.GetNodeState(n);
      if state == RUNABLE {
        r, running', culprit := Launch(graph, runningNow, n, fs);
        startedNodes', started' := startedNodes + [n], started + [n];
        free' := free - g[n].threads;
      } else if state == DONE || state == ERROR {
        startedNodes', settled' := startedNodes + [n], settled + [n];
      }
    } else if free == 0 {
      stop := true;
    }
    if r.Fail? {
      TrackedNext(remaining[..i], n, before[n], started, settled, seen, startedNodes);
      TakeNext(remaining, i);
    } else {
      ScanStepHolds(g, remaining, i, before[n], seen, started, settled, free, runningNow, startedNodes,
                    seen', started', settled', free', stop, running', startedNodes');
      ScanInvNext(g, before, graph.states, remaining, i, idle, running, runningNow, free, started, settled, seen,
                  startedNodes, running', free', started', settled', seen', startedNodes', stop);
    }
  }

  /** `FoundStep` from the scan's invariant. */
  lemma FoundNext(g: Graph, s0: map<nat, State>, before: map<nat, State>, remaining: seq<nat>, i: nat, idle: int,
                  running: seq<nat>, runningNow: seq<nat>, free: int, started: seq<nat>, settled: seq<nat>,
                  seen: map<nat, State>, startedNodes: seq<nat>, started': seq<nat>)
    requires i < |remaining| && remaining[i] !in remaining[..i]
    requires ScanInv(g, before, remaining, i, idle, running, runningNow, free, started, settled, seen, startedNodes, false)
    requires Moved(g, s0, before, started) && Found(g, s0, seen, started)
    requires started' == started || started' == started + [remaining[i]]
    ensures Found(g, s0, seen[remaining[i] := before[remaining[i]]], started')
  {
    assert remaining[i] !in started;
    FoundStep(g, s0, before, remaining[i], seen, started, started');
  }

  /** What the scan has found and moved since it began from the table `s0`. */
  ghost predicate Scanned(g: Graph, s0: map<nat, State>, states: map<nat, State>, seen: map<nat, State>,
                          started: seq<nat>)
  {
    Moved(g, s0, states, started) && Found(g, s0, seen, started)
  }

  /** Every node that differs from the table `s0` the scan started from,
      other than the nodes started, lies above a started node and is
      QUEUED, OUTDATED or ERROR. */
  ghost predicate Moved(g: Graph, s0: map<nat, State>, states: map<nat, State>, started: seq<nat>)
  {
    ValidGraph(g) && Complete(g, s0) && Complete(g, states) &&
    forall k {:trigger Reach(g, k)} :: 0 <= k < |g| && k !in started && states[k] != s0[k] ==>
      Rank(states[k]) >= Rank(QUEUED) && exists m :: m in started && m in Reach(g, k)
  }

  /** Every node scanned was found in the state it had in `s0`, or, when
      a node started lies below it, in QUEUED, OUTDATED or ERROR. */
  ghost predicate Found(g: Graph, s0: map<nat, State>, seen: map<nat, State>, started: seq<nat>)
  {
    ValidGraph(g) && Complete(g, s0) &&
    (forall n :: n in seen ==> n < |g|) &&
    forall n {:trigger Reach(g, n)} :: n in seen && n < |g| ==>
      seen[n] == s0[n] || (Rank(seen[n]) >= Rank(QUEUED) && exists m :: m in started && m in Reach(g, n))
  }

  /** Starting a node moves only nodes above it, to QUEUED, OUTDATED or
      ERROR; anything else moves nothing. */
  lemma MovedStep(g: Graph, s0: map<nat, State>, before: map<nat, State>, after: map<nat, State>, n: nat,
                  started: seq<nat>, started': seq<nat>)
    requires Moved(g, s0, before, started) && Complete(g, after)
    requires started' == started || started' == started + [n]
    requires started' == started ==> after == before
    requires started' != started ==>
      forall k :: 0 <= k < |g| && k != n && after[k] != before[k] ==> n in Reach(g, k) && Rank(after[k]) >= Rank(QUEUED)
    ensures Moved(g, s0, after, started')
  {
    forall k | 0 <= k < |g| && k !in started' && after[k] != s0[k]
      ensures Rank(after[k]) >= Rank(QUEUED) && exists m :: m in started' && m in Reach(g, k)
    {
      var below := Reach(g, k);
      if started' != started && after[k] != before[k] {
        assert k != n;
        assert n in started' && n in below;
      } else {
        assert k !in started && before[k] != s0[k];
        var m :| m in started && m in below;
        assert m in started';
      }
    }
  }

  /** The node `n` scanned next, not started yet, is found in its current
      state, which is its state in `s0` unless a node started lies below it. */
  lemma FoundStep(g: Graph, s0: map<nat, State>, before: map<nat, State>, n: nat,
                  seen: map<nat, State>, started: seq<nat>, started': seq<nat>)
    requires Found(g, s0, seen, started) && Moved(g, s0, before, started) && n < |g| && n !in started
    requires started' == started || started' == started + [n]
    ensures Found(g, s0, seen[n := before[n]], started')
  {
    var seen' := seen[n := before[n]];
    forall k | k in seen' && k < |g|
      ensures seen'[k] == s0[k] || (Rank(seen'[k]) >= Rank(QUEUED) && exists m :: m in started' && m in Reach(g, k))
    {
      var below := Reach(g, k);
      if seen'[k] != s0[k] {
        if k == n {
          assert before[n] != s0[n];
        } else {
          assert k in seen && seen[k] != s0[k];
        }
        var m :| m in started && m in below;
        assert m in started';
      }
    }
  }

  /** Every node started was RUNABLE in `s0`, and in an ordered table no
      node started lies below another. */
  lemma FoundFinal(g: Graph, s0: map<nat, State>, seen: map<nat, State>, started: seq<nat>)
    requires Found(g, s0, seen, started) && InGraph(g, started)
    requires forall n :: n in started ==> n in seen && seen[n] == RUNABLE
    ensures forall n :: n in started ==> n in s0 && s0[n] == RUNABLE
    ensures Ordered(g, s0) ==> Unnested(g, started)
  {
    forall n | n in started ensures n in s0 && s0[n] == RUNABLE {
      var below := Reach(g, n);
    }
    if Ordered(g, s0) {
      forall a, b | a in started && b in started ensures a !in Reach(g, b) {
        OrderedReach(g, s0, b);
      }
    }
  }

  /** `remaining[i]` scanned, found in state `found`: the primed values
      are what `ScanNext` decides, and `running'` and `startedNodes'`
      follow the nodes started and dropped. */
  ghost predicate ScanStep(g: Graph, remaining: seq<nat>, i: nat, found: State, seen: map<nat, State>,
                           started: seq<nat>, settled: seq<nat>, free: int, runningNow: seq<nat>, startedNodes: seq<nat>,
                           seen': map<nat, State>, started': seq<nat>, settled': seq<nat>, free': int, stop: bool,
                           running': seq<nat>, startedNodes': seq<nat>)
  {
    i < |remaining| && InGraph(g, remaining) &&
    var n := remaining[i];
    var p := ScanNext(g, ScanState(started, settled, free, false), n, seen[n := found]);
    seen' == seen[n := found] && started' == p.started && settled' == p.settled && free' == p.free &&
    stop == p.stopped && running' == runningNow + (if p.started != started then [n] else []) &&
    startedNodes' == (if p.started != started || p.settled != settled then startedNodes + [n] else startedNodes)
  }

  /** The decisions of the loop body are those of `ScanNext`. */
  lemma ScanStepHolds(g: Graph, remaining: seq<nat>, i: nat, found: State, seen: map<nat, State>,
                      started: seq<nat>, settled: seq<nat>, free: int, runningNow: seq<nat>, startedNodes: seq<nat>,
                      seen': map<nat, State>, started': seq<nat>, settled': seq<nat>, free': int, stop: bool,
                      running': seq<nat>, startedNodes': seq<nat>)
    requires i < |remaining| && InGraph(g, remaining) && seen' == seen[remaining[i] := found]
    requires var n := remaining[i];
      if free >= g[n].threads && found == RUNABLE then
        started' == started + [n] && settled' == settled && free' == free - g[n].threads && !stop &&
        running' == runningNow + [n] && startedNodes' == startedNodes + [n]
      else if free >= g[n].threads && (found == DONE || found == ERROR) then
        started' == started && settled' == settled + [n] && free' == free && !stop &&
        running' == runningNow && startedNodes' == startedNodes + [n]
      else
        started' == started && settled' == settled && free' == free && stop == (free < g[n].threads && free == 0) &&
        running' == runningNow && startedNodes' == startedNodes
    ensures ScanStep(g, remaining, i, found, seen, started, settled, free, runningNow, startedNodes,
                     seen', started', settled', free', stop, running', startedNodes')
  {
    var n := remaining[i];
    assert started + [n] != started;
    assert settled + [n] != settled;
  }

  /** Scanning `remaining[i]`, found in state `before[remaining[i]]`, keeps
      the scan's state in step with `ScanOf`; starting it turns `before`
      into `after`, moving only the nodes above it. */
  lemma ScanInvNext(g: Graph, before: map<nat, State>, after: map<nat, State>, remaining: seq<nat>, i: nat,
                    idle: int, running: seq<nat>, runningNow: seq<nat>, free: int,
                    started: seq<nat>, settled: seq<nat>, seen: map<nat, State>, startedNodes: seq<nat>,
                    running': seq<nat>, free': int, started': seq<nat>, settled': seq<nat>, seen': map<nat, State>,
                    startedNodes': seq<nat>, stop: bool)
    requires ValidGraph(g) && Complete(g, before) && Complete(g, after)
    requires i < |remaining| && remaining[i] !in remaining[..i]
    requires ScanInv(g, before, remaining, i, idle, running, runningNow, free, started, settled, seen, startedNodes, false)
    requires ScanStep(g, remaining, i, before[remaining[i]], seen, started, settled, free, runningNow, startedNodes,
                      seen', started', settled', free', stop, running', startedNodes')
    requires started' != started ==>
      after[remaining[i]] == RUNNING &&
      forall k :: 0 <= k < |g| && k != remaining[i] && after[k] != before[k] ==> remaining[i] in Reach(g, k)
    requires started' == started ==> after == before
    ensures ScanInv(g, after, remaining, i + 1, idle, running, running', free', started', settled', seen',
                    startedNodes', stop)
  {
    var n := remaining[i];
    var found := before[n];
    ScanCountsNext(g, remaining, i, found, idle, running, runningNow, free, started, settled, seen, startedNodes,
                   running', free', started', settled', seen', startedNodes', stop);
    TrackedStep(g, remaining, i, found, started, settled, seen, startedNodes, free, runningNow,
                running', free', started', settled', seen', startedNodes', stop);
    ScanAtStep(g, remaining, i, found, idle, started, settled, seen, startedNodes, free, runningNow,
               running', free', started', settled', seen', startedNodes', stop);
    CoveredStep(g, remaining, i, found, started, settled, seen, startedNodes, free, runningNow,
                running', free', started', settled', seen', startedNodes', stop);
    AllKeptStep(g, before, after, remaining, i, started, settled, seen, startedNodes, free, runningNow,
                running', free', started', settled', seen', startedNodes', stop);
  }

  /** Starting `remaining[i]` takes its threads; anything else leaves the
      counts as they are. */
  lemma ScanCountsNext(g: Graph, remaining: seq<nat>, i: nat, found: State, idle: int, running: seq<nat>,
                       runningNow: seq<nat>, free: int, started: seq<nat>, settled: seq<nat>, seen: map<nat, State>,
                       startedNodes: seq<nat>, running': seq<nat>, free': int, started': seq<nat>, settled': seq<nat>,
                       seen': map<nat, State>, startedNodes': seq<nat>, stop: bool)
    requires ScanCounts(g, remaining, i, idle, running, runningNow, free, started)
    requires ScanStep(g, remaining, i, found, seen, started, settled, free, runningNow, startedNodes,
                      seen', started', settled', free', stop, running', startedNodes')
    ensures ScanCounts(g, remaining, i + 1, idle, running, running', free', started')
  {
    var n := remaining[i];
    if started' != started {
      ThreadSumSnoc(g, runningNow, n);
      assert running + (started + [n]) == runningNow + [n];
    }
  }

  /** The started and dropped nodes stay among those scanned, with the
      states they were found in. */
  lemma TrackedStep(g: Graph, remaining: seq<nat>, i: nat, found: State, started: seq<nat>, settled: seq<nat>,
                    seen: map<nat, State>, startedNodes: seq<nat>, free: int, runningNow: seq<nat>,
                    running': seq<nat>, free': int, started': seq<nat>, settled': seq<nat>, seen': map<nat, State>,
                    startedNodes': seq<nat>, stop: bool)
    requires i < |remaining| && remaining[i] !in remaining[..i]
    requires Tracked(remaining[..i], started, settled, seen, startedNodes)
    requires ScanStep(g, remaining, i, found, seen, started, settled, free, runningNow, startedNodes,
                      seen', started', settled', free', stop, running', startedNodes')
    ensures Tracked(remaining[..i + 1], started', settled', seen', startedNodes')
  {
    TrackedNext(remaining[..i], remaining[i], found, started, settled, seen, startedNodes);
    TakeNext(remaining, i);
  }

  /** The scan's state stays that of `ScanOf` over the nodes scanned. */
  lemma ScanAtStep(g: Graph, remaining: seq<nat>, i: nat, found: State, idle: int, started: seq<nat>,
                   settled: seq<nat>, seen: map<nat, State>, startedNodes: seq<nat>, free: int, runningNow: seq<nat>,
                   running': seq<nat>, free': int, started': seq<nat>, settled': seq<nat>, seen': map<nat, State>,
                   startedNodes': seq<nat>, stop: bool)
    requires i < |remaining| && remaining[i] !in remaining[..i] && InGraph(g, remaining)
    requires ScanOf(g, remaining[..i], seen, idle) == ScanState(started, settled, free, false)
    requires ScanStep(g, remaining, i, found, seen, started, settled, free, runningNow, startedNodes,
                      seen', started', settled', free', stop, running', startedNodes')
    ensures ScanOf(g, remaining[..i + 1], seen', idle) == ScanState(started', settled', free', stop)
  {
    ScanAdvance(g, remaining, i, seen, found, idle);
  }

  /** Every node scanned has its state recorded. */
  lemma CoveredStep(g: Graph, remaining: seq<nat>, i: nat, found: State, started: seq<nat>, settled: seq<nat>,
                    seen: map<nat, State>, startedNodes: seq<nat>, free: int, runningNow: seq<nat>,
                    running': seq<nat>, free': int, started': seq<nat>, settled': seq<nat>, seen': map<nat, State>,
                    startedNodes': seq<nat>, stop: bool)
    requires i < |remaining| && forall j :: 0 <= j < i ==> remaining[j] in seen
    requires ScanStep(g, remaining, i, found, seen, started, settled, free, runningNow, startedNodes,
                      seen', started', settled', free', stop, running', startedNodes')
    ensures forall j :: 0 <= j < i + 1 ==> remaining[j] in seen'
  {
  }

  /** Starting `remaining[i]` moves only the nodes above it, so what was
      kept stays kept with it among the started nodes; anything else
      changes no state. */
  lemma AllKeptStep(g: Graph, before: map<nat, State>, after: map<nat, State>, remaining: seq<nat>, i: nat,
                    started: seq<nat>, settled: seq<nat>, seen: map<nat, State>, startedNodes: seq<nat>, free: int,
                    runningNow: seq<nat>, running': seq<nat>, free': int, started': seq<nat>, settled': seq<nat>,
                    seen': map<nat, State>, startedNodes': seq<nat>, stop: bool)
    requires ValidGraph(g) && Complete(g, before) && Complete(g, after) && i < |remaining| && InGraph(g, remaining)
    requires AllKept(g, before, seen, started)
    requires ScanStep(g, remaining, i, before[remaining[i]], seen, started, settled, free, runningNow, startedNodes,
                      seen', started', settled', free', stop, running', startedNodes')
    requires started' != started ==>
      after[remaining[i]] == RUNNING &&
      forall k :: 0 <= k < |g| && k != remaining[i] && after[k] != before[k] ==> remaining[i] in Reach(g, k)
    requires started' == started ==> after == before
    ensures AllKept(g, after, seen', started')
  {
    var n := remaining[i];
    if started' != started {
      KeptAfterLaunch(g, before, after, n, seen', started);
    }
  }

  /** Setting `n` RUNNING moves only the nodes above it: what was true of
      the scanned and started nodes stays true with `n` among the movers. */
  lemma KeptAfterLaunch(g: Graph, before: map<nat, State>, after: map<nat, State>, n: nat, seen: map<nat, State>,
                        prev: seq<nat>)
    requires ValidGraph(g) && n < |g| && Complete(g, before) && Complete(g, after)
    requires after[n] == RUNNING
    requires forall k :: 0 <= k < |g| && k != n && after[k] != before[k] ==> n in Reach(g, k)
    requires forall m :: m in seen ==> m in prev || m == n || Kept(g, before, m, seen[m], Members(prev))
    requires forall m :: m in prev ==> Kept(g, before, m, RUNNING, Members(prev))
    ensures forall m :: m in seen ==> m in prev + [n] || Kept(g, after, m, seen[m], Members(prev + [n]))
    ensures forall m :: m in prev + [n] ==> Kept(g, after, m, RUNNING, Members(prev + [n]))
  {
    var movers, movers' := Members(prev), Members(prev + [n]);
    assert n in movers' && movers <= movers';
    forall m | m in seen && m !in prev + [n]
      ensures Kept(g, after, m, seen[m], movers')
    {
      KeptMoves(g, before, after, n, m, seen[m], movers, movers');
    }
    forall m | m in prev + [n]
      ensures Kept(g, after, m, RUNNING, movers')
    {
      if m != n {
        assert m in prev;
        KeptMoves(g, before, after, n, m, RUNNING, movers, movers');
      }
    }
  }

  /** Setting node `n` moves only the nodes above it, so a node kept in
      its state with movers `movers` stays kept once `n` is among them. */
  lemma KeptMoves(g: Graph, before: map<nat, State>, after: map<nat, State>, n: nat, m: nat, s: State,
                  movers: set<nat>, movers': set<nat>)
    requires ValidGraph(g) && Complete(g, before) && Complete(g, after)
    requires Kept(g, before, m, s, movers) && movers <= movers' && n in movers' && m != n
    requires forall k :: 0 <= k < |g| && k != n && after[k] != before[k] ==> n in Reach(g, k)
    ensures Kept(g, after, m, s, movers')
  {
    if after[m] != before[m] {
      assert n in Reach(g, m);
    } else if before[m] != s {
      var w :| w in movers && w in Reach(g, m);
      assert w in movers';
    }
  }

  /** Starting one node: its task joins `running` and the node is set
      RUNNING; only the nodes that depend on it are recomputed. */
  method Launch(graph: NodeGraph, running: seq<nat>, n: nat, fs: FsView)
      returns (r: Outcome, running': seq<nat>, ghost culprit: nat)
    requires graph.Valid() && InGraph(graph.g, running) && n < |graph.g|
    modifies graph
    ensures running' == running + [n] && InGraph(graph.g, running')
    ensures ThreadSum(graph.g, running') == ThreadSum(graph.g, running) + graph.g[n].threads
    ensures r.Pass? ==> graph.Valid() && graph.states[n] == RUNNING && graph.view == fs
    ensures r.Pass? ==> forall k :: 0 <= k < |graph.g| && k != n && graph.states[k] != old(graph.states)[k] ==>
      n in Reach(graph.g, k) && Rank(graph.states[k]) >= Rank(QUEUED)
    ensures r.Fail? ==> RaisedAt(graph.g, graph.states, fs, n, culprit, r.error)
  {
    ThreadSumSnoc(graph.g, running, n);
    running' := running + [n];
    ghost var changed;
    r, changed := graph.SetNodeState(n, RUNNING, fs);
    culprit := 0;
    if r.Fail? {
      culprit :| n < culprit < |graph.g| && culprit !in graph.states &&
        (forall c :: c in Children(graph.g[culprit]) ==> c in graph.states) &&
        Adjust(graph.g, fs, culprit, TableMax(graph.states, Children(graph.g[culprit]))) == Err(r.error);
    }
  }

  /** `_poll_running_nodes(running, nodegraph)`, one pass over the running
      nodes: `finished` holds the nodes whose task has completed, mapped to
      whether it raised. Each such node is set ERROR or DONE and leaves
      `running`; `ok` is False when some task raised. A finished node
      keeps the state it was set to unless another finished node below it
      was set after it; when no running node lies below another, every
      finished node holds its new state. Of the nodes one call of
      `StartNewTasks` starts, none lies below another when the table is
      `Ordered` (`FoundFinal`), as `refresh_states` leaves it; that no
      node started in one round lies below one started in another is not
      proved. Waiting while nothing has finished is not modelled. */
  method PollRunningNodes(graph: NodeGraph, running: seq<nat>, finished: map<nat, bool>, fs: FsView)
      returns (ok: Result<bool>, running': seq<nat>, ghost failed: nat, ghost culprit: nat)
    requires graph.Valid() && InGraph(graph.g, running)
    modifies graph
    ensures ok.Ok? ==> graph.Valid()
    ensures ok.Ok? ==> running' == Without(running, Done(running, finished))
    ensures ok.Ok? ==> (ok.value <==> forall n :: n in running && n in finished ==> !finished[n])
    ensures ok.Ok? ==> InGraph(graph.g, running') && ThreadSum(graph.g, running') <= ThreadSum(graph.g, running)
    ensures ok.Ok? ==> forall n :: n in running && n in finished ==>
      Kept(graph.g, graph.states, n, if finished[n] then ERROR else DONE, Done(running, finished))
    ensures ok.Ok? && Unnested(graph.g, running) ==> forall n :: n in running && n in finished ==>
      n in graph.states && graph.states[n] == (if finished[n] then ERROR else DONE)
    ensures ok.Err? ==> failed in running && failed in finished && RaisedAt(graph.g, graph.states, fs, failed, culprit, ok.error)
  {
    var errors := false;
    running', failed, culprit := running, 0, 0;
    WithoutNothing(running);
    assert Done(running[..0], finished) == {};
    var i := 0;
    while i < |running|
      invariant 0 <= i <= |running|
      invariant graph.Valid()
      invariant PollInv(graph.g, graph.states, running, i, finished, running', errors)
    {
      var outcome;
      outcome, running', errors, culprit := PollOne(graph, running, i, finished, running', errors, fs);
      if outcome.Fail? {
        return Err(outcome.error), running', running[i], culprit;
      }
      i := i + 1;
    }
    assert running[..i] == running;
    assert FinishedKept(graph.g, graph.states, running, |running|, finished);
    ThreadSumWithout(graph.g, running, Done(running, finished));
    if Unnested(graph.g, running) {
      KeptUnnested(graph.g, graph.states, running, finished);
    }
    ok := Ok(!errors);
  }

  /** The state of the pass over the running nodes after `i` of them:
      the finished ones are out of `running'`, `errors` says whether one
      of them raised, and each holds the state it was set to. */
  ghost predicate PollInv(g: Graph, states: map<nat, State>, running: seq<nat>, i: nat, finished: map<nat, bool>,
                          running': seq<nat>, errors: bool)
  {
    i <= |running| &&
    running' == Without(running, Done(running[..i], finished)) &&
    (errors <==> AnyRaised(running[..i], finished)) &&
    FinishedKept(g, states, running, i, finished)
  }

  /** One pass of the loop of `_poll_running_nodes`, on `running[i]`. */
  method PollOne(graph: NodeGraph, running: seq<nat>, i: nat, finished: map<nat, bool>, runningNow: seq<nat>,
                 errors: bool, fs: FsView)
      returns (r: Outcome, running': seq<nat>, errors': bool, ghost culprit: nat)
    requires graph.Valid() && InGraph(graph.g, running) && i < |running|
    requires PollInv(graph.g, graph.states, running, i, finished, runningNow, errors)
    modifies graph
    ensures r.Pass? ==> graph.Valid() && PollInv(graph.g, graph.states, running, i + 1, finished, running', errors')
    ensures r.Fail? ==> running[i] in running && running[i] in finished
    ensures r.Fail? ==> RaisedAt(graph.g, graph.states, fs, running[i], culprit, r.error)
  {
    var n := running[i];
    DoneStep(running, i, finished);
    r, running', errors', culprit := Pass, runningNow, errors, 0;
    if n in finished {
      ghost var before := graph.states;
      r, running', culprit := Finish(graph, runningNow, n, finished[n], fs);
      if r.Fail? {
        return;
      }
      KeptAfterFinish(graph.g, before, graph.states, finished, running, i);
      errors' := errors || finished[n];
      WithoutTwice(running, Done(running[..i], finished), {n});
    } else {
      KeptPassedOver(graph.g, graph.states, finished, running, i);
    }
  }

  /** No node of `ns` depends on another node of `ns`. */
  ghost predicate Unnested(g: Graph, ns: seq<nat>)
    requires ValidGraph(g) && InGraph(g, ns)
  {
    forall a, b :: a in ns && b in ns ==> a !in Reach(g, b)
  }

  /** With no running node above another, no finished node has been
      moved by finishing another. */
  lemma KeptUnnested(g: Graph, states: map<nat, State>, running: seq<nat>, finished: map<nat, bool>)
    requires ValidGraph(g) && InGraph(g, running) && Unnested(g, running)
    requires forall n :: n in running && n in finished ==>
      Kept(g, states, n, if finished[n] then ERROR else DONE, Done(running, finished))
    ensures forall n :: n in running && n in finished ==> n in states && states[n] == (if finished[n] then ERROR else DONE)
  {
  }

  /** Setting finished node `running[i]` moves only the nodes above it. */
  lemma KeptAfterFinish(g: Graph, before: map<nat, State>, after: map<nat, State>, finished: map<nat, bool>,
                        running: seq<nat>, i: nat)
    requires i < |running| && running[i] in finished
    requires ValidGraph(g) && InGraph(g, running) && Complete(g, before) && Complete(g, after)
    requires after[running[i]] == (if finished[running[i]] then ERROR else DONE)
    requires forall k :: 0 <= k < |g| && k != running[i] && after[k] != before[k] ==> running[i] in Reach(g, k)
    requires Done(running[..i + 1], finished) == Done(running[..i], finished) + {running[i]}
    requires FinishedKept(g, before, running, i, finished)
    ensures FinishedKept(g, after, running, i + 1, finished)
  {
    var r := running[i];
    var movers, movers' := Done(running[..i], finished), Done(running[..i + 1], finished);
    assert running[..i + 1] == running[..i] + [r];
    forall m | m in running[..i + 1] && m in finished
      ensures Kept(g, after, m, if finished[m] then ERROR else DONE, movers')
    {
      if m != r {
        assert m in running[..i];
        KeptMoves(g, before, after, r, m, if finished[m] then ERROR else DONE, movers, movers');
      }
    }
  }

  /** A running node that has not finished changes nothing. */
  lemma KeptPassedOver(g: Graph, states: map<nat, State>, finished: map<nat, bool>, running: seq<nat>, i: nat)
    requires i < |running| && running[i] !in finished
    requires FinishedKept(g, states, running, i, finished)
    ensures FinishedKept(g, states, running, i + 1, finished)
  {
    assert running[..i + 1] == running[..i] + [running[i]];
    assert Done(running[..i + 1], finished) == Done(running[..i], finished);
  }

  /** Each of the first `i` running nodes that has finished holds ERROR or
      DONE, unless a finished node below it was set after it. */
  ghost predicate FinishedKept(g: Graph, states: map<nat, State>, running: seq<nat>, i: nat, finished: map<nat, bool>)
    requires i <= |running|
  {
    forall n :: n in running[..i] && n in finished ==>
      Kept(g, states, n, if finished[n] then ERROR else DONE, Done(running[..i], finished))
  }

  /** Some node of `ns` has finished by raising. */
  predicate AnyRaised(ns: seq<nat>, finished: map<nat, bool>)
  {
    exists n :: n in ns && n in finished && finished[n]
  }

  /** Polling one more running node adds it to the finished ones when its
      task has completed. */
  lemma DoneStep(running: seq<nat>, i: nat, finished: map<nat, bool>)
    requires i < |running|
    ensures running[i] in finished ==>
      Done(running[..i + 1], finished) == Done(running[..i], finished) + {running[i]}
    ensures running[i] !in finished ==> Done(running[..i + 1], finished) == Done(running[..i], finished)
    ensures AnyRaised(running[..i + 1], finished) <==>
      AnyRaised(running[..i], finished) || (running[i] in finished && finished[running[i]])
  {
    assert running[..i + 1] == running[..i] + [running[i]];
  }

  /** One finished task: its node is set ERROR when it raised and DONE
      otherwise, and leaves `running`. */
  method Finish(graph: NodeGraph, running: seq<nat>, n: nat, raised: bool, fs: FsView)
      returns (r: Outcome, running': seq<nat>, ghost culprit: nat)
    requires graph.Valid() && n < |graph.g|
    modifies graph
    ensures running' == Without(running, {n})
    ensures r.Pass? ==> graph.Valid() && graph.states[n] == (if raised then ERROR else DONE) && graph.view == fs
    ensures r.Pass? ==> forall k :: 0 <= k < |graph.g| && k != n && graph.states[k] != old(graph.states)[k] ==>
      n in Reach(graph.g, k)
    ensures r.Fail? ==> RaisedAt(graph.g, graph.states, fs, n, culprit, r.error)
  {
    ghost var changed;
    r, changed := graph.SetNodeState(n, if raised then ERROR else DONE, fs);
    running' := Without(running, {n});
    culprit := 0;
    if r.Fail? {
      culprit :| n < culprit < |graph.g| && culprit !in graph.states &&
        (forall c :: c in Children(graph.g[culprit]) ==> c in graph.states) &&
        Adjust(graph.g, fs, culprit, TableMax(graph.states, Children(graph.g[culprit]))) == Err(r.error);
    }
  }

  /** The nodes of `ns` that have finished. */
  function Done(ns: seq<nat>, finished: map<nat, bool>): set<nat>
  {
    set n | n in ns && n in finished
  }

  /** The nodes listed in `ns`. */
  function Members(ns: seq<nat>): (r: set<nat>)
    ensures forall n :: n in r <==> n in ns
  {
    set n | n in ns
  }

  lemma TrackedWithin(nodes: seq<nat>, i: nat, started: seq<nat>, settled: seq<nat>, seen: map<nat, State>,
                      startedNodes: seq<nat>)
    requires i <= |nodes| && Tracked(nodes[..i], started, settled, seen, startedNodes)
    ensures Tracked(nodes, started, settled, seen, startedNodes)
  {
    assert forall n :: n in nodes[..i] ==> n in nodes;
  }

  /** Scanning one more node whose state is `state`: it is started when
      RUNABLE, settled when DONE or ERROR, and otherwise left. */
  lemma TrackedNext(nodes: seq<nat>, n: nat, state: State, started: seq<nat>, settled: seq<nat>,
                    seen: map<nat, State>, startedNodes: seq<nat>)
    requires Tracked(nodes, started, settled, seen, startedNodes) && n !in nodes
    ensures Tracked(nodes + [n], started, settled, seen[n := state], startedNodes)
    ensures state == RUNABLE ==>
      Tracked(nodes + [n], started + [n], settled, seen[n := state], startedNodes + [n])
    ensures state == DONE || state == ERROR ==>
      Tracked(nodes + [n], started, settled + [n], seen[n := state], startedNodes + [n])
  {
  }

  /** What `_start_new_tasks` has decided after scanning some nodes: the
      nodes started, the nodes dropped as DONE or ERROR, the threads still
      idle, and whether the scan has stopped. */
  datatype ScanState = ScanState(started: seq<nat>, settled: seq<nat>, free: int, stopped: bool)

  /** The decisions of `_start_new_tasks` over `nodes`, in order, from
      `idle` idle threads, given the state `seen` it found each node in. */
  function ScanOf(g: Graph, nodes: seq<nat>, seen: map<nat, State>, idle: int): ScanState
    requires InGraph(g, nodes)
    decreases |nodes|
  {
    if nodes == [] then ScanState([], [], idle, false)
    else
      assert forall n :: n in nodes[..|nodes| - 1] ==> n in nodes;
      assert nodes[|nodes| - 1] in nodes;
      ScanNext(g, ScanOf(g, nodes[..|nodes| - 1], seen, idle), nodes[|nodes| - 1], seen)
  }

  /** One node of the scan: passed over once the scan has stopped; when
      it fits in the idle threads, started if RUNABLE and dropped if DONE
      or ERROR; when it does not fit, the scan stops if no thread is idle. */
  function ScanNext(g: Graph, p: ScanState, n: nat, seen: map<nat, State>): ScanState
    requires n < |g|
  {
    if p.stopped then p
    else if p.free >= g[n].threads then
      if n in seen && seen[n] == RUNABLE then p.(started := p.started + [n], free := p.free - g[n].threads)
      else if n in seen && (seen[n] == DONE || seen[n] == ERROR) then p.(settled := p.settled + [n])
      else p
    else if p.free == 0 then p.(stopped := true)
    else p
  }

  /** The scan starts only nodes found RUNABLE and drops only nodes found
      DONE or ERROR, all among those scanned; the idle threads are the
      initial ones less those of the started nodes; and the scan stops
      only with no thread idle, at a node that needs one. */
  lemma {:induction false} ScanOfSound(g: Graph, nodes: seq<nat>, seen: map<nat, State>, idle: int)
    requires InGraph(g, nodes)
    ensures var p := ScanOf(g, nodes, seen, idle);
      InGraph(g, p.started) &&
      (forall n :: n in p.started ==> n in nodes && n in seen && seen[n] == RUNABLE) &&
      (forall n :: n in p.settled ==> n in nodes && n in seen && (seen[n] == DONE || seen[n] == ERROR)) &&
      p.free == idle - ThreadSum(g, p.started) &&
      (p.stopped ==> p.free == 0 && exists n :: n in nodes && g[n].threads > 0)
    decreases |nodes|
  {
    if nodes != [] {
      var init := nodes[..|nodes| - 1];
      var n := nodes[|nodes| - 1];
      assert forall m :: m in init ==> m in nodes;
      ScanOfSound(g, init, seen, idle);
      var q := ScanOf(g, init, seen, idle);
      if !q.stopped && q.free >= g[n].threads && n in seen && seen[n] == RUNABLE {
        ThreadSumSnoc(g, q.started, n);
      }
    }
  }

  /** Nothing is left out without reason: a scanned node found RUNABLE
      that was not started came after the scan stopped, or needs more
      threads than are idle at the end. */
  lemma {:induction false} ScanOfStartsFitting(g: Graph, nodes: seq<nat>, seen: map<nat, State>, idle: int)
    requires InGraph(g, nodes)
    ensures var p := ScanOf(g, nodes, seen, idle);
      forall j :: 0 <= j < |nodes| && nodes[j] in seen && seen[nodes[j]] == RUNABLE && nodes[j] !in p.started ==>
        ScanOf(g, nodes[..j], seen, idle).stopped || g[nodes[j]].threads > p.free
    decreases |nodes|
  {
    if nodes != [] {
      var k := |nodes| - 1;
      var init := nodes[..k];
      ScanOfStartsFitting(g, init, seen, idle);
      forall j | 0 <= j < k ensures nodes[..j] == init[..j] && nodes[j] == init[j] {
      }
    }
  }

  /** Likewise a scanned node found DONE or ERROR that was not dropped
      came after the scan stopped, or needs more threads than are idle at
      the end. */
  lemma {:induction false} ScanOfDropsFitting(g: Graph, nodes: seq<nat>, seen: map<nat, State>, idle: int)
    requires InGraph(g, nodes)
    ensures var p := ScanOf(g, nodes, seen, idle);
      forall j :: 0 <= j < |nodes| && nodes[j] in seen && seen[nodes[j]] in {DONE, ERROR} && nodes[j] !in p.settled ==>
        ScanOf(g, nodes[..j], seen, idle).stopped || g[nodes[j]].threads > p.free
    decreases |nodes|
  {
    if nodes != [] {
      var k := |nodes| - 1;
      var init := nodes[..k];
      ScanOfDropsFitting(g, init, seen, idle);
      forall j | 0 <= j < k ensures nodes[..j] == init[..j] && nodes[j] == init[j] {
      }
    }
  }

  /** Recording the state of a node that is not among `nodes` changes
      nothing the scan decided about them. */
  lemma {:induction false} ScanOfFrame(g: Graph, nodes: seq<nat>, seen: map<nat, State>, n: nat, s: State, idle: int)
    requires InGraph(g, nodes) && n !in nodes
    ensures ScanOf(g, nodes, seen[n := s], idle) == ScanOf(g, nodes, seen, idle)
    decreases |nodes|
  {
    if nodes != [] {
      assert forall m :: m in nodes[..|nodes| - 1] ==> m in nodes;
      ScanOfFrame(g, nodes[..|nodes| - 1], seen, n, s, idle);
    }
  }

  lemma TakeNext(s: seq<nat>, i: nat)
    requires i < |s|
    ensures s[..i + 1] == s[..i] + [s[i]]
  {
  }

  /** One more node of `nodes` scanned, its state recorded in `seen`. */
  lemma ScanAdvance(g: Graph, nodes: seq<nat>, i: nat, seen: map<nat, State>, found: State, idle: int)
    requires InGraph(g, nodes) && i < |nodes| && nodes[i] !in nodes[..i]
    ensures ScanOf(g, nodes[..i + 1], seen[nodes[i] := found], idle) ==
            ScanNext(g, ScanOf(g, nodes[..i], seen, idle), nodes[i], seen[nodes[i] := found])
  {
    assert nodes[..i + 1][..i] == nodes[..i];
    ScanOfFrame(g, nodes[..i], seen, nodes[i], found, idle);
  }

  /** A scan that stops at `nodes[i]` has decided everything by then; the
      nodes it never looked at come after the stop. */
  lemma ScanStopsAt(g: Graph, nodes: seq<nat>, i: nat, seen: map<nat, State>, idle: int)
    requires InGraph(g, nodes) && i < |nodes| && ScanOf(g, nodes[..i + 1], seen, idle).stopped
    requires forall j :: 0 <= j <= i ==> nodes[j] in seen
    ensures ScanOf(g, nodes, seen, idle) == ScanOf(g, nodes[..i + 1], seen, idle)
    ensures forall j :: 0 <= j < |nodes| && nodes[j] !in seen ==> ScanOf(g, nodes[..j], seen, idle).stopped
  {
    ScanOfStoppedPrefix(g, nodes, i + 1, seen, idle);
    assert nodes[..|nodes|] == nodes;
  }

  /** Once the scan has stopped, the nodes after change nothing. */
  lemma {:induction false} ScanOfStoppedPrefix(g: Graph, nodes: seq<nat>, i: nat, seen: map<nat, State>, idle: int)
    requires InGraph(g, nodes) && i <= |nodes|
    requires ScanOf(g, nodes[..i], seen, idle).stopped
    ensures forall j :: i <= j <= |nodes| ==> ScanOf(g, nodes[..j], seen, idle) == ScanOf(g, nodes[..i], seen, idle)
  {
    var j := i;
    while j < |nodes|
      invariant i <= j <= |nodes|
      invariant forall k :: i <= k <= j ==> ScanOf(g, nodes[..k], seen, idle) == ScanOf(g, nodes[..i], seen, idle)
    {
      assert nodes[..j + 1][..j] == nodes[..j];
      j := j + 1;
    }
  }

  /** What `_start_new_tasks` has decided so far about the nodes it
      scanned: `startedNodes` is `started` and `settled` together. */
  ghost predicate Tracked(nodes: seq<nat>, started: seq<nat>, settled: seq<nat>, seen: map<nat, State>,
                          startedNodes: seq<nat>)
  {
    (forall n :: n in started ==> n in nodes && n in seen && seen[n] == RUNABLE) &&
    (forall n :: n in settled ==> n in nodes && n in seen && seen[n] in {DONE, ERROR}) &&
    (forall n :: n in startedNodes <==> n in started || n in settled)
  }
}
