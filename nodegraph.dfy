// The node graph of pypeline/nodegraph.py: the state every node is in,
// computed from its subnodes' and dependencies' states and its own
// `is_done`/`is_outdated`, kept in a table that `set_node_state` and
// `refresh_states` update; and the checks run when the graph is built
// (clobbered output files, inputs produced by nodes the consumer does not
// depend on, missing executables).
module NodeGraphs {
  import opened PyErrors
  import opened FileUtils
  import opened Nodes
  import opened PyText

  /** The six states, in increasing order. */
  datatype State = DONE | RUNNING | RUNABLE | QUEUED | OUTDATED | ERROR

  function Rank(s: State): nat
  {
    match s
    case DONE => 0
    case RUNNING => 1
    case RUNABLE => 2
    case QUEUED => 3
    case OUTDATED => 4
    case ERROR => 5
  }

  function Max(a: State, b: State): (r: State)
    ensures Rank(r) >= Rank(a) && Rank(r) >= Rank(b)
    ensures r == a || r == b
  {
    if Rank(a) >= Rank(b) then a else b
  }

  lemma RankInjective(a: State, b: State)
    ensures Rank(a) == Rank(b) ==> a == b
  {
  }

  /** `except OSError`: the node is put in ERROR; any other exception
      propagates. */
  function Catch(e: ErrorKind): (r: Result<State>)
    ensures e == OSError ==> r == Ok(ERROR)
    ensures e != OSError ==> r == Err(e)
  {
    if e == OSError then Ok(ERROR) else Err(e)
  }

  /** The adjustment `_update_node_state` makes to the maximum state `s` of
      a node's children. */
  function Adjust(g: Graph, fs: FsView, id: nat, s: State): (r: Result<State>)
    requires ValidGraph(g) && id < |g|
    ensures r.Ok? ==> Rank(r.value) >= Rank(s)
  {
    if g[id].kind.MetaNode? then
      Ok(if s == RUNNING || s == RUNABLE then QUEUED else s)
    else if s == DONE then
      (match IsDone(g, fs, id)
       case Err(e) => Catch(e)
       case Ok(false) => Ok(RUNABLE)
       case Ok(true) =>
         (match IsOutdated(g, fs, id)
          case Err(e) => Catch(e)
          case Ok(b) => Ok(if b then RUNABLE else DONE)))
    else if s == RUNNING || s == RUNABLE || s == QUEUED then
      (match IsDone(g, fs, id)
       case Err(e) => Catch(e)
       case Ok(b) => Ok(if b then OUTDATED else QUEUED))
    else Ok(s)
  }

  function MaxWith(s: State, r: Result<State>): Result<State>
  {
    if r.Err? then r else Ok(Max(s, r.value))
  }

  /** The state `_update_node_state` gives a node when the table holds
      exactly the `pinned` entries: a pinned state is returned as is;
      otherwise the maximum of the children's states, starting from DONE,
      adjusted by the node's own flags. */
  function StateOf(g: Graph, fs: FsView, pinned: map<nat, State>, id: nat): Result<State>
    requires ValidGraph(g) && id < |g|
    decreases id, 1
  {
    if id in pinned then Ok(pinned[id])
    else
      match ChildrenMax(g, fs, pinned, id, 0)
      case Err(e) => Err(e)
      case Ok(s) => Adjust(g, fs, id, s)
  }

  /** The maximum of the states of children `i..` (DONE when there are
      none), or the first exception. */
  function ChildrenMax(g: Graph, fs: FsView, pinned: map<nat, State>, id: nat, i: nat): Result<State>
    requires ValidGraph(g) && id < |g| && i <= |Children(g[id])|
    decreases id, 0, |Children(g[id])| - i
  {
    var cs := Children(g[id]);
    if i == |cs| then Ok(DONE)
    else
      match StateOf(g, fs, pinned, cs[i])
      case Err(e) => Err(e)
      case Ok(s) => MaxWith(s, ChildrenMax(g, fs, pinned, id, i + 1))
  }

  lemma {:induction false} ChildrenMaxMeaning(g: Graph, fs: FsView, pinned: map<nat, State>, id: nat, i: nat)
    requires ValidGraph(g) && id < |g| && i <= |Children(g[id])|
    ensures var cs := Children(g[id]); var m := ChildrenMax(g, fs, pinned, id, i);
      (m.Ok? <==> forall j :: i <= j < |cs| ==> StateOf(g, fs, pinned, cs[j]).Ok?) &&
      (m.Ok? ==> forall j :: i <= j < |cs| ==> Rank(StateOf(g, fs, pinned, cs[j]).value) <= Rank(m.value)) &&
      (m.Ok? ==> m.value == DONE || exists j :: i <= j < |cs| && StateOf(g, fs, pinned, cs[j]) == m)
  {
    ChildrenMaxOk(g, fs, pinned, id, i);
    if ChildrenMax(g, fs, pinned, id, i).Ok? {
      ChildrenMaxBound(g, fs, pinned, id, i);
    }
  }

  /** The children's maximum is computed exactly when every child's state
      is. */
  lemma {:induction false} ChildrenMaxOk(g: Graph, fs: FsView, pinned: map<nat, State>, id: nat, i: nat)
    requires ValidGraph(g) && id < |g| && i <= |Children(g[id])|
    ensures ChildrenMax(g, fs, pinned, id, i).Ok? <==>
      forall j :: i <= j < |Children(g[id])| ==> StateOf(g, fs, pinned, Children(g[id])[j]).Ok?
    decreases |Children(g[id])| - i
  {
    var cs := Children(g[id]);
    if i < |cs| {
      ChildrenMaxOk(g, fs, pinned, id, i + 1);
    }
  }

  /** A computed maximum is at least every child's state, and is DONE or
      the state of one of the children. */
  lemma {:induction false} ChildrenMaxBound(g: Graph, fs: FsView, pinned: map<nat, State>, id: nat, i: nat)
    requires ValidGraph(g) && id < |g| && i <= |Children(g[id])|
    requires ChildrenMax(g, fs, pinned, id, i).Ok?
    ensures var cs := Children(g[id]); var m := ChildrenMax(g, fs, pinned, id, i).value;
      (forall j :: i <= j < |cs| ==> StateOf(g, fs, pinned, cs[j]).Ok? && Rank(StateOf(g, fs, pinned, cs[j]).value) <= Rank(m)) &&
      (m == DONE || exists j :: i <= j < |cs| && StateOf(g, fs, pinned, cs[j]) == Ok(m))
    decreases |Children(g[id])| - i
  {
    var cs := Children(g[id]);
    if i < |cs| {
      var s := StateOf(g, fs, pinned, cs[i]).value;
      var rest := ChildrenMax(g, fs, pinned, id, i + 1).value;
      assert ChildrenMax(g, fs, pinned, id, i) == Ok(Max(s, rest));
      ChildrenMaxBound(g, fs, pinned, id, i + 1);
    }
  }

  /** A node's computed state is never lower than the state of any of its
      subnodes or dependencies. */
  lemma StateNotBelowChildren(g: Graph, fs: FsView, pinned: map<nat, State>, id: nat, j: nat)
    requires ValidGraph(g) && id < |g| && id !in pinned && j < |Children(g[id])|
    requires StateOf(g, fs, pinned, id).Ok?
    ensures StateOf(g, fs, pinned, Children(g[id])[j]).Ok?
    ensures Rank(StateOf(g, fs, pinned, Children(g[id])[j]).value) <= Rank(StateOf(g, fs, pinned, id).value)
  {
    ChildrenMaxMeaning(g, fs, pinned, id, 0);
  }

  /** The children's maximum is DONE exactly when every child is DONE. */
  lemma ChildrenAllDone(g: Graph, fs: FsView, pinned: map<nat, State>, id: nat)
    requires ValidGraph(g) && id < |g|
    ensures ChildrenMax(g, fs, pinned, id, 0) == Ok(DONE) <==>
      forall j :: 0 <= j < |Children(g[id])| ==> StateOf(g, fs, pinned, Children(g[id])[j]) == Ok(DONE)
  {
    ChildrenMaxMeaning(g, fs, pinned, id, 0);
    var cs := Children(g[id]);
    if ChildrenMax(g, fs, pinned, id, 0) == Ok(DONE) {
      forall j | 0 <= j < |cs| ensures StateOf(g, fs, pinned, cs[j]) == Ok(DONE) {
        RankInjective(StateOf(g, fs, pinned, cs[j]).value, DONE);
      }
    }
  }

  /** A node (not a MetaNode) whose children are all DONE is RUNABLE when
      it is not done or is outdated, DONE when it is done and up to date,
      and ERROR when asking raised an OSError. */
  lemma StateRuleIdle(g: Graph, fs: FsView, pinned: map<nat, State>, id: nat)
    requires ValidGraph(g) && id < |g| && id !in pinned && !g[id].kind.MetaNode?
    requires ChildrenMax(g, fs, pinned, id, 0) == Ok(DONE)
    ensures IsDone(g, fs, id) == Ok(false) ==> StateOf(g, fs, pinned, id) == Ok(RUNABLE)
    ensures IsDone(g, fs, id) == Ok(true) && IsOutdated(g, fs, id) == Ok(true) ==> StateOf(g, fs, pinned, id) == Ok(RUNABLE)
    ensures IsDone(g, fs, id) == Ok(true) && IsOutdated(g, fs, id) == Ok(false) ==> StateOf(g, fs, pinned, id) == Ok(DONE)
    ensures IsDone(g, fs, id) == Err(OSError) ==> StateOf(g, fs, pinned, id) == Ok(ERROR)
    ensures IsDone(g, fs, id) == Ok(true) && IsOutdated(g, fs, id) == Err(OSError) ==> StateOf(g, fs, pinned, id) == Ok(ERROR)
  {
  }

  /** A node (not a MetaNode) with a RUNNING, RUNABLE or QUEUED child is
      OUTDATED when it is done and QUEUED otherwise. */
  lemma StateRuleBusy(g: Graph, fs: FsView, pinned: map<nat, State>, id: nat, m: State)
    requires ValidGraph(g) && id < |g| && id !in pinned && !g[id].kind.MetaNode?
    requires ChildrenMax(g, fs, pinned, id, 0) == Ok(m) && m in {RUNNING, RUNABLE, QUEUED}
    ensures IsDone(g, fs, id) == Ok(true) ==> StateOf(g, fs, pinned, id) == Ok(OUTDATED)
    ensures IsDone(g, fs, id) == Ok(false) ==> StateOf(g, fs, pinned, id) == Ok(QUEUED)
  {
  }

  /** A MetaNode is never RUNNING or RUNABLE itself: it is QUEUED while a
      child is, and otherwise takes its children's maximum. */
  lemma StateRuleMeta(g: Graph, fs: FsView, pinned: map<nat, State>, id: nat, m: State)
    requires ValidGraph(g) && id < |g| && id !in pinned && g[id].kind.MetaNode?
    requires ChildrenMax(g, fs, pinned, id, 0) == Ok(m)
    ensures m in {RUNNING, RUNABLE} ==> StateOf(g, fs, pinned, id) == Ok(QUEUED)
    ensures m !in {RUNNING, RUNABLE} ==> StateOf(g, fs, pinned, id) == Ok(m)
  {
  }

  /** OUTDATED and ERROR children pass their state up unchanged. */
  lemma StateRuleStuck(g: Graph, fs: FsView, pinned: map<nat, State>, id: nat, m: State)
    requires ValidGraph(g) && id < |g| && id !in pinned
    requires ChildrenMax(g, fs, pinned, id, 0) == Ok(m) && m in {OUTDATED, ERROR}
    ensures StateOf(g, fs, pinned, id) == Ok(m)
  {
  }

  // ---------------------------------------------------------------------
  // The state table

  /** The maximum of the table's states for `cs`, from DONE. */
  function TableMax(states: map<nat, State>, cs: seq<nat>): State
    requires forall c :: c in cs ==> c in states
  {
    if cs == [] then DONE else Max(states[cs[0]], TableMax(states, cs[1..]))
  }

  /** An entry of the table is what `_update_node_state` put there: the
      pinned state, or the adjustment of the children's entries. */
  ghost predicate LocalOk(g: Graph, fs: FsView, states: map<nat, State>, pinned: map<nat, State>, k: nat)
    requires ValidGraph(g) && k < |g| && k in states
  {
    if k in pinned then states[k] == pinned[k]
    else
      (forall c :: c in Children(g[k]) ==> c in states) &&
      Adjust(g, fs, k, TableMax(states, Children(g[k]))) == Ok(states[k])
  }

  ghost predicate Shape(g: Graph, states: map<nat, State>, pinned: map<nat, State>)
  {
    ValidGraph(g) &&
    (forall k :: k in states ==> k < |g|) &&
    (forall k :: k in pinned ==> k in states && states[k] == pinned[k])
  }

  /** Every entry below `bound` is locally consistent. */
  ghost predicate BelowOk(g: Graph, fs: FsView, states: map<nat, State>, pinned: map<nat, State>, bound: nat)
  {
    Shape(g, states, pinned) &&
    forall k {:trigger LocalOk(g, fs, states, pinned, k)} :: k in states && k < bound ==> LocalOk(g, fs, states, pinned, k)
  }

  predicate Complete(g: Graph, states: map<nat, State>)
  {
    forall k :: 0 <= k < |g| ==> k in states
  }

  lemma {:induction false} TableMaxFrame(s1: map<nat, State>, s2: map<nat, State>, cs: seq<nat>)
    requires forall c :: c in cs ==> c in s1 && c in s2 && s1[c] == s2[c]
    ensures TableMax(s1, cs) == TableMax(s2, cs)
  {
    if cs != [] {
      TableMaxFrame(s1, s2, cs[1..]);
    }
  }

  /** A locally consistent entry stays so while its own value, its pin and
      its children's values stay. */
  lemma LocalOkFrame(g: Graph, fs: FsView, s1: map<nat, State>, p1: map<nat, State>,
                     s2: map<nat, State>, p2: map<nat, State>, k: nat)
    requires ValidGraph(g) && k < |g| && k in s1 && k in s2 && s1[k] == s2[k]
    requires (k in p1 <==> k in p2) && (k in p1 ==> p1[k] == p2[k])
    requires forall c :: c in Children(g[k]) && c in s1 ==> c in s2 && s2[c] == s1[c]
    requires LocalOk(g, fs, s1, p1, k)
    ensures LocalOk(g, fs, s2, p2, k)
  {
    if k !in p1 {
      TableMaxFrame(s1, s2, Children(g[k]));
    }
  }

  lemma {:induction false} TableMaxIsChildrenMax(g: Graph, fs: FsView, states: map<nat, State>, pinned: map<nat, State>, id: nat, i: nat)
    requires ValidGraph(g) && id < |g| && i <= |Children(g[id])|
    requires forall j :: i <= j < |Children(g[id])| ==>
      Children(g[id])[j] in states && StateOf(g, fs, pinned, Children(g[id])[j]) == Ok(states[Children(g[id])[j]])
    ensures ChildrenMax(g, fs, pinned, id, i) == Ok(TableMax(states, Children(g[id])[i..]))
    decreases |Children(g[id])| - i
  {
    var cs := Children(g[id]);
    if i < |cs| {
      TableMaxIsChildrenMax(g, fs, states, pinned, id, i + 1);
      assert cs[i..][1..] == cs[i + 1..];
    }
  }

  /** A locally consistent table holds exactly the states the rules give
      with its pins. */
  lemma {:induction false} TableIsStateOf(g: Graph, fs: FsView, states: map<nat, State>, pinned: map<nat, State>, bound: nat, k: nat)
    requires BelowOk(g, fs, states, pinned, bound) && k in states && k < bound
    ensures StateOf(g, fs, pinned, k) == Ok(states[k])
    decreases k
  {
    assert LocalOk(g, fs, states, pinned, k);
    if k !in pinned {
      var cs := Children(g[k]);
      forall j | 0 <= j < |cs|
        ensures cs[j] in states && StateOf(g, fs, pinned, cs[j]) == Ok(states[cs[j]])
      {
        assert cs[j] in cs;
        TableIsStateOf(g, fs, states, pinned, bound, cs[j]);
      }
      TableMaxIsChildrenMax(g, fs, states, pinned, k, 0);
      assert cs[0..] == cs;
    }
  }

  lemma TableMaxSnoc(states: map<nat, State>, cs: seq<nat>, i: nat)
    requires i < |cs| && forall c :: c in cs[..i + 1] ==> c in states
    ensures TableMax(states, cs[..i + 1]) == Max(TableMax(states, cs[..i]), states[cs[i]])
  {
    TableMaxAppend(states, cs[..i], [cs[i]]);
    assert cs[..i + 1] == cs[..i] + [cs[i]];
  }

  /** The maximum is at least every child's entry. */
  lemma {:induction false} TableMaxBound(states: map<nat, State>, cs: seq<nat>)
    requires forall c :: c in cs ==> c in states
    ensures forall c :: c in cs ==> Rank(states[c]) <= Rank(TableMax(states, cs))
  {
    if cs != [] {
      TableMaxBound(states, cs[1..]);
      assert forall c :: c in cs ==> c == cs[0] || c in cs[1..];
    }
  }

  lemma {:induction false} TableMaxAppend(states: map<nat, State>, a: seq<nat>, b: seq<nat>)
    requires forall c :: c in a + b ==> c in states
    ensures TableMax(states, a + b) == Max(TableMax(states, a), TableMax(states, b))
  {
    if a == [] {
      assert a + b == b;
    } else {
      assert (a + b)[1..] == a[1..] + b;
      TableMaxAppend(states, a[1..], b);
      MaxAssociative(states[a[0]], TableMax(states, a[1..]), TableMax(states, b));
    }
  }

  lemma MaxAssociative(a: State, b: State, c: State)
    ensures Max(a, Max(b, c)) == Max(Max(a, b), c)
  {
  }

  lemma MaxWithStep(a: State, b: State, rest: Result<State>)
    ensures MaxWith(a, MaxWith(b, rest)) == MaxWith(Max(a, b), rest)
  {
  }

  lemma BelowOkWeaken(g: Graph, fs: FsView, states: map<nat, State>, pinned: map<nat, State>, lo: nat, hi: nat)
    requires lo <= hi && BelowOk(g, fs, states, pinned, hi)
    ensures BelowOk(g, fs, states, pinned, lo)
  {
  }

  /** Entries added below `lo` keep the entries from `lo` to `hi`
      consistent. */
  lemma BelowOkExtend(g: Graph, fs: FsView, s1: map<nat, State>, s2: map<nat, State>, pinned: map<nat, State>, lo: nat, hi: nat)
    requires BelowOk(g, fs, s1, pinned, hi) && BelowOk(g, fs, s2, pinned, lo)
    requires forall k :: k in s1 ==> k in s2 && s2[k] == s1[k]
    requires forall k :: k in s2 && k !in s1 ==> k < lo
    ensures BelowOk(g, fs, s2, pinned, hi)
  {
    forall k | k in s2 && k < hi ensures LocalOk(g, fs, s2, pinned, k) {
      if k >= lo {
        LocalOkFrame(g, fs, s1, pinned, s2, pinned, k);
      }
    }
  }

  /** Storing the adjustment of a node's children's entries keeps the table
      consistent. */
  lemma BelowOkInsert(g: Graph, fs: FsView, states: map<nat, State>, pinned: map<nat, State>, id: nat, v: State)
    requires id < |g| && id !in states && BelowOk(g, fs, states, pinned, id + 1)
    requires forall c :: c in Children(g[id]) ==> c in states
    requires Adjust(g, fs, id, TableMax(states, Children(g[id]))) == Ok(v)
    ensures BelowOk(g, fs, states[id := v], pinned, id + 1)
  {
    var s2 := states[id := v];
    forall k | k in s2 && k < id + 1 ensures LocalOk(g, fs, s2, pinned, k) {
      if k != id {
        LocalOkFrame(g, fs, states, pinned, s2, pinned, k);
      } else {
        TableMaxFrame(states, s2, Children(g[id]));
      }
    }
  }

  /** `s2` keeps every entry of `s1` and adds entries below `bound` only. */
  ghost predicate Extends(s1: map<nat, State>, s2: map<nat, State>, bound: nat)
  {
    (forall k :: k in s1 ==> k in s2 && s2[k] == s1[k]) &&
    (forall k :: k in s2 && k !in s1 ==> k < bound)
  }

  lemma ExtendsTrans(s1: map<nat, State>, s2: map<nat, State>, s3: map<nat, State>, bound: nat)
    requires Extends(s1, s2, bound) && Extends(s2, s3, bound)
    ensures Extends(s1, s3, bound)
  {
  }

  /** One step of the children's maximum. */
  lemma ChildStep(g: Graph, fs: FsView, pinned: map<nat, State>, id: nat, i: nat, acc: State)
    requires ValidGraph(g) && id < |g| && i < |Children(g[id])|
    ensures var s := StateOf(g, fs, pinned, Children(g[id])[i]);
      MaxWith(acc, ChildrenMax(g, fs, pinned, id, i)) ==
      (if s.Err? then Err(s.error) else MaxWith(Max(acc, s.value), ChildrenMax(g, fs, pinned, id, i + 1)))
  {
  }

  /** A node `set_node_state` must recompute: `node` or a node whose state
      changed is among its children. */
  predicate Flagged(g: Graph, k: nat, node: nat, changed: set<nat>)
    requires k < |g|
  {
    exists c :: c in Children(g[k]) && (c == node || c in changed)
  }

  /** A node at or below `i` is not a parent of `i`: whether it is flagged
      does not depend on `i` having changed. */
  lemma FlaggedStable(g: Graph, k: nat, node: nat, changed: set<nat>, i: nat)
    requires ValidGraph(g) && k <= i < |g|
    ensures Flagged(g, k, node, changed + {i}) <==> Flagged(g, k, node, changed)
  {
    if Flagged(g, k, node, changed + {i}) {
      var c :| c in Children(g[k]) && (c == node || c in changed + {i});
      assert c < k;
    }
  }

  /** Entry `k` of the table agrees with the rules for the filesystem it
      was last computed against, `seen[k]`. */
  ghost predicate EntryOk(g: Graph, seen: map<nat, FsView>, states: map<nat, State>, pinned: map<nat, State>, k: nat)
    requires ValidGraph(g) && k < |g| && k in states
  {
    k in seen && LocalOk(g, seen[k], states, pinned, k)
  }

  /** Every entry below `bound` agrees with the filesystem it was last
      computed against. */
  ghost predicate SeenOk(g: Graph, seen: map<nat, FsView>, states: map<nat, State>, pinned: map<nat, State>, bound: nat)
  {
    Shape(g, states, pinned) && (forall k :: k in states ==> k in seen) &&
    forall k {:trigger EntryOk(g, seen, states, pinned, k)} :: k in states && k < bound ==> EntryOk(g, seen, states, pinned, k)
  }

  /** A table consistent with one filesystem, every entry of which was
      computed against it. */
  lemma UniformSeenOk(g: Graph, fs: FsView, seen: map<nat, FsView>, states: map<nat, State>, pinned: map<nat, State>, bound: nat)
    requires forall k :: k in states ==> k in seen && seen[k] == fs
    ensures SeenOk(g, seen, states, pinned, bound) <==> BelowOk(g, fs, states, pinned, bound)
  {
    if SeenOk(g, seen, states, pinned, bound) {
      forall k | k in states && k < bound ensures LocalOk(g, fs, states, pinned, k) {
        assert EntryOk(g, seen, states, pinned, k);
      }
    }
    if BelowOk(g, fs, states, pinned, bound) {
      forall k | k in states && k < bound ensures EntryOk(g, seen, states, pinned, k) {
        assert LocalOk(g, fs, states, pinned, k);
      }
    }
  }

  /** A table whose every entry is pinned is consistent. */
  lemma AllPinnedOk(g: Graph, fs: FsView, states: map<nat, State>)
    requires ValidGraph(g) && forall k :: k in states ==> k < |g|
    ensures BelowOk(g, fs, states, states, |g|)
  {
  }

  /** What holds before `set_node_state(node, state)` visits node `i`,
      from the table `s0` with pins `p0` and snapshots `w0`, `fs` being the
      filesystem as it is now. */
  ghost predicate SweepInv(g: Graph, fs: FsView, s0: map<nat, State>, p0: map<nat, State>, w0: map<nat, FsView>,
                           states: map<nat, State>, pinned: map<nat, State>, seen: map<nat, FsView>,
                           node: nat, state: State, changed: set<nat>, i: nat)
  {
    SweepBase(g, fs, s0, p0, states, pinned, seen, node, state, i) &&
    Untouched(g, s0, p0, w0, states, pinned, seen, node, i) &&
    Tracked(g, fs, s0, w0, states, pinned, seen, node, changed, i) &&
    SeenOk(g, seen, states, pinned, i) &&
    Pending(g, seen, states, pinned, node, changed, i)
  }

  /** The node set and its pin; the other pins are the old ones. */
  ghost predicate SweepBase(g: Graph, fs: FsView, s0: map<nat, State>, p0: map<nat, State>,
                            states: map<nat, State>, pinned: map<nat, State>, seen: map<nat, FsView>,
                            node: nat, state: State, i: nat)
  {
    node < i <= |g| && Complete(g, s0) && Complete(g, states) &&
    node in pinned && pinned[node] == state && states[node] == state && node in seen && seen[node] == fs &&
    (forall k :: k in pinned && k != node ==> k in p0 && pinned[k] == p0[k])
  }

  /** The nodes below `node` and from `i` on are as they were. */
  ghost predicate Untouched(g: Graph, s0: map<nat, State>, p0: map<nat, State>, w0: map<nat, FsView>,
                            states: map<nat, State>, pinned: map<nat, State>, seen: map<nat, FsView>, node: nat, i: nat)
  {
    (forall k :: (0 <= k < node || i <= k < |g|) && k in s0 ==>
       k in states && states[k] == s0[k] && k in w0 && k in seen && seen[k] == w0[k]) &&
    (forall k :: i <= k < |g| ==> (k in pinned <==> k in p0))
  }

  /** Between `node` and `i`, `changed` holds the nodes whose state
      changed; the flagged ones were computed against `fs` and lost their
      pin, the others are as they were. */
  ghost predicate Tracked(g: Graph, fs: FsView, s0: map<nat, State>, w0: map<nat, FsView>,
                          states: map<nat, State>, pinned: map<nat, State>, seen: map<nat, FsView>,
                          node: nat, changed: set<nat>, i: nat)
  {
    (forall k :: k in changed ==> node < k < i) &&
    TrackedChanged(g, s0, states, node, changed, i) &&
    TrackedUnflagged(g, s0, w0, states, seen, node, changed, i) &&
    TrackedFlagged(g, fs, pinned, seen, node, changed, i)
  }

  /** Exactly the nodes in `changed` differ from their state before the sweep. */
  ghost predicate TrackedChanged(g: Graph, s0: map<nat, State>, states: map<nat, State>,
                                 node: nat, changed: set<nat>, i: nat)
  {
    forall k :: node < k < i && k < |g| && k in s0 && k in states ==> (k in changed <==> states[k] != s0[k])
  }

  /** A visited node none of whose children changed kept its entry. */
  ghost predicate TrackedUnflagged(g: Graph, s0: map<nat, State>, w0: map<nat, FsView>,
                                   states: map<nat, State>, seen: map<nat, FsView>,
                                   node: nat, changed: set<nat>, i: nat)
  {
    forall k :: node < k < i && k < |g| && !Flagged(g, k, node, changed) ==>
      k in s0 && k in states && states[k] == s0[k] && k in w0 && k in seen && seen[k] == w0[k]
  }

  /** A visited node with a changed child was recomputed against `fs`. */
  ghost predicate TrackedFlagged(g: Graph, fs: FsView, pinned: map<nat, State>, seen: map<nat, FsView>,
                                 node: nat, changed: set<nat>, i: nat)
  {
    forall k :: node < k < i && k < |g| && Flagged(g, k, node, changed) ==> k !in pinned && k in seen && seen[k] == fs
  }

  /** Adding `i` to `changed` flags no node at or below `i`. */
  lemma FlaggedStableBelow(g: Graph, node: nat, changed: set<nat>, changed': set<nat>, i: nat)
    requires ValidGraph(g) && i < |g| && (changed' == changed || changed' == changed + {i})
    ensures forall k :: node < k <= i ==> (Flagged(g, k, node, changed') <==> Flagged(g, k, node, changed))
  {
    forall k | node < k <= i
      ensures Flagged(g, k, node, changed') <==> Flagged(g, k, node, changed)
    {
      FlaggedStable(g, k, node, changed, i);
    }
  }

  /** The nodes from `i` on that are not flagged are consistent. */
  ghost predicate Pending(g: Graph, seen: map<nat, FsView>, states: map<nat, State>, pinned: map<nat, State>,
                          node: nat, changed: set<nat>, i: nat)
    requires ValidGraph(g) && Complete(g, states)
  {
    forall k :: i <= k < |g| && !Flagged(g, k, node, changed) ==> EntryOk(g, seen, states, pinned, k)
  }

  /** One more consistent entry extends the consistent prefix. */
  lemma SeenOkGrow(g: Graph, seen: map<nat, FsView>, states: map<nat, State>, pinned: map<nat, State>, i: nat)
    requires SeenOk(g, seen, states, pinned, i)
    requires i in states ==> EntryOk(g, seen, states, pinned, i)
    ensures SeenOk(g, seen, states, pinned, i + 1)
  {
  }

  /** Setting the node's entry and pin starts the sweep above it. */
  lemma SweepStart(g: Graph, fs: FsView, s0: map<nat, State>, p0: map<nat, State>, w0: map<nat, FsView>,
                   node: nat, state: State)
    requires node < |g| && Complete(g, s0) && SeenOk(g, w0, s0, p0, |g|)
    ensures SweepInv(g, fs, s0, p0, w0, s0[node := state], p0[node := state], w0[node := fs], node, state, {}, node + 1)
  {
    var s1, p1, w1 := s0[node := state], p0[node := state], w0[node := fs];
    forall k | k in s1 && k != node && !(k > node && Flagged(g, k, node, {}))
      ensures EntryOk(g, w1, s1, p1, k)
    {
      assert EntryOk(g, w0, s0, p0, k);
      LocalOkFrame(g, w0[k], s0, p0, s1, p1, k);
    }
    assert EntryOk(g, w1, s1, p1, node);
    assert SeenOk(g, w1, s1, p1, node + 1);
    assert Pending(g, w1, s1, p1, node, {}, node + 1);
  }

  /** A node that is not flagged keeps its entry. */
  lemma SweepSkip(g: Graph, fs: FsView, s0: map<nat, State>, p0: map<nat, State>, w0: map<nat, FsView>,
                  states: map<nat, State>, pinned: map<nat, State>, seen: map<nat, FsView>,
                  node: nat, state: State, changed: set<nat>, i: nat)
    requires SweepInv(g, fs, s0, p0, w0, states, pinned, seen, node, state, changed, i)
    requires i < |g| && !Flagged(g, i, node, changed)
    ensures SweepInv(g, fs, s0, p0, w0, states, pinned, seen, node, state, changed, i + 1)
  {
    assert EntryOk(g, seen, states, pinned, i);
    SeenOkGrow(g, seen, states, pinned, i);
    SkipTracked(g, fs, s0, w0, states, pinned, seen, node, changed, i);
  }

  lemma SkipTracked(g: Graph, fs: FsView, s0: map<nat, State>, w0: map<nat, FsView>,
                    states: map<nat, State>, pinned: map<nat, State>, seen: map<nat, FsView>,
                    node: nat, changed: set<nat>, i: nat)
    requires ValidGraph(g) && node < i < |g| && !Flagged(g, i, node, changed)
    requires Tracked(g, fs, s0, w0, states, pinned, seen, node, changed, i)
    requires i in s0 && i in states && states[i] == s0[i] && i in w0 && i in seen && seen[i] == w0[i]
    ensures Tracked(g, fs, s0, w0, states, pinned, seen, node, changed, i + 1)
  {
    SkipChanged(g, s0, states, node, changed, i);
    SkipUnflagged(g, s0, w0, states, seen, node, changed, i);
    SkipFlagged(g, fs, pinned, seen, node, changed, i);
  }

  lemma SkipChanged(g: Graph, s0: map<nat, State>, states: map<nat, State>, node: nat, changed: set<nat>, i: nat)
    requires forall k :: k in changed ==> node < k < i
    requires TrackedChanged(g, s0, states, node, changed, i)
    requires i in s0 && i in states && states[i] == s0[i]
    ensures TrackedChanged(g, s0, states, node, changed, i + 1)
  {
  }

  lemma SkipUnflagged(g: Graph, s0: map<nat, State>, w0: map<nat, FsView>,
                      states: map<nat, State>, seen: map<nat, FsView>, node: nat, changed: set<nat>, i: nat)
    requires TrackedUnflagged(g, s0, w0, states, seen, node, changed, i)
    requires i in s0 && i in states && states[i] == s0[i] && i in w0 && i in seen && seen[i] == w0[i]
    ensures TrackedUnflagged(g, s0, w0, states, seen, node, changed, i + 1)
  {
  }

  lemma SkipFlagged(g: Graph, fs: FsView, pinned: map<nat, State>, seen: map<nat, FsView>,
                    node: nat, changed: set<nat>, i: nat)
    requires i < |g| && !Flagged(g, i, node, changed)
    requires TrackedFlagged(g, fs, pinned, seen, node, changed, i)
    ensures TrackedFlagged(g, fs, pinned, seen, node, changed, i + 1)
  {
  }

  /** Storing `v`, the adjustment against `fs` of the children's entries,
      as entry `i` (its pin dropped) moves the sweep past `i`. */
  lemma SweepRecomputed(g: Graph, fs: FsView, s0: map<nat, State>, p0: map<nat, State>, w0: map<nat, FsView>,
                        before: map<nat, State>, pbefore: map<nat, State>, wbefore: map<nat, FsView>,
                        node: nat, state: State, changed: set<nat>, i: nat, v: State)
    requires SweepInv(g, fs, s0, p0, w0, before, pbefore, wbefore, node, state, changed, i)
    requires i < |g| && Flagged(g, i, node, changed)
    requires Adjust(g, fs, i, TableMax(before, Children(g[i]))) == Ok(v)
    ensures SweepInv(g, fs, s0, p0, w0, before[i := v], pbefore - {i}, wbefore[i := fs], node, state,
                     if v != before[i] then changed + {i} else changed, i + 1)
  {
    var states, pinned, seen := before[i := v], pbefore - {i}, wbefore[i := fs];
    var changed' := if v != before[i] then changed + {i} else changed;
    RecomputedFrame(g, fs, s0, p0, w0, before, pbefore, wbefore, node, state, i, v);
    RecomputedSeenOk(g, fs, before, pbefore, wbefore, i, v);
    RecomputedTracked(g, fs, s0, w0, before, pbefore, wbefore, node, changed, i, v);
    RecomputedPending(g, before, pbefore, wbefore, node, changed, i, v, fs);
  }

  lemma RecomputedFrame(g: Graph, fs: FsView, s0: map<nat, State>, p0: map<nat, State>, w0: map<nat, FsView>,
                        before: map<nat, State>, pbefore: map<nat, State>, wbefore: map<nat, FsView>,
                        node: nat, state: State, i: nat, v: State)
    requires SweepBase(g, fs, s0, p0, before, pbefore, wbefore, node, state, i) && i < |g|
    requires Untouched(g, s0, p0, w0, before, pbefore, wbefore, node, i)
    ensures SweepBase(g, fs, s0, p0, before[i := v], pbefore - {i}, wbefore[i := fs], node, state, i + 1)
    ensures Untouched(g, s0, p0, w0, before[i := v], pbefore - {i}, wbefore[i := fs], node, i + 1)
  {
  }

  lemma RecomputedSeenOk(g: Graph, fs: FsView, before: map<nat, State>, pbefore: map<nat, State>, wbefore: map<nat, FsView>,
                         i: nat, v: State)
    requires SeenOk(g, wbefore, before, pbefore, i) && i < |g| && Complete(g, before)
    requires Adjust(g, fs, i, TableMax(before, Children(g[i]))) == Ok(v)
    ensures SeenOk(g, wbefore[i := fs], before[i := v], pbefore - {i}, i + 1)
  {
    var states, pinned, seen := before[i := v], pbefore - {i}, wbefore[i := fs];
    forall k | k in states && k < i + 1 ensures EntryOk(g, seen, states, pinned, k) {
      if k < i {
        assert EntryOk(g, wbefore, before, pbefore, k);
        LocalOkFrame(g, wbefore[k], before, pbefore, states, pinned, k);
      } else {
        TableMaxFrame(before, states, Children(g[i]));
      }
    }
  }

  lemma RecomputedTracked(g: Graph, fs: FsView, s0: map<nat, State>, w0: map<nat, FsView>,
                          before: map<nat, State>, pbefore: map<nat, State>, wbefore: map<nat, FsView>,
                          node: nat, changed: set<nat>, i: nat, v: State)
    requires ValidGraph(g) && node < i < |g| && i in s0 && i in before && before[i] == s0[i]
    requires Tracked(g, fs, s0, w0, before, pbefore, wbefore, node, changed, i)
    requires Flagged(g, i, node, changed)
    ensures Tracked(g, fs, s0, w0, before[i := v], pbefore - {i}, wbefore[i := fs], node,
                    if v != before[i] then changed + {i} else changed, i + 1)
  {
    var changed' := if v != before[i] then changed + {i} else changed;
    FlaggedStableBelow(g, node, changed, changed', i);
    RecomputedChanged(g, s0, before, node, changed, i, v);
    RecomputedUnflagged(g, s0, w0, before, wbefore, node, changed, changed', i, v, fs);
    RecomputedFlagged(g, fs, pbefore, wbefore, node, changed, changed', i);
  }

  lemma RecomputedChanged(g: Graph, s0: map<nat, State>, before: map<nat, State>,
                          node: nat, changed: set<nat>, i: nat, v: State)
    requires node < i < |g| && i in s0 && i in before && before[i] == s0[i]
    requires forall k :: k in changed ==> node < k < i
    requires TrackedChanged(g, s0, before, node, changed, i)
    ensures TrackedChanged(g, s0, before[i := v], node, if v != before[i] then changed + {i} else changed, i + 1)
  {
  }

  lemma RecomputedUnflagged(g: Graph, s0: map<nat, State>, w0: map<nat, FsView>,
                            before: map<nat, State>, wbefore: map<nat, FsView>,
                            node: nat, changed: set<nat>, changed': set<nat>, i: nat, v: State, fs: FsView)
    requires ValidGraph(g) && node < i < |g| && Flagged(g, i, node, changed)
    requires forall k :: node < k <= i ==> (Flagged(g, k, node, changed') <==> Flagged(g, k, node, changed))
    requires TrackedUnflagged(g, s0, w0, before, wbefore, node, changed, i)
    ensures TrackedUnflagged(g, s0, w0, before[i := v], wbefore[i := fs], node, changed', i + 1)
  {
    forall k | node < k < i + 1 && k < |g| && !Flagged(g, k, node, changed')
      ensures k in s0 && k in before[i := v] && before[i := v][k] == s0[k]
      ensures k in w0 && k in wbefore[i := fs] && wbefore[i := fs][k] == w0[k]
    {
      assert k != i;
    }
  }

  lemma RecomputedFlagged(g: Graph, fs: FsView, pbefore: map<nat, State>, wbefore: map<nat, FsView>,
                          node: nat, changed: set<nat>, changed': set<nat>, i: nat)
    requires ValidGraph(g) && node < i < |g|
    requires forall k :: node < k <= i ==> (Flagged(g, k, node, changed') <==> Flagged(g, k, node, changed))
    requires TrackedFlagged(g, fs, pbefore, wbefore, node, changed, i)
    ensures TrackedFlagged(g, fs, pbefore - {i}, wbefore[i := fs], node, changed', i + 1)
  {
  }

  lemma RecomputedPending(g: Graph, before: map<nat, State>, pbefore: map<nat, State>, wbefore: map<nat, FsView>,
                          node: nat, changed: set<nat>, i: nat, v: State, fs: FsView)
    requires ValidGraph(g) && i < |g| && Complete(g, before) && (forall k :: k in before ==> k < |g|)
    requires Pending(g, wbefore, before, pbefore, node, changed, i)
    ensures Pending(g, wbefore[i := fs], before[i := v], pbefore - {i}, node,
                    if v != before[i] then changed + {i} else changed, i + 1)
  {
    var states, pinned, seen := before[i := v], pbefore - {i}, wbefore[i := fs];
    var changed' := if v != before[i] then changed + {i} else changed;
    forall k | i + 1 <= k < |g| && !Flagged(g, k, node, changed') ensures EntryOk(g, seen, states, pinned, k) {
      assert !Flagged(g, k, node, changed) && EntryOk(g, wbefore, before, pbefore, k);
      forall c | c in Children(g[k]) && c in before ensures c in states && states[c] == before[c] {
        if c == i {
          assert c !in changed';
        }
      }
      LocalOkFrame(g, wbefore[k], before, pbefore, states, pinned, k);
    }
  }

  /** Past the last node: every entry is consistent with the filesystem
      it was last computed against, the nodes below `node` and those not
      flagged are as they were, `changed` holds exactly the nodes above
      `node` whose state changed, and the flagged ones were computed
      against `fs`. */
  lemma SweepFinish(g: Graph, fs: FsView, s0: map<nat, State>, p0: map<nat, State>, w0: map<nat, FsView>,
                    states: map<nat, State>, pinned: map<nat, State>, seen: map<nat, FsView>,
                    node: nat, state: State, changed: set<nat>)
    requires SweepInv(g, fs, s0, p0, w0, states, pinned, seen, node, state, changed, |g|)
    requires state in {RUNNING, ERROR, DONE}
    ensures Complete(g, states) && SeenOk(g, seen, states, pinned, |g|)
    ensures states[node] == state && node in pinned && pinned[node] == state && node in seen && seen[node] == fs
    ensures forall k :: k in pinned && k != node ==> k in p0 && pinned[k] == p0[k]
    ensures forall k :: 0 <= k < node ==> states[k] == s0[k] && k in seen && k in w0 && seen[k] == w0[k]
    ensures forall k :: k in changed ==> node < k < |g|
    ensures forall k :: node < k < |g| ==> (k in changed <==> states[k] != s0[k])
    ensures forall k :: node < k < |g| && !Flagged(g, k, node, changed) ==>
      states[k] == s0[k] && k in seen && k in w0 && seen[k] == w0[k]
    ensures forall k :: node < k < |g| && Flagged(g, k, node, changed) ==>
      k !in pinned && k in seen && seen[k] == fs && Adjust(g, fs, k, TableMax(states, Children(g[k]))) == Ok(states[k])
    ensures forall k :: 0 <= k < |g| && k != node && states[k] != s0[k] ==> node in Reach(g, k)
    ensures state != DONE ==> forall k :: 0 <= k < |g| && k != node && states[k] != s0[k] ==> Rank(states[k]) >= Rank(QUEUED)
  {
    forall k | node < k < |g| && Flagged(g, k, node, changed)
      ensures k !in pinned && k in seen && seen[k] == fs && Adjust(g, fs, k, TableMax(states, Children(g[k]))) == Ok(states[k])
    {
      assert EntryOk(g, seen, states, pinned, k);
    }
    SweepReach(g, s0, states, node, changed);
    if state != DONE {
      SweepBusy(g, fs, s0, states, node, changed);
    }
  }

  /** When every entry had been computed against the filesystem as it is
      now, so has every entry after the sweep, and the table holds exactly
      the states the rules give. */
  lemma SweepUniform(g: Graph, fs: FsView, s0: map<nat, State>, p0: map<nat, State>, w0: map<nat, FsView>,
                     states: map<nat, State>, pinned: map<nat, State>, seen: map<nat, FsView>,
                     node: nat, state: State, changed: set<nat>)
    requires SweepInv(g, fs, s0, p0, w0, states, pinned, seen, node, state, changed, |g|)
    requires forall k :: k in w0 ==> w0[k] == fs
    requires forall k :: k in seen ==> k < |g|
    ensures forall k :: k in seen ==> seen[k] == fs
    ensures forall k :: 0 <= k < |g| ==> StateOf(g, fs, pinned, k) == Ok(states[k])
  {
    forall k | k in seen ensures seen[k] == fs {
      if node < k && Flagged(g, k, node, changed) {
      } else if k != node {
      }
    }
    UniformSeenOk(g, fs, seen, states, pinned, |g|);
    forall k | 0 <= k < |g| ensures StateOf(g, fs, pinned, k) == Ok(states[k]) {
      TableIsStateOf(g, fs, states, pinned, |g|, k);
    }
  }

  /** Popping an entry and storing a new one sets that entry. */
  lemma PopThenSet(m: map<nat, State>, i: nat, v: State)
    ensures (m - {i})[i := v] == m[i := v]
  {
  }

  /** A node whose state a sweep from `node` changed was flagged, so one
      of its children is `node` or changed: by induction it depends on
      `node`. */
  lemma {:induction false} ChangedReach(g: Graph, node: nat, changed: set<nat>, k: nat)
    requires ValidGraph(g) && k < |g| && k in changed
    requires forall j :: j in changed ==> node < j < |g| && Flagged(g, j, node, changed)
    ensures node in Reach(g, k)
    decreases k
  {
    var c :| c in Children(g[k]) && (c == node || c in changed);
    ReachMeaning(g, k);
    if c != node {
      assert c < k;
      ChangedReach(g, node, changed, c);
    }
  }

  /** After a sweep, only nodes that depend on `node` have a new state. */
  lemma SweepReach(g: Graph, s0: map<nat, State>, states: map<nat, State>, node: nat, changed: set<nat>)
    requires ValidGraph(g) && node < |g| && Complete(g, s0) && Complete(g, states)
    requires forall k :: k in changed ==> node < k < |g|
    requires forall k :: 0 <= k < node ==> states[k] == s0[k]
    requires forall k :: node < k < |g| ==> (k in changed <==> states[k] != s0[k])
    requires forall k :: node < k < |g| && !Flagged(g, k, node, changed) ==> states[k] == s0[k]
    ensures forall k :: 0 <= k < |g| && k != node && states[k] != s0[k] ==> node in Reach(g, k)
  {
    forall j | j in changed ensures node < j < |g| && Flagged(g, j, node, changed) {
      assert states[j] != s0[j];
    }
    forall k | 0 <= k < |g| && k != node && states[k] != s0[k] ensures node in Reach(g, k) {
      ChangedReach(g, node, changed, k);
    }
  }

  /** A node whose children's maximum is RUNNING or above is adjusted to
      QUEUED, OUTDATED or ERROR: never DONE, RUNNING or RUNABLE. */
  lemma AdjustAboveBusy(g: Graph, fs: FsView, id: nat, s: State)
    requires ValidGraph(g) && id < |g| && Rank(s) >= Rank(RUNNING)
    ensures Adjust(g, fs, id, s).Ok? ==> Rank(Adjust(g, fs, id, s).value) >= Rank(QUEUED)
  {
  }

  /** A node adjusted to RUNABLE or DONE had only DONE children. */
  lemma AdjustIdleFromDone(g: Graph, fs: FsView, id: nat, s: State)
    requires ValidGraph(g) && id < |g|
    requires Adjust(g, fs, id, s) == Ok(RUNABLE) || Adjust(g, fs, id, s) == Ok(DONE)
    ensures s == DONE
  {
    if s != DONE {
      AdjustAboveBusy(g, fs, id, s);
    }
  }

  /** Setting a node to a state other than DONE makes every node the
      sweep changes above it QUEUED, OUTDATED or ERROR: recomputing a node
      with a child at RUNNING or above never gives DONE, RUNNING or
      RUNABLE. */
  lemma {:induction false} SweepAboveBusy(g: Graph, s0: map<nat, State>, states: map<nat, State>, node: nat, k: nat)
    requires Lifted(g, s0, states, node) && node < k < |g|
    requires Rank(states[node]) >= Rank(RUNNING)
    requires states[k] != s0[k]
    ensures Rank(states[k]) >= Rank(QUEUED)
    decreases k
  {
    var c :| c in Children(g[k]) && (c == node || (node < c && states[c] != s0[c]));
    assert c < k;
    if c != node {
      SweepAboveBusy(g, s0, states, node, c);
    }
  }

  /** Every node above `node` that differs from `s0` has `node` or
      another such node among its children, and is QUEUED, OUTDATED or
      ERROR when any of its children is RUNNING or worse. */
  ghost predicate Lifted(g: Graph, s0: map<nat, State>, states: map<nat, State>, node: nat)
  {
    ValidGraph(g) && node < |g| && Complete(g, s0) && Complete(g, states) &&
    forall j :: node < j < |g| && states[j] != s0[j] ==>
      (exists c :: c in Children(g[j]) && (c == node || (node < c && states[c] != s0[c]))) &&
      forall c :: c in Children(g[j]) && Rank(states[c]) >= Rank(RUNNING) ==> Rank(states[j]) >= Rank(QUEUED)
  }

  /** A node recomputed by the rules above a child that is RUNNING or
      worse is QUEUED, OUTDATED or ERROR. */
  lemma BusyChild(g: Graph, fs: FsView, states: map<nat, State>, k: nat, c: nat)
    requires ValidGraph(g) && k < |g| && Complete(g, states) && c in Children(g[k])
    requires c in states && Rank(states[c]) >= Rank(RUNNING)
    requires Adjust(g, fs, k, TableMax(states, Children(g[k]))) == Ok(states[k])
    ensures Rank(states[k]) >= Rank(QUEUED)
  {
    var cs := Children(g[k]);
    assert forall x :: x in cs ==> x in states by {
      assert forall x :: x in cs ==> x < k;
    }
    var m := TableMax(states, cs);
    TableMaxBound(states, cs);
    assert Rank(m) >= Rank(RUNNING);
    AdjustAboveBusy(g, fs, k, m);
  }

  /** Every node the sweep changes above a node set RUNNING or ERROR is
      QUEUED, OUTDATED or ERROR. */
  lemma SweepBusy(g: Graph, fs: FsView, s0: map<nat, State>, states: map<nat, State>, node: nat, changed: set<nat>)
    requires ValidGraph(g) && node < |g| && Complete(g, s0) && Complete(g, states)
    requires Rank(states[node]) >= Rank(RUNNING)
    requires forall j :: j in changed ==> node < j < |g|
    requires forall j :: node < j < |g| ==> (j in changed <==> states[j] != s0[j])
    requires forall j :: node < j < |g| && !Flagged(g, j, node, changed) ==> states[j] == s0[j]
    requires forall j :: node < j < |g| && Flagged(g, j, node, changed) ==>
      Adjust(g, fs, j, TableMax(states, Children(g[j]))) == Ok(states[j])
    ensures forall k :: node < k < |g| && states[k] != s0[k] ==> Rank(states[k]) >= Rank(QUEUED)
  {
    forall j | node < j < |g| && states[j] != s0[j]
      ensures (exists c :: c in Children(g[j]) && (c == node || (node < c && states[c] != s0[c]))) &&
              forall c :: c in Children(g[j]) && Rank(states[c]) >= Rank(RUNNING) ==> Rank(states[j]) >= Rank(QUEUED)
    {
      assert Flagged(g, j, node, changed);
      forall c | c in Children(g[j]) && Rank(states[c]) >= Rank(RUNNING) ensures Rank(states[j]) >= Rank(QUEUED) {
        BusyChild(g, fs, states, j, c);
      }
    }
    forall k | node < k < |g| && states[k] != s0[k] ensures Rank(states[k]) >= Rank(QUEUED) {
      SweepAboveBusy(g, s0, states, node, k);
    }
  }

  /** No RUNABLE or DONE entry has a child that is not DONE. An entry
      computed by the rules always satisfies this; only a DONE pin can
      break it. */
  ghost predicate Ordered(g: Graph, states: map<nat, State>)
  {
    ValidGraph(g) && Complete(g, states) &&
    forall k, c :: 0 <= k < |g| && c in Children(g[k]) && states[k] in {RUNABLE, DONE} ==> c in states && states[c] == DONE
  }

  /** In an ordered table, everything below a RUNABLE or DONE node is
      DONE. */
  lemma {:induction false} OrderedReach(g: Graph, states: map<nat, State>, k: nat)
    requires Ordered(g, states) && k < |g| && states[k] in {RUNABLE, DONE}
    ensures forall x :: x in Reach(g, k) ==> x in states && states[x] == DONE
    decreases k
  {
    ReachMeaning(g, k);
    forall c | c in Children(g[k]) ensures forall x :: x in Reach(g, c) ==> x in states && states[x] == DONE {
      assert c < k && states[c] == DONE;
      OrderedReach(g, states, c);
    }
  }

  /** A complete table every entry of which agrees with the rules against
      `fs`, as `refresh_states` leaves it: it is what the rules give for
      every node, and ordered. */
  lemma RefreshedTable(g: Graph, fs: FsView, seen: map<nat, FsView>, states: map<nat, State>, pinned: map<nat, State>)
    requires BelowOk(g, fs, states, pinned, |g|) && Complete(g, states)
    requires seen == map k | k in states :: fs
    requires forall k :: k in pinned ==> pinned[k] in {RUNNING, ERROR}
    ensures SeenOk(g, seen, states, pinned, |g|)
    ensures Ordered(g, states)
    ensures forall k :: 0 <= k < |g| ==> StateOf(g, fs, pinned, k) == Ok(states[k])
  {
    UniformSeenOk(g, fs, seen, states, pinned, |g|);
    OrderedWithoutDonePins(g, seen, states, pinned);
    forall k | 0 <= k < |g| ensures StateOf(g, fs, pinned, k) == Ok(states[k]) {
      TableIsStateOf(g, fs, states, pinned, |g|, k);
    }
  }

  /** A table that agrees with the rules and pins only RUNNING and ERROR
      entries, as `refresh_states` leaves it, is ordered. */
  lemma OrderedWithoutDonePins(g: Graph, seen: map<nat, FsView>, states: map<nat, State>, pinned: map<nat, State>)
    requires Complete(g, states) && SeenOk(g, seen, states, pinned, |g|)
    requires forall k :: k in pinned ==> pinned[k] in {RUNNING, ERROR}
    ensures Ordered(g, states)
  {
    forall k, c | 0 <= k < |g| && c in Children(g[k]) && states[k] in {RUNABLE, DONE}
      ensures c in states && states[c] == DONE
    {
      assert EntryOk(g, seen, states, pinned, k);
      var cs := Children(g[k]);
      assert k !in pinned;
      AdjustIdleFromDone(g, seen[k], k, TableMax(states, cs));
      TableMaxBound(states, cs);
      RankInjective(states[c], DONE);
    }
  }

  /** The loop of `_update_node_state` over a node's subnodes and
      dependencies when each of them has an entry in the table: the
      maximum of their entries, from DONE. */
  method MaxOfEntries(states: map<nat, State>, cs: seq<nat>) returns (m: State)
    requires forall c :: c in cs ==> c in states
    ensures m == TableMax(states, cs)
    ensures forall c :: c in cs ==> Rank(states[c]) <= Rank(m)
  {
    m := DONE;
    var j := 0;
    while j < |cs|
      invariant 0 <= j <= |cs|
      invariant m == TableMax(states, cs[..j])
    {
      TableMaxSnoc(states, cs, j);
      m := Max(m, states[cs[j]]);
      j := j + 1;
    }
    assert cs[..j] == cs;
    TableMaxBound(states, cs);
  }

  /** The graph's table: `_states`. `view` is the filesystem as last
      looked at. `pinned` records which entries were set from outside (kept
      by `refresh_states` or set by `set_node_state`) rather than computed,
      and `seen` the filesystem each entry was last computed against: the
      source asks the filesystem afresh each time it computes a state, so
      the table may mix states computed at different times. */
  class NodeGraph {
    const g: Graph
    var view: FsView
    var states: map<nat, State>
    ghost var pinned: map<nat, State>
    ghost var seen: map<nat, FsView>

    constructor (g: Graph, fs: FsView)
      requires ValidGraph(g)
      ensures this.g == g && view == fs && states == map[] && pinned == map[] && seen == map[]
    {
      this.g := g;
      view := fs;
      states := map[];
      pinned := map[];
      seen := map[];
    }

    /** The table is complete and every entry holds the state the rules
        give for the filesystem it was computed against. */
    ghost predicate Valid()
      reads this
    {
      Complete(g, states) && SeenOk(g, seen, states, pinned, |g|) && forall k :: k in seen ==> k < |g|
    }

    /** `get_node_state(node)`. */
    function GetNodeState(id: nat): State
      requires id in states
      reads this
    {
      states[id]
    }

    /** `_update_node_state(node)`: the table's entry if there is one;
        otherwise the children first (recursively, filling the table), then
        the node's own adjustment, which is stored. */
    method UpdateNodeState(id: nat) returns (r: Result<State>)
      requires id < |g| && BelowOk(g, view, states, pinned, id + 1)
      modifies this
      ensures view == old(view)
      ensures pinned == old(pinned)
      ensures Extends(old(states), states, id + 1)
      ensures BelowOk(g, view, states, pinned, id + 1)
      ensures r == StateOf(g, view, pinned, id)
      ensures r.Ok? ==> id in states && states[id] == r.value
      decreases id, 1
    {
      if id in states {
        TableIsStateOf(g, view, states, pinned, id + 1, id);
        return Ok(states[id]);
      }
      var m := UpdateChildren(id);
      if m.Err? {
        return Err(m.error);
      }
      r := Adjust(g, view, id, m.value);
      if r.Ok? {
        BelowOkInsert(g, view, states, pinned, id, r.value);
        states := states[id := r.value];
      }
    }

    /** The loop of `_update_node_state` over the node's subnodes and
        dependencies: their maximum state, each child's entry being
        computed (and stored) on the way. */
    method UpdateChildren(id: nat) returns (r: Result<State>)
      requires id < |g| && id !in states && BelowOk(g, view, states, pinned, id + 1)
      modifies this
      ensures view == old(view)
      ensures pinned == old(pinned) && id !in states
      ensures Extends(old(states), states, id)
      ensures BelowOk(g, view, states, pinned, id + 1)
      ensures r == ChildrenMax(g, view, pinned, id, 0)
      ensures r.Ok? ==> (forall c :: c in Children(g[id]) ==> c in states) && r.value == TableMax(states, Children(g[id]))
      decreases id, 0
    {
      var cs := Children(g[id]);
      var state := DONE;
      var i := 0;
      while i < |cs|
        invariant 0 <= i <= |cs|
        invariant pinned == old(pinned) && id !in states && view == old(view)
        invariant Extends(old(states), states, id)
        invariant BelowOk(g, view, states, pinned, id + 1)
        invariant forall c :: c in cs[..i] ==> c in states
        invariant state == TableMax(states, cs[..i])
        invariant ChildrenMax(g, view, pinned, id, 0) == MaxWith(state, ChildrenMax(g, view, pinned, id, i))
      {
        ghost var before := states;
        BelowOkWeaken(g, view, states, pinned, cs[i] + 1, id + 1);
        var s := UpdateNodeState(cs[i]);
        BelowOkExtend(g, view, before, states, pinned, cs[i] + 1, id + 1);
        ExtendsTrans(old(states), before, states, id);
        ChildStep(g, view, pinned, id, i, state);
        if s.Err? {
          return s;
        }
        TableMaxFrame(before, states, cs[..i]);
        TableMaxSnoc(states, cs, i);
        state := Max(state, s.value);
        i := i + 1;
      }
      assert cs[..i] == cs;
      return Ok(state);
    }

    /** `refresh_states()`: only the ERROR and RUNNING entries are kept,
        then every node's state is computed again against `fs`. */
    method RefreshStates(fs: FsView) returns (r: Outcome)
      requires ValidGraph(g) && forall k :: k in states ==> k < |g|
      modifies this
      ensures view == fs
      ensures pinned == map k | k in old(states) && old(states)[k] in {ERROR, RUNNING} :: old(states)[k]
      ensures r.Pass? ==> Valid() && forall k :: k in seen ==> seen[k] == fs
      ensures r.Pass? ==> Ordered(g, states)
      ensures r.Pass? ==> forall k :: 0 <= k < |g| ==> StateOf(g, fs, pinned, k) == Ok(states[k])
      ensures r.Fail? ==> exists k :: 0 <= k < |g| && StateOf(g, fs, pinned, k) == Err(r.error)
      ensures r.Pass? <==> forall k :: 0 <= k < |g| ==> StateOf(g, fs, pinned, k).Ok?
    {
      view := fs;
      var kept := map k | k in states && states[k] in {ERROR, RUNNING} :: states[k];
      AllPinnedOk(g, view, kept);
      states := kept;
      pinned := kept;
      r := RecomputeAll();
      if r.Pass? {
        seen := map k | k in states :: fs;
        RefreshedTable(g, fs, seen, states, pinned);
      }
    }

    /** The loop of `refresh_states` over every node, in order, each
        computed as `_update_node_state` does. */
    method RecomputeAll() returns (r: Outcome)
      requires BelowOk(g, view, states, pinned, |g|)
      modifies this
      ensures view == old(view) && pinned == old(pinned)
      ensures r.Pass? ==> BelowOk(g, view, states, pinned, |g|) && Complete(g, states)
      ensures r.Fail? ==> exists k :: 0 <= k < |g| && StateOf(g, view, pinned, k) == Err(r.error)
    {
      var i := 0;
      while i < |g|
        invariant 0 <= i <= |g|
        invariant view == old(view) && pinned == old(pinned)
        invariant BelowOk(g, view, states, pinned, |g|)
        invariant forall k :: 0 <= k < i ==> k in states
      {
        ghost var before := states;
        var s := UpdateNodeState(i);
        BelowOkExtend(g, view, before, states, pinned, i + 1, |g|);
        if s.Err? {
          return Fail(s.error);
        }
        i := i + 1;
      }
      r := Pass;
    }

    /** `set_node_state(node, state)`, with the filesystem as it is at the
        call: only RUNNING, ERROR and DONE may be set (ValueError
        otherwise). The node's entry is set; then every node above it,
        children before parents, is recomputed against `fs` when the node
        is one of its children or one of its children's states changed
        (`changed`). A recomputed entry loses its pin; every other entry is
        kept as it was. */
    method SetNodeState(node: nat, state: State, fs: FsView) returns (r: Outcome, ghost changed: set<nat>)
      requires node < |g| && Valid()
      modifies this
      ensures state !in {RUNNING, ERROR, DONE} ==> r == Fail(ValueError) && states == old(states) && view == old(view)
      ensures state in {RUNNING, ERROR, DONE} ==> view == fs
      ensures r.Pass? ==> Valid()
      ensures r.Pass? ==> states[node] == state && node in pinned && pinned[node] == state && seen[node] == fs
      ensures r.Pass? ==> forall k :: k in pinned && k != node ==> k in old(pinned) && pinned[k] == old(pinned)[k]
      ensures r.Pass? ==> forall k :: 0 <= k < node ==> states[k] == old(states)[k] && seen[k] == old(seen)[k]
      ensures r.Pass? ==> forall k :: node < k < |g| ==> (k in changed <==> states[k] != old(states)[k])
      ensures r.Pass? ==> forall k :: node < k < |g| && !Flagged(g, k, node, changed) ==>
        states[k] == old(states)[k] && seen[k] == old(seen)[k]
      ensures r.Pass? ==> forall k :: node < k < |g| && Flagged(g, k, node, changed) ==>
        k !in pinned && seen[k] == fs && Adjust(g, fs, k, TableMax(states, Children(g[k]))) == Ok(states[k])
      ensures r.Pass? && (forall k :: k in old(seen) ==> old(seen)[k] == fs) ==>
        forall k :: 0 <= k < |g| ==> StateOf(g, fs, pinned, k) == Ok(states[k])
      ensures r.Pass? ==> forall k :: 0 <= k < |g| && k != node && states[k] != old(states)[k] ==> node in Reach(g, k)
      ensures r.Pass? && state != DONE ==> forall k :: 0 <= k < |g| && k != node && states[k] != old(states)[k] ==>
        Rank(states[k]) >= Rank(QUEUED)
      ensures r.Fail? && state in {RUNNING, ERROR, DONE} ==>
        exists i :: node < i < |g| && i !in states && Flagged(g, i, node, changed) &&
          (forall c :: c in Children(g[i]) ==> c in states) &&
          Adjust(g, fs, i, TableMax(states, Children(g[i]))) == Err(r.error)
    {
      changed := {};
      if state !in {RUNNING, ERROR, DONE} {
        return Fail(ValueError), changed;
      }
      view := fs;
      ghost var s0, p0, w0 := states, pinned, seen;
      SweepStart(g, fs, s0, p0, w0, node, state);
      states := states[node := state];
      pinned := pinned[node := state];
      seen := seen[node := fs];
      r, changed := Sweep(node, state, s0, p0, w0);
      if r.Pass? {
        SweepFinish(g, fs, s0, p0, w0, states, pinned, seen, node, state, changed);
        if forall k :: k in w0 ==> w0[k] == fs {
          SweepUniform(g, fs, s0, p0, w0, states, pinned, seen, node, state, changed);
        }
      }
    }

    /** The loop of `set_node_state` over the nodes above `node`, children
        before parents. */
    method Sweep(node: nat, ghost state: State, ghost s0: map<nat, State>, ghost p0: map<nat, State>,
                 ghost w0: map<nat, FsView>) returns (r: Outcome, changed: set<nat>)
      requires SweepInv(g, view, s0, p0, w0, states, pinned, seen, node, state, {}, node + 1)
      requires forall k :: k in seen ==> k < |g|
      modifies this
      ensures view == old(view) && forall k :: k in seen ==> k < |g|
      ensures r.Pass? ==> SweepInv(g, view, s0, p0, w0, states, pinned, seen, node, state, changed, |g|)
      ensures r.Fail? ==>
        exists i :: node < i < |g| && i !in states && Flagged(g, i, node, changed) &&
          (forall c :: c in Children(g[i]) ==> c in states) &&
          Adjust(g, view, i, TableMax(states, Children(g[i]))) == Err(r.error)
    {
      changed := {};
      var i := node + 1;
      while i < |g|
        invariant view == old(view) && forall k :: k in seen ==> k < |g|
        invariant SweepInv(g, view, s0, p0, w0, states, pinned, seen, node, state, changed, i)
        decreases |g| - i
      {
        var next := Visit(i, s0, p0, w0, node, state, changed);
        if next.Err? {
          return Fail(next.error), changed;
        }
        changed := next.value;
        i := i + 1;
      }
      r := Pass;
    }

    /** One node of the loop of `set_node_state`: a flagged node is
        recomputed and joins `changed` when its state changed; any other is
        passed over. Either way the sweep moves past it. */
    method Visit(i: nat, ghost s0: map<nat, State>, ghost p0: map<nat, State>, ghost w0: map<nat, FsView>,
                 node: nat, ghost state: State, changed: set<nat>) returns (r: Result<set<nat>>)
      requires SweepInv(g, view, s0, p0, w0, states, pinned, seen, node, state, changed, i)
      requires i < |g| && forall k :: k in seen ==> k < |g|
      modifies this
      ensures view == old(view) && forall k :: k in seen ==> k < |g|
      ensures r.Ok? ==> SweepInv(g, view, s0, p0, w0, states, pinned, seen, node, state, r.value, i + 1)
      ensures r.Err? ==> node < i && i !in states && Flagged(g, i, node, changed)
      ensures r.Err? ==> forall c :: c in Children(g[i]) ==> c in states
      ensures r.Err? ==> Adjust(g, view, i, TableMax(states, Children(g[i]))) == Err(r.error)
    {
      if !Flagged(g, i, node, changed) {
        SweepSkip(g, view, s0, p0, w0, states, pinned, seen, node, state, changed, i);
        return Ok(changed);
      }
      ghost var before, pbefore, wbefore := states, pinned, seen;
      var hasChanged := Recompute(i);
      if hasChanged.Err? {
        assert forall c :: c in Children(g[i]) ==> c < i && c in before;
        TableMaxFrame(before, states, Children(g[i]));
        return Err(hasChanged.error);
      }
      SweepRecomputed(g, view, s0, p0, w0, before, pbefore, wbefore, node, state, changed, i, states[i]);
      r := Ok(if hasChanged.value then changed + {i} else changed);
    }

    /** One flagged node of `set_node_state`: its entry is popped and
        `_update_node_state` computes it again, from its children's
        entries (all present) and its own flags against the filesystem as
        it is now; the entry loses its pin, and the result says whether
        the state changed. On an exception the entry stays popped. */
    method Recompute(i: nat) returns (r: Result<bool>)
      requires i < |g| && ValidGraph(g) && Complete(g, states)
      modifies this
      ensures view == old(view)
      ensures pinned == old(pinned) - {i}
      ensures r.Err? ==> states == old(states) - {i} && seen == old(seen)
      ensures r.Ok? ==> i in states && states == old(states)[i := states[i]] && seen == old(seen)[i := view]
      ensures r.Ok? ==> Adjust(g, view, i, TableMax(old(states), Children(g[i]))) == Ok(states[i])
      ensures r.Err? ==> Adjust(g, view, i, TableMax(old(states), Children(g[i]))) == Err(r.error)
      ensures r.Ok? ==> r.value == (states[i] != old(states)[i])
    {
      ghost var before := states;
      var oldState := states[i];
      states := states - {i};
      pinned := pinned - {i};
      var cs := Children(g[i]);
      assert forall c :: c in cs ==> c < i && c in before;
      var m := MaxOfEntries(states, cs);
      TableMaxFrame(before, states, cs);
      var s := Adjust(g, view, i, m);
      if s.Err? {
        return Err(s.error);
      }
      PopThenSet(before, i, s.value);
      states := states[i := s.value];
      seen := seen[i := view];
      r := Ok(s.value != oldState);
    }
  }

  // ---------------------------------------------------------------------
  // Graph construction checks

  /** The nodes reachable from a node through subnodes and dependencies:
      `_collect_dependencies`' entry for it. */
  function Reach(g: Graph, id: nat): set<nat>
    requires ValidGraph(g) && id < |g|
    decreases id, 1
  {
    ReachFrom(g, id, 0)
  }

  function ReachFrom(g: Graph, id: nat, i: nat): (r: set<nat>)
    requires ValidGraph(g) && id < |g| && i <= |Children(g[id])|
    ensures forall k :: k in r ==> k < id
    decreases id, 0, |Children(g[id])| - i
  {
    var cs := Children(g[id]);
    if i == |cs| then {}
    else {cs[i]} + Reach(g, cs[i]) + ReachFrom(g, id, i + 1)
  }

  lemma {:induction false} ReachFromMeaning(g: Graph, id: nat, i: nat)
    requires ValidGraph(g) && id < |g| && i <= |Children(g[id])|
    ensures forall k :: k in ReachFrom(g, id, i) <==>
      exists j :: i <= j < |Children(g[id])| && (k == Children(g[id])[j] || k in Reach(g, Children(g[id])[j]))
    decreases |Children(g[id])| - i
  {
    if i < |Children(g[id])| {
      ReachFromMeaning(g, id, i + 1);
    }
  }

  /** A node's collected dependencies are its children and everything they
      depend on; each lies below the node, so no node depends on itself. */
  lemma ReachMeaning(g: Graph, id: nat)
    requires ValidGraph(g) && id < |g|
    ensures forall c :: c in Children(g[id]) ==> c in Reach(g, id) && Reach(g, c) <= Reach(g, id)
    ensures forall k :: k in Reach(g, id) ==> exists c :: c in Children(g[id]) && (k == c || k in Reach(g, c))
    ensures id !in Reach(g, id)
  {
    ReachFromMeaning(g, id, 0);
    var cs := Children(g[id]);
    forall c | c in cs ensures c in Reach(g, id) && Reach(g, c) <= Reach(g, id) {
      var j :| 0 <= j < |cs| && cs[j] == c;
    }
  }

  /** `_collect_dependencies(nodes, dependencies)`: fills the table with the
      collected dependencies of every node reachable from `ids`. */
  method CollectDependencies(g: Graph, ids: seq<nat>, deps: map<nat, set<nat>>, bound: nat)
      returns (deps': map<nat, set<nat>>)
    requires ValidGraph(g) && bound <= |g| && forall i :: 0 <= i < |ids| ==> ids[i] < bound
    requires forall k :: k in deps ==> k < |g| && deps[k] == Reach(g, k)
    ensures forall k :: k in deps ==> k in deps'
    ensures forall k :: k in deps' ==> k < |g| && deps'[k] == Reach(g, k)
    ensures forall i :: 0 <= i < |ids| ==> ids[i] in deps'
    decreases bound
  {
    deps' := deps;
    var i := 0;
    while i < |ids|
      invariant 0 <= i <= |ids|
      invariant forall k :: k in deps ==> k in deps'
      invariant forall k :: k in deps' ==> k < |g| && deps'[k] == Reach(g, k)
      invariant forall j :: 0 <= j < i ==> ids[j] in deps'
    {
      var node := ids[i];
      if node !in deps' {
        var cs := Children(g[node]);
        if |cs| == 0 {
          ReachMeaning(g, node);
          deps' := deps'[node := {}];
        } else {
          deps' := CollectDependencies(g, cs, deps', node);
          var collected := set j | 0 <= j < |cs| :: cs[j];
          var j := 0;
          while j < |cs|
            invariant 0 <= j <= |cs|
            invariant forall k :: k in collected <==> k in cs || exists m :: 0 <= m < j && k in Reach(g, cs[m])
          {
            collected := collected + deps'[cs[j]];
            j := j + 1;
          }
          ReachMeaning(g, node);
          assert collected == Reach(g, node) by {
            forall k | k in Reach(g, node) ensures k in collected {
              var c :| c in cs && (k == c || k in Reach(g, c));
              var m :| 0 <= m < |cs| && cs[m] == c;
            }
          }
          deps' := deps'[node := collected];
        }
      }
      i := i + 1;
    }
  }

  /** `_collect_reverse_dependencies`: the nodes that have a node among
      their subnodes or dependencies. */
  function ReverseDependencies(g: Graph, id: nat): (r: set<nat>)
    requires ValidGraph(g)
    ensures forall p :: p in r <==> 0 <= p < |g| && id in Children(g[p])
    ensures forall p :: p in r ==> id < p
  {
    set p | 0 <= p < |g| && id in Children(g[p])
  }

  /** The nodes nothing depends on (iterating the graph yields these). */
  function TopNodes(g: Graph): (r: set<nat>)
    requires ValidGraph(g)
    ensures forall k :: k in r <==> 0 <= k < |g| && ReverseDependencies(g, k) == {}
  {
    set k | 0 <= k < |g| && ReverseDependencies(g, k) == {}
  }

  /** The last node built is always a top node. */
  lemma LastNodeIsTop(g: Graph)
    requires ValidGraph(g) && |g| > 0
    ensures |g| - 1 in TopNodes(g)
  {
    assert ReverseDependencies(g, |g| - 1) == {};
  }

  /** The nodes that declare `f` as an output. */
  function Producers(g: Graph, f: string): set<nat>
  {
    set k | 0 <= k < |g| && f in g[k].outputFiles
  }

  /** Auxiliary files count as inputs. */
  predicate Consumes(n: Node, f: string)
  {
    f in n.inputFiles || f in n.auxiliaryFiles
  }

  /** Every file some node consumes. */
  function ConsumedFiles(g: Graph): (r: set<string>)
    ensures forall f :: f in r <==> exists k :: 0 <= k < |g| && Consumes(g[k], f)
  {
    var r := set k, f | 0 <= k < |g| && f in g[k].inputFiles + g[k].auxiliaryFiles :: f;
    assert forall k, f :: 0 <= k < |g| && Consumes(g[k], f) ==> f in g[k].inputFiles + g[k].auxiliaryFiles;
    r
  }

  /** `_check_output_files`' test: more than one node produces `f`. */
  predicate Clobbered(g: Graph, f: string)
  {
    exists a, b :: 0 <= a < b < |g| && f in g[a].outputFiles && f in g[b].outputFiles
  }

  /** Two distinct producers are the same as `len(nodes) > 1`. */
  lemma ClobberedMeaning(g: Graph, f: string)
    ensures Clobbered(g, f) <==> |Producers(g, f)| > 1
  {
    var p := Producers(g, f);
    if Clobbered(g, f) {
      var a, b :| 0 <= a < b < |g| && f in g[a].outputFiles && f in g[b].outputFiles;
      assert |{a, b}| == 2;
      SubsetCard({a, b}, p);
    }
    if |p| > 1 {
      var a :| a in p;
      assert p != {a};
      OtherProducerClobbers(g, f, a);
    }
  }

  /** A second producer of an output clobbers it. */
  lemma OtherProducerClobbers(g: Graph, f: string, k: nat)
    requires k < |g| && f in g[k].outputFiles
    ensures Producers(g, f) != {k} ==> Clobbered(g, f)
  {
    if Producers(g, f) != {k} {
      assert k in Producers(g, f);
      var j :| j in Producers(g, f) && j != k;
      if j < k {
        assert f in g[j].outputFiles && f in g[k].outputFiles;
      } else {
        assert f in g[k].outputFiles && f in g[j].outputFiles;
      }
    }
  }

  /** A clobbered output has two producers. */
  lemma ClobberedHasTwoProducers(g: Graph, f: string, k: nat)
    ensures Clobbered(g, f) ==> Producers(g, f) != {k}
  {
    if Clobbered(g, f) {
      var a, b :| 0 <= a < b < |g| && f in g[a].outputFiles && f in g[b].outputFiles;
      assert a in Producers(g, f) && b in Producers(g, f);
    }
  }

  lemma SubsetCard<T>(a: set<T>, b: set<T>)
    requires a <= b
    ensures |a| <= |b|
  {
    assert b == a + (b - a);
  }

  /** `_check_input_dependencies` for one consumed file: when nodes
      produce it, every consumer depends on one of them; otherwise the file
      exists. */
  predicate InputOk(g: Graph, fs: FsView, f: string)
    requires ValidGraph(g)
  {
    if Producers(g, f) != {} then
      forall k :: 0 <= k < |g| && Consumes(g[k], f) ==> Producers(g, f) * Reach(g, k) != {}
    else fs.Exists(f)
  }

  /** `_check_file_dependencies`, as intended: NodeGraphError when some
      output is clobbered or some input is unaccounted for. */
  function CheckFileDependencies(g: Graph, fs: FsView): (r: Outcome)
    requires ValidGraph(g)
    ensures r.Fail? ==> r.error == NodeGraphError
  {
    if (exists k, f :: 0 <= k < |g| && f in g[k].outputFiles && Clobbered(g, f)) ||
       (exists f :: f in ConsumedFiles(g) && !InputOk(g, fs, f))
    then Fail(NodeGraphError)
    else Pass
  }

  /** No output is clobbered exactly when each output has one producer. */
  lemma NoClobberMeaning(g: Graph)
    ensures (forall k, f :: 0 <= k < |g| && f in g[k].outputFiles ==> !Clobbered(g, f)) <==>
            (forall k, f :: 0 <= k < |g| && f in g[k].outputFiles ==> Producers(g, f) == {k})
  {
    forall k, f | 0 <= k < |g| && f in g[k].outputFiles
      ensures !Clobbered(g, f) <==> Producers(g, f) == {k}
    {
      OtherProducerClobbers(g, f, k);
      ClobberedHasTwoProducers(g, f, k);
    }
  }

  /** What the input check asks of one consumer of `f`. */
  predicate ConsumerOk(g: Graph, fs: FsView, f: string, k: nat)
    requires ValidGraph(g) && k < |g|
  {
    if Producers(g, f) != {} then Producers(g, f) * Reach(g, k) != {} else fs.Exists(f)
  }

  /** A consumed file passes the check exactly when each of its consumers
      does. */
  lemma InputOkMeaning(g: Graph, fs: FsView, f: string, k: nat)
    requires ValidGraph(g) && k < |g| && Consumes(g[k], f)
    ensures InputOk(g, fs, f) <==> forall j :: 0 <= j < |g| && Consumes(g[j], f) ==> ConsumerOk(g, fs, f, j)
  {
  }

  /** The inputs pass exactly when every consumer of every file does. */
  lemma InputsOkMeaning(g: Graph, fs: FsView)
    requires ValidGraph(g)
    ensures (forall f :: f in ConsumedFiles(g) ==> InputOk(g, fs, f)) <==>
      (forall k, f :: 0 <= k < |g| && Consumes(g[k], f) ==> ConsumerOk(g, fs, f, k))
  {
    if forall f :: f in ConsumedFiles(g) ==> InputOk(g, fs, f) {
      forall k, f | 0 <= k < |g| && Consumes(g[k], f) ensures ConsumerOk(g, fs, f, k) {
        assert f in ConsumedFiles(g);
        InputOkMeaning(g, fs, f, k);
      }
    }
    if forall k, f :: 0 <= k < |g| && Consumes(g[k], f) ==> ConsumerOk(g, fs, f, k) {
      forall f | f in ConsumedFiles(g) ensures InputOk(g, fs, f) {
        var k :| 0 <= k < |g| && Consumes(g[k], f);
        InputOkMeaning(g, fs, f, k);
      }
    }
  }

  /** The graph passes the file checks exactly when every output has one
      producer and every consumer passes: a consumer of a produced file
      depends on a producer of it, and any other consumed file exists. */
  lemma CheckFileDependenciesMeaning(g: Graph, fs: FsView)
    requires ValidGraph(g)
    ensures CheckFileDependencies(g, fs).Pass? <==>
      (forall k, f :: 0 <= k < |g| && f in g[k].outputFiles ==> Producers(g, f) == {k}) &&
      (forall k, f :: 0 <= k < |g| && Consumes(g[k], f) ==> ConsumerOk(g, fs, f, k))
  {
    NoClobberMeaning(g);
    InputsOkMeaning(g, fs);
  }

  /** `_check_input_dependencies` as written: the consumed files in sorted
      order, each message drawn while fewer than `budget` have been (the
      caller zips the messages with `range(10)`). The message for a
      consumer that does not depend on a producer names `producer`, which
      is not bound, so the check raises NameError there. The result is the
      number of messages. */
  function InputErrorsAsWritten(g: Graph, fs: FsView, files: seq<string>, budget: nat): (r: Result<nat>)
    requires ValidGraph(g)
    ensures r.Err? ==> r.error == NameError
    ensures r.Ok? ==> r.value <= budget
  {
    if files == [] || budget == 0 then Ok(0)
    else if Producers(g, files[0]) != {} then
      if InputOk(g, fs, files[0]) then InputErrorsAsWritten(g, fs, files[1..], budget)
      else Err(NameError)
    else if fs.Exists(files[0]) then InputErrorsAsWritten(g, fs, files[1..], budget)
    else
      match InputErrorsAsWritten(g, fs, files[1..], budget - 1)
      case Err(e) => Err(e)
      case Ok(n) => Ok(n + 1)
  }

  /** Without the NameError, the messages counted are exactly the files
      that fail the check: some are drawn exactly when some file fails. */
  lemma InputErrorsAsWrittenMeaning(g: Graph, fs: FsView, files: seq<string>, budget: nat)
    requires ValidGraph(g) && budget > 0
    ensures InputErrorsAsWritten(g, fs, files, budget).Ok? ==>
      (InputErrorsAsWritten(g, fs, files, budget).value > 0 <==> exists i :: 0 <= i < |files| && !InputOk(g, fs, files[i]))
    ensures InputErrorsAsWritten(g, fs, files, budget).Err? ==>
      exists i :: 0 <= i < |files| && Producers(g, files[i]) != {} && !InputOk(g, fs, files[i])
  {
    InputErrorsAsWrittenCounts(g, fs, files, budget);
    InputErrorsAsWrittenRaises(g, fs, files, budget);
  }

  /** When no NameError is raised, a message is drawn exactly when some file fails. */
  lemma InputErrorsAsWrittenCounts(g: Graph, fs: FsView, files: seq<string>, budget: nat)
    requires ValidGraph(g) && budget > 0
    ensures InputErrorsAsWritten(g, fs, files, budget).Ok? ==>
      (InputErrorsAsWritten(g, fs, files, budget).value > 0 <==> exists i :: 0 <= i < |files| && !InputOk(g, fs, files[i]))
  {
    InputErrorsAsWrittenDrawn(g, fs, files, budget);
    InputErrorsAsWrittenFound(g, fs, files, budget);
  }

  /** A message is drawn only for a file that fails. */
  lemma {:induction false} InputErrorsAsWrittenDrawn(g: Graph, fs: FsView, files: seq<string>, budget: nat)
    requires ValidGraph(g)
    ensures InputErrorsAsWritten(g, fs, files, budget).Ok? && InputErrorsAsWritten(g, fs, files, budget).value > 0 ==>
      exists i :: 0 <= i < |files| && !InputOk(g, fs, files[i])
  {
    if files != [] && budget > 0 && InputErrorsAsWritten(g, fs, files, budget).Ok? && InputErrorsAsWritten(g, fs, files, budget).value > 0 {
      if Producers(g, files[0]) != {} || fs.Exists(files[0]) {
        InputErrorsAsWrittenDrawn(g, fs, files[1..], budget);
        var i :| 0 <= i < |files[1..]| && !InputOk(g, fs, files[1..][i]);
        assert files[i + 1] == files[1..][i];
      } else {
        assert !InputOk(g, fs, files[0]);
      }
    }
  }

  /** With a message left to draw, a failing file draws one (or raises). */
  lemma {:induction false} InputErrorsAsWrittenFound(g: Graph, fs: FsView, files: seq<string>, budget: nat)
    requires ValidGraph(g) && budget > 0
    ensures InputErrorsAsWritten(g, fs, files, budget).Ok? && (exists i :: 0 <= i < |files| && !InputOk(g, fs, files[i])) ==>
      InputErrorsAsWritten(g, fs, files, budget).value > 0
  {
    if files != [] && InputErrorsAsWritten(g, fs, files, budget).Ok? && exists i :: 0 <= i < |files| && !InputOk(g, fs, files[i]) {
      if Producers(g, files[0]) != {} || fs.Exists(files[0]) {
        assert InputOk(g, fs, files[0]);
        var i :| 0 <= i < |files| && !InputOk(g, fs, files[i]);
        assert files[1..][i - 1] == files[i];
        InputErrorsAsWrittenFound(g, fs, files[1..], budget);
      }
    }
  }

  /** The NameError is raised only for a produced file that fails. */
  lemma {:induction false} InputErrorsAsWrittenRaises(g: Graph, fs: FsView, files: seq<string>, budget: nat)
    requires ValidGraph(g)
    ensures InputErrorsAsWritten(g, fs, files, budget).Err? ==>
      exists i :: 0 <= i < |files| && Producers(g, files[i]) != {} && !InputOk(g, fs, files[i])
  {
    if files != [] && budget > 0 && InputErrorsAsWritten(g, fs, files, budget).Err? {
      if Producers(g, files[0]) != {} && !InputOk(g, fs, files[0]) {
        assert 0 < |files|;
      } else {
        var b := if Producers(g, files[0]) != {} || fs.Exists(files[0]) then budget else budget - 1;
        assert InputErrorsAsWritten(g, fs, files[1..], b).Err?;
        InputErrorsAsWrittenRaises(g, fs, files[1..], b);
        var i :| 0 <= i < |files[1..]| && Producers(g, files[1..][i]) != {} && !InputOk(g, fs, files[1..][i]);
        assert files[i + 1] == files[1..][i];
      }
    }
  }

  /** `_check_file_dependencies` as written. */
  function CheckFileDependenciesAsWritten(g: Graph, fs: FsView): (r: Outcome)
    requires ValidGraph(g)
    ensures r.Fail? ==> r.error == NodeGraphError || r.error == NameError
  {
    var clobbered := exists k, f :: 0 <= k < |g| && f in g[k].outputFiles && Clobbered(g, f);
    match InputErrorsAsWritten(g, fs, SortedSet(ConsumedFiles(g)), 10)
    case Err(e) => Fail(e)
    case Ok(n) => if clobbered || n > 0 then Fail(NodeGraphError) else Pass
  }

  /** Where the check as written does not raise NameError it agrees with
      the intended check; it raises NameError only when a consumer of a
      produced file depends on none of its producers. */
  lemma CheckFileDependenciesAsWrittenAgrees(g: Graph, fs: FsView)
    requires ValidGraph(g)
    ensures CheckFileDependenciesAsWritten(g, fs) != Fail(NameError) ==>
      CheckFileDependenciesAsWritten(g, fs) == CheckFileDependencies(g, fs)
    ensures CheckFileDependenciesAsWritten(g, fs) == Fail(NameError) ==>
      exists f :: f in ConsumedFiles(g) && Producers(g, f) != {} && !InputOk(g, fs, f)
  {
    var files := SortedSet(ConsumedFiles(g));
    InputErrorsOverConsumed(g, fs, files);
  }

  lemma InputErrorsOverConsumed(g: Graph, fs: FsView, files: seq<string>)
    requires ValidGraph(g) && forall f :: f in files <==> f in ConsumedFiles(g)
    ensures InputErrorsAsWritten(g, fs, files, 10).Ok? ==>
      (InputErrorsAsWritten(g, fs, files, 10).value > 0 <==> exists f :: f in ConsumedFiles(g) && !InputOk(g, fs, f))
    ensures InputErrorsAsWritten(g, fs, files, 10).Err? ==>
      exists f :: f in ConsumedFiles(g) && Producers(g, f) != {} && !InputOk(g, fs, f)
  {
    InputErrorsAsWrittenMeaning(g, fs, files, 10);
    if exists f :: f in ConsumedFiles(g) && !InputOk(g, fs, f) {
      var f :| f in ConsumedFiles(g) && !InputOk(g, fs, f);
      var i :| 0 <= i < |files| && files[i] == f;
    }
    if InputErrorsAsWritten(g, fs, files, 10).Err? {
      var i :| 0 <= i < |files| && Producers(g, files[i]) != {} && !InputOk(g, fs, files[i]);
      assert files[i] in files;
    }
  }

  /** A node that reads the output of an earlier node without depending on
      it: the check as written raises NameError, the intended check
      reports NodeGraphError. */
  lemma UndeclaredDependencyExample(fs: FsView)
    ensures var producer := Node(None, {}, {"x"}, {}, {}, {}, 1, [], [], Plain);
      var consumer := Node(None, {"x"}, {}, {}, {}, {}, 1, [], [], Plain);
      var g := [producer, consumer];
      ValidGraph(g) &&
      CheckFileDependenciesAsWritten(g, fs) == Fail(NameError) &&
      CheckFileDependencies(g, fs) == Fail(NodeGraphError)
  {
    var producer := Node(None, {}, {"x"}, {}, {}, {}, 1, [], [], Plain);
    var consumer := Node(None, {"x"}, {}, {}, {}, {}, 1, [], [], Plain);
    var g := [producer, consumer];
    assert Children(consumer) == [];
    assert Reach(g, 1) == {};
    assert ConsumedFiles(g) == {"x"} by {
      assert Consumes(g[1], "x");
      forall f | f in ConsumedFiles(g) ensures f == "x" {
        var k :| 0 <= k < |g| && Consumes(g[k], f);
      }
    }
    assert 0 in Producers(g, "x");
    assert !InputOk(g, fs, "x") by {
      assert Consumes(g[1], "x");
    }
    var files := SortedSet(ConsumedFiles(g));
    assert |files| == 1 && files[0] == "x" by {
      assert "x" in files;
    }
  }

  /** `_check_required_executables` for the executables: NodeGraphError
      when one of any node's executables is missing. */
  function CheckRequiredExecutables(g: Graph, fs: FsView): (r: Outcome)
    ensures r.Pass? <==> forall k, e :: 0 <= k < |g| && e in g[k].executables ==> ExecutableExists(fs, e)
    ensures r.Fail? ==> r.error == NodeGraphError
  {
    var all := set k, e | 0 <= k < |g| && e in g[k].executables :: e;
    if MissingExecutables(fs, all) != {} then
      assert exists e :: e in MissingExecutables(fs, all);
      Fail(NodeGraphError)
    else Pass
  }

  /** `NodeGraph(nodes)`: the file checks, the executables check, then the
      initial `refresh_states`. */
  method NewNodeGraph(g: Graph, fs: FsView) returns (r: Result<NodeGraph>)
    requires ValidGraph(g)
    ensures CheckFileDependencies(g, fs).Fail? ==> r == Err(NodeGraphError)
    ensures CheckFileDependencies(g, fs).Pass? && CheckRequiredExecutables(g, fs).Fail? ==> r == Err(NodeGraphError)
    ensures r.Ok? ==> fresh(r.value) && r.value.g == g && r.value.view == fs && r.value.pinned == map[] && r.value.Valid()
    ensures r.Ok? ==> forall k :: 0 <= k < |g| ==> StateOf(g, fs, map[], k) == Ok(r.value.states[k])
    ensures r.Err? ==> r.error == NodeGraphError || exists k :: 0 <= k < |g| && StateOf(g, fs, map[], k) == Err(r.error)
    ensures CheckFileDependencies(g, fs).Pass? && CheckRequiredExecutables(g, fs).Pass? ==>
      (r.Ok? <==> forall k :: 0 <= k < |g| ==> StateOf(g, fs, map[], k).Ok?)
  {
    if CheckFileDependencies(g, fs).Fail? {
      return Err(NodeGraphError);
    }
    if CheckRequiredExecutables(g, fs).Fail? {
      return Err(NodeGraphError);
    }
    var graph := new NodeGraph(g, fs);
    var refreshed := graph.RefreshStates(fs);
    if refreshed.Fail? {
      return Err(refreshed.error);
    }
    return Ok(graph);
  }
}
