// Nodes of pypeline/node.py: the constructor's argument checks, `is_done`
// and `is_outdated` over the filesystem, and the setup -> run -> teardown
// lifecycle of `run`, with CommandNode's check of the temporary directory
// before its command is committed.
//
// A pipeline's nodes form a graph; the model numbers them in the order they
// were built, so a node's subnodes and dependencies (which must exist before
// the node does) carry smaller numbers.
module Nodes {
  import opened PyErrors
  import opened PyValues
  import opened Utilities
  import opened FileUtils
  import opened AtomicSets

  datatype Kind = Plain | CommandNode(command: Command) | MetaNode

  /** A constructed node. Frozensets of files are sets; the subnodes and
      dependencies are node numbers, listed in their frozenset's iteration
      order (the order `all(...)` visits them in). */
  datatype Node = Node(
    description: Option<string>,
    inputFiles: set<string>,
    outputFiles: set<string>,
    executables: set<string>,
    auxiliaryFiles: set<string>,
    requirements: set<Value>,
    threads: nat,
    subnodes: seq<nat>,
    dependencies: seq<nat>,
    kind: Kind)

  /** A node may only refer to nodes built before it. */
  predicate ChildrenBefore(n: Node, id: nat)
  {
    (forall j :: 0 <= j < |n.subnodes| ==> n.subnodes[j] < id) &&
    (forall j :: 0 <= j < |n.dependencies| ==> n.dependencies[j] < id)
  }

  /** `node.subnodes | node.dependencies`, with repeats. */
  function Children(n: Node): (r: seq<nat>)
    ensures forall id :: ChildrenBefore(n, id) ==> forall i :: 0 <= i < |r| ==> r[i] < id
    ensures forall c :: c in r <==> c in n.subnodes || c in n.dependencies
  {
    n.subnodes + n.dependencies
  }

  type Graph = seq<Node>

  predicate ValidGraph(g: Graph)
  {
    forall id :: 0 <= id < |g| ==> ChildrenBefore(g[id], id)
  }

  // ---------------------------------------------------------------------
  // Constructor checks

  /** The `description` argument: None or a string. */
  function ValidateDescription(v: Value): (r: Result<Option<string>>)
    ensures r.Ok? <==> v.PNone? || v.PStr?
    ensures r.Ok? ==> (r.value.Some? <==> v.PStr?) && (v.PStr? ==> r.value.value == v.s)
    ensures r.Err? ==> r.error == TypeError
  {
    match v
    case PNone => Ok(None)
    case PStr(s) => Ok(Some(s))
    case _ => Err(TypeError)
  }

  /** `_validate_files`: coerced to a frozenset, every member a string. */
  function ValidateFiles(v: Value): (r: Result<set<string>>)
    ensures r.Ok? <==> SafeCoerceToFrozenset(v).Ok? && forall x :: x in SafeCoerceToTuple(v) ==> x.PStr?
    ensures r.Ok? ==> forall f :: f in r.value <==> PStr(f) in SafeCoerceToTuple(v)
    ensures r.Err? ==> r.error == TypeError
  {
    match SafeCoerceToFrozenset(v)
    case Err(e) => Err(e)
    case Ok(items) =>
      if exists x :: x in items && !x.PStr? then Err(TypeError)
      else Ok(set x | x in items && x.PStr? :: x.s)
  }

  /** `_validate_requirements`: coerced to a frozenset, every member
      callable (an object whose tag is among `callables`). */
  function ValidateRequirements(v: Value, callables: set<nat>): (r: Result<set<Value>>)
    ensures r.Ok? <==> (SafeCoerceToFrozenset(v).Ok? &&
      forall x :: x in SafeCoerceToTuple(v) ==> x.PObject? && x.tag in callables)
    ensures r.Ok? ==> forall x :: x in r.value <==> x in SafeCoerceToTuple(v)
    ensures r.Err? ==> r.error == TypeError
  {
    match SafeCoerceToFrozenset(v)
    case Err(e) => Err(e)
    case Ok(items) =>
      if exists x :: x in items && !(x.PObject? && x.tag in callables) then Err(TypeError)
      else Ok(items)
  }

  /** `int(v)` for a value that `isinstance(v, int)` accepts. */
  function IntOf(v: Value): int
    requires IsInt(v)
  {
    if v.PInt? then v.i else if v.b then 1 else 0
  }

  /** `_validate_nthreads`: an integer (a bool is one) of at least 1. */
  function ValidateNThreads(v: Value): (r: Result<nat>)
    ensures !IsInt(v) ==> r == Err(TypeError)
    ensures IsInt(v) && IntOf(v) < 1 ==> r == Err(ValueError)
    ensures r.Ok? ==> IsInt(v) && r.value == IntOf(v) >= 1
  {
    if !IsInt(v) then Err(TypeError)
    else if IntOf(v) < 1 then Err(ValueError)
    else Ok(IntOf(v))
  }

  /** A reference to one of the `count` nodes built so far. */
  predicate IsNodeRef(v: Value, count: nat)
  {
    v.PObject? && v.tag < count
  }

  /** The list without repeats, first occurrences kept in order. */
  function Dedup(xs: seq<nat>): (r: seq<nat>)
    ensures forall x :: x in r <==> x in xs
    ensures forall i, j :: 0 <= i < j < |r| ==> r[i] != r[j]
  {
    if xs == [] then []
    else
      var rest := Dedup(xs[..|xs| - 1]);
      assert forall x :: x in xs <==> x in xs[..|xs| - 1] || x == xs[|xs| - 1];
      if xs[|xs| - 1] in rest then rest else rest + [xs[|xs| - 1]]
  }

  /** The tags of a list of node references. */
  function Tags(items: seq<Value>, count: nat): (tags: seq<nat>)
    requires forall i :: 0 <= i < |items| ==> items[i].PObject? && items[i].tag < count
    ensures |tags| == |items| && forall i :: 0 <= i < |items| ==> tags[i] == items[i].tag
    ensures forall t :: t in tags <==> PObject(t) in items
    ensures forall t :: t in tags ==> t < count
  {
    if items == [] then []
    else
      assert forall i :: 1 <= i < |items| ==> items[1..][i - 1] == items[i];
      var rest := Tags(items[1..], count);
      assert forall t :: PObject(t) in items <==> PObject(t) == items[0] || PObject(t) in items[1..];
      assert forall t :: t in [items[0].tag] + rest ==> t == items[0].tag || t in rest;
      [items[0].tag] + rest
  }

  /** `_collect_nodes`: None gives no nodes; otherwise the coerced
      frozenset, whose members must all be nodes. */
  function CollectNodes(v: Value, count: nat): (r: Result<seq<nat>>)
    ensures v.PNone? ==> r == Ok([])
    ensures !v.PNone? ==> (r.Ok? <==> forall x :: x in SafeCoerceToTuple(v) ==> IsNodeRef(x, count))
    ensures r.Ok? ==> forall t :: t in r.value <==> PObject(t) in SafeCoerceToTuple(v)
    ensures r.Ok? ==> forall j :: 0 <= j < |r.value| ==> r.value[j] < count
    ensures r.Err? ==> r.error == TypeError
  {
    if v.PNone? then Ok([])
    else
      // An unhashable member is not a node either: both raise TypeError.
      var items := SafeCoerceToTuple(v);
      if !(forall x :: x in items ==> IsNodeRef(x, count)) then Err(TypeError)
      else
        assert forall i :: 0 <= i < |items| ==> items[i] in items;
        var unique := Dedup(Tags(items, count));
        assert forall j :: 0 <= j < |unique| ==> unique[j] in unique;
        Ok(unique)
  }

  /** `Node(description, threads, input_files, output_files, executables,
      auxiliary_files, requirements, subnodes, dependencies)`, checked in
      that order of arguments: description, the four file sets,
      requirements, threads, then subnodes and dependencies. `count` is the
      number of nodes built before, `callables` the tags of callable
      objects. */
  function NewNode(description: Value, threads: Value, inputFiles: Value, outputFiles: Value,
                   executables: Value, auxiliaryFiles: Value, requirements: Value,
                   subnodes: Value, dependencies: Value, count: nat, callables: set<nat>): (r: Result<Node>)
    ensures r.Ok? <==>
      ValidateDescription(description).Ok? && ValidateFiles(inputFiles).Ok? && ValidateFiles(outputFiles).Ok? &&
      ValidateFiles(executables).Ok? && ValidateFiles(auxiliaryFiles).Ok? &&
      ValidateRequirements(requirements, callables).Ok? && ValidateNThreads(threads).Ok? &&
      CollectNodes(subnodes, count).Ok? && CollectNodes(dependencies, count).Ok?
    ensures r.Ok? ==> r.value.kind == Plain && ChildrenBefore(r.value, count) && r.value.threads >= 1
    ensures r.Ok? ==> r.value.outputFiles == ValidateFiles(outputFiles).value && r.value.inputFiles == ValidateFiles(inputFiles).value
    ensures r.Ok? ==> r.value.executables == ValidateFiles(executables).value &&
                      r.value.auxiliaryFiles == ValidateFiles(auxiliaryFiles).value
    ensures r.Ok? ==> r.value.threads == ValidateNThreads(threads).value &&
                      r.value.requirements == ValidateRequirements(requirements, callables).value
    ensures r.Ok? ==> r.value.description == ValidateDescription(description).value
    ensures r.Ok? ==> r.value.subnodes == CollectNodes(subnodes, count).value &&
                      r.value.dependencies == CollectNodes(dependencies, count).value
    ensures r.Err? ==> r.error == TypeError || r.error == ValueError
  {
    var desc :- ValidateDescription(description);
    var ins :- ValidateFiles(inputFiles);
    var outs :- ValidateFiles(outputFiles);
    var exes :- ValidateFiles(executables);
    var aux :- ValidateFiles(auxiliaryFiles);
    var reqs :- ValidateRequirements(requirements, callables);
    var n :- ValidateNThreads(threads);
    var subs :- CollectNodes(subnodes, count);
    var deps :- CollectNodes(dependencies, count);
    Ok(Node(desc, ins, outs, exes, aux, reqs, n, subs, deps, Plain))
  }

  /** With every other argument valid, the thread count decides: a
      non-integer raises TypeError and an integer below 1 ValueError; and
      a dict given as a file set raises TypeError. */
  lemma NewNodeThreadRule(description: Value, threads: Value, requirements: Value,
                          subnodes: Value, dependencies: Value, count: nat, callables: set<nat>)
    requires ValidateDescription(description).Ok?
    requires ValidateRequirements(requirements, callables).Ok?
    ensures var e := PTuple([]);
      var r := NewNode(description, threads, e, e, e, e, requirements, subnodes, dependencies, count, callables);
      (!IsInt(threads) ==> r == Err(TypeError)) &&
      (IsInt(threads) && IntOf(threads) < 1 ==> r == Err(ValueError))
    ensures forall d :: NewNode(description, threads, PDict(d), PTuple([]), PTuple([]), PTuple([]), requirements,
                                subnodes, dependencies, count, callables) == Err(TypeError)
  {
    forall d ensures NewNode(description, threads, PDict(d), PTuple([]), PTuple([]), PTuple([]), requirements,
                             subnodes, dependencies, count, callables) == Err(TypeError)
    {
      SafeCoerceWrapsStringsAndDicts("", d);
    }
  }

  /** Appending a freshly built node keeps the graph well founded. */
  lemma AddNodeKeepsGraphValid(g: Graph, n: Node)
    requires ValidGraph(g) && ChildrenBefore(n, |g|)
    ensures ValidGraph(g + [n])
  {
  }

  function FilesValue(files: seq<string>): Value
  {
    PList(seq(|files|, i requires 0 <= i < |files| => PStr(files[i])))
  }

  /** `CommandNode(command, ...)`: a node whose file sets and requirements
      are the command's. */
  function NewCommandNode(command: Command, description: Value, threads: Value,
                          subnodes: Value, dependencies: Value, count: nat, callables: set<nat>): (r: Result<Node>)
    ensures r.Ok? ==> r.value.kind == CommandNode(command) && ChildrenBefore(r.value, count)
    ensures r.Ok? ==> forall f :: f in r.value.outputFiles <==> f in Files(command, OutputFiles)
    ensures r.Ok? ==> forall f :: f in r.value.inputFiles <==> f in Files(command, InputFiles)
  {
    var files := k => FilesValue(Files(command, k));
    var node :- NewNode(description, threads, files(InputFiles), files(OutputFiles), files(Executables),
                        files(AuxiliaryFiles), PList(Requirements(command)), subnodes, dependencies, count, callables);
    assert forall k, f :: PStr(f) in SafeCoerceToTuple(files(k)) <==> f in Files(command, k) by {
      forall k, f | f in Files(command, k) ensures PStr(f) in SafeCoerceToTuple(files(k)) {
        var i :| 0 <= i < |Files(command, k)| && Files(command, k)[i] == f;
        assert SafeCoerceToTuple(files(k))[i] == PStr(f);
      }
    }
    Ok(node.(kind := CommandNode(command)))
  }

  /** `MetaNode(description, subnodes, dependencies)`. */
  function NewMetaNode(description: Value, subnodes: Value, dependencies: Value, count: nat): (r: Result<Node>)
    ensures r.Ok? ==> r.value.kind == MetaNode && ChildrenBefore(r.value, count)
  {
    var e := PTuple([]);
    var node :- NewNode(description, PInt(1), e, e, e, e, e, subnodes, dependencies, count, {});
    Ok(node.(kind := MetaNode))
  }

  /** A MetaNode has one thread and no files of its own, and is refused
      only for its description, subnodes or dependencies. */
  lemma MetaNodeShape(description: Value, subnodes: Value, dependencies: Value, count: nat)
    ensures var r := NewMetaNode(description, subnodes, dependencies, count);
      (r.Ok? <==> ValidateDescription(description).Ok? && CollectNodes(subnodes, count).Ok? && CollectNodes(dependencies, count).Ok?) &&
      (r.Ok? ==> r.value.threads == 1 && r.value.inputFiles == {} && r.value.outputFiles == {} &&
                 r.value.executables == {} && r.value.auxiliaryFiles == {} && r.value.requirements == {})
  {
    var r := NewMetaNode(description, subnodes, dependencies, count);
    if r.Ok? {
      var e := PTuple([]);
      assert SafeCoerceToTuple(e) == [];
      assert forall f :: f !in r.value.inputFiles;
      assert forall f :: f !in r.value.outputFiles;
      assert forall f :: f !in r.value.executables;
      assert forall f :: f !in r.value.auxiliaryFiles;
      assert forall x :: x !in r.value.requirements;
    }
  }

  // ---------------------------------------------------------------------
  // is_done and is_outdated

  /** `node.is_done`: a MetaNode raises MetaNodeError; otherwise the
      subnodes are asked in order, the first not done (or raising) decides,
      and then every output file must exist. */
  function IsDone(g: Graph, fs: FsView, id: nat): Result<bool>
    requires ValidGraph(g) && id < |g|
    decreases id, 1
  {
    if g[id].kind.MetaNode? then Err(MetaNodeError)
    else
      match SubnodesDone(g, fs, id, 0)
      case Err(e) => Err(e)
      case Ok(false) => Ok(false)
      case Ok(true) => Ok(MissingFiles(fs, g[id].outputFiles) == {})
  }

  /** `all(node.is_done for node in subnodes[i:])`. */
  function SubnodesDone(g: Graph, fs: FsView, id: nat, i: nat): Result<bool>
    requires ValidGraph(g) && id < |g| && i <= |g[id].subnodes|
    decreases id, 0, |g[id].subnodes| - i
  {
    if i == |g[id].subnodes| then Ok(true)
    else
      var s := g[id].subnodes[i];
      match IsDone(g, fs, s)
      case Err(e) => Err(e)
      case Ok(false) => Ok(false)
      case Ok(true) => SubnodesDone(g, fs, id, i + 1)
  }

  lemma {:induction false} SubnodesDoneMeaning(g: Graph, fs: FsView, id: nat, i: nat)
    requires ValidGraph(g) && id < |g| && i <= |g[id].subnodes|
    ensures var subs := g[id].subnodes;
      (SubnodesDone(g, fs, id, i) == Ok(true) <==> forall j :: i <= j < |subs| ==> IsDone(g, fs, subs[j]) == Ok(true)) &&
      (SubnodesDone(g, fs, id, i) == Ok(false) ==> exists j :: i <= j < |subs| && IsDone(g, fs, subs[j]) == Ok(false)) &&
      (SubnodesDone(g, fs, id, i).Err? ==> exists j :: i <= j < |subs| && IsDone(g, fs, subs[j]) == Err(SubnodesDone(g, fs, id, i).error))
    decreases |g[id].subnodes| - i
  {
    if i < |g[id].subnodes| {
      SubnodesDoneMeaning(g, fs, id, i + 1);
    }
  }

  /** A node is done exactly when it is not a MetaNode, every subnode is
      done, and no output file is missing; a node that is not done either
      has a subnode that is not done or lacks an output file. */
  lemma IsDoneMeaning(g: Graph, fs: FsView, id: nat)
    requires ValidGraph(g) && id < |g|
    ensures IsDone(g, fs, id) == Ok(true) <==>
      !g[id].kind.MetaNode? &&
      (forall j :: 0 <= j < |g[id].subnodes| ==> IsDone(g, fs, g[id].subnodes[j]) == Ok(true)) &&
      (forall f :: f in g[id].outputFiles ==> fs.Exists(f))
    ensures IsDone(g, fs, id) == Ok(false) ==>
      (exists j :: 0 <= j < |g[id].subnodes| && IsDone(g, fs, g[id].subnodes[j]) == Ok(false)) ||
      (exists f :: f in g[id].outputFiles && !fs.Exists(f))
    ensures IsDone(g, fs, id).Err? ==> IsNodeError(IsDone(g, fs, id).error)
    decreases id
  {
    SubnodesDoneMeaning(g, fs, id, 0);
    var n := g[id];
    if IsDone(g, fs, id) == Ok(false) && SubnodesDone(g, fs, id, 0) == Ok(true) {
      var f :| f in MissingFiles(fs, n.outputFiles);
    }
    if SubnodesDone(g, fs, id, 0).Err? && !n.kind.MetaNode? {
      var j :| 0 <= j < |n.subnodes| && IsDone(g, fs, n.subnodes[j]) == Err(SubnodesDone(g, fs, id, 0).error);
      IsDoneMeaning(g, fs, n.subnodes[j]);
    }
  }

  /** A node that is not a MetaNode and has neither subnodes nor output
      files is always done. */
  lemma LeafWithoutOutputsIsDone(g: Graph, fs: FsView, id: nat)
    requires ValidGraph(g) && id < |g|
    requires !g[id].kind.MetaNode? && g[id].subnodes == [] && g[id].outputFiles == {}
    ensures IsDone(g, fs, id) == Ok(true)
  {
    IsDoneMeaning(g, fs, id);
  }

  /** `node.is_outdated`: false unless done with both input and output
      files; then whether some input is newer than some output. */
  function IsOutdated(g: Graph, fs: FsView, id: nat): (r: Result<bool>)
    requires ValidGraph(g) && id < |g|
    ensures g[id].kind.MetaNode? ==> r == Err(MetaNodeError)
    ensures r == Ok(true) ==> IsDone(g, fs, id) == Ok(true)
  {
    var n := g[id];
    if n.kind.MetaNode? then Err(MetaNodeError)
    else
      match IsDone(g, fs, id)
      case Err(e) => Err(e)
      case Ok(false) => Ok(false)
      case Ok(true) =>
        if n.inputFiles == {} || n.outputFiles == {} then Ok(false)
        else ModifiedAfter(fs, n.inputFiles, n.outputFiles)
  }

  /** A done node with inputs and outputs is outdated exactly when one of
      its inputs is strictly newer than one of its outputs (an input that
      does not exist raises OSError); a node without inputs or without
      outputs, or one that is not done, never is. */
  lemma IsOutdatedMeaning(g: Graph, fs: FsView, id: nat)
    requires ValidGraph(g) && id < |g|
    ensures var n := g[id];
      IsDone(g, fs, id) == Ok(true) && n.inputFiles != {} && n.outputFiles != {} ==>
        (n.inputFiles <= fs.entries.Keys ==>
          (IsOutdated(g, fs, id) == Ok(true) <==>
            exists i, o :: i in n.inputFiles && o in n.outputFiles && fs.entries[i].mtime > fs.entries[o].mtime)) &&
        (!(n.inputFiles <= fs.entries.Keys) ==> IsOutdated(g, fs, id) == Err(OSError))
    ensures IsDone(g, fs, id) == Ok(false) || g[id].inputFiles == {} || g[id].outputFiles == {} ==>
      IsOutdated(g, fs, id) == Ok(false) || IsOutdated(g, fs, id).Err?
  {
    var n := g[id];
    if IsDone(g, fs, id) == Ok(true) && n.inputFiles != {} && n.outputFiles != {} {
      IsDoneMeaning(g, fs, id);
      assert n.outputFiles <= fs.entries.Keys;
      if n.inputFiles <= fs.entries.Keys {
        ModifiedAfterSomePair(fs, n.inputFiles, n.outputFiles);
      }
    }
  }

  // ---------------------------------------------------------------------
  // run: setup, run, teardown

  /** The state a node's run acts on: the filesystem, the temporary
      directory's path and its files (name to content), and the content of
      the files at their final paths. */
  datatype World = World(fs: FsView, tempPath: string, temp: map<string, string>, contents: map<string, string>)

  /** `Node._setup`: executables, then input files, then auxiliary files
      must exist; otherwise NodeError. */
  function SetupCheck(n: Node, fs: FsView): (r: Outcome)
    ensures r.Pass? <==> (MissingExecutables(fs, n.executables) == {} &&
      MissingFiles(fs, n.inputFiles) == {} && MissingFiles(fs, n.auxiliaryFiles) == {})
    ensures r.Fail? ==> r.error == NodeError
  {
    if MissingExecutables(fs, n.executables) != {} then Fail(NodeError)
    else if MissingFiles(fs, n.inputFiles) != {} then Fail(NodeError)
    else if MissingFiles(fs, n.auxiliaryFiles) != {} then Fail(NodeError)
    else Pass
  }

  /** `CommandNode._run`: runs and joins the command; CmdNodeError when a
      return code is truthy. A plain node's `_run` does nothing. */
  function RunCheck(n: Node): (r: Outcome)
    ensures n.kind.CommandNode? ==> (r.Fail? <==> AnyFailed(RunJoin(n.kind.command)))
    ensures !n.kind.CommandNode? ==> r.Pass?
    ensures r.Fail? ==> r.error == CmdNodeError
  {
    if n.kind.CommandNode? && AnyFailed(RunJoin(n.kind.command)) then Fail(CmdNodeError) else Pass
  }

  /** The comparison at the start of `CommandNode._teardown`: a required
      file missing from the listing, then a file that is neither required
      nor optional, raise CmdNodeError. */
  function TempCheck(required: set<string>, optional: set<string>, listing: set<string>): (r: Outcome)
    ensures r.Pass? <==> required <= listing && listing <= required + optional
    ensures r.Fail? ==> r.error == CmdNodeError
  {
    if required - listing != {} then Fail(CmdNodeError)
    else if listing - (required + optional) != {} then Fail(CmdNodeError)
    else Pass
  }

  /** `Node._teardown`: every output file must exist. */
  function OutputCheck(n: Node, fs: FsView): (r: Outcome)
    ensures r.Pass? <==> forall f :: f in n.outputFiles ==> fs.Exists(f)
    ensures r.Fail? ==> r.error == NodeError
  {
    if MissingFiles(fs, n.outputFiles) != {} then
      assert exists f :: f in MissingFiles(fs, n.outputFiles);
      Fail(NodeError)
    else Pass
  }

  /** The files a commit creates appear in the filesystem, stamped `now`. */
  function AddFiles(fs: FsView, paths: set<string>, now: int): FsView
  {
    fs.(entries := fs.entries + map p | p in paths :: Entry(false, now))
  }

  function CommandDestinations(c: Command): set<string>
  {
    set a, p | a in Atoms(c) && p in a.Destinations() :: p
  }

  /** `CommandNode._teardown`, with the command's temporary files as the
      union over its AtomicCmds: nothing is committed unless the listing
      passes; then the commit, then the base teardown. */
  function Teardown(n: Node, w: World, now: int): (r: (Outcome, World))
    ensures r.0.Fail? ==> r.0.error in {CmdNodeError, CmdError, NodeError}
    ensures (n.kind.CommandNode? &&
      TempCheck(ExpectedTempFiles(n.kind.command), OptionalTempFiles(n.kind.command), w.temp.Keys).Fail?) ==>
      r == (Fail(CmdNodeError), w)
  {
    if n.kind.CommandNode? then
      var c := n.kind.command;
      match TempCheck(ExpectedTempFiles(c), OptionalTempFiles(c), w.temp.Keys)
      case Fail(e) => (Fail(e), w)
      case Pass =>
        match Commit(c, Dirs(w.temp, w.contents))
        case Err(e) => (Fail(e), w)
        case Ok(d) =>
          var w' := World(AddFiles(w.fs, CommandDestinations(c), now), w.tempPath, d.temp, d.files);
          (OutputCheck(n, w'.fs), w')
    else (OutputCheck(n, w.fs), w)
  }

  /** `CommandNode._teardown` as written: the temporary-file properties
      are read from the command, which a ParallelCmds or SequentialCmds
      does not have (AttributeError). */
  function TeardownAsWritten(n: Node, w: World, now: int): (r: (Outcome, World))
  {
    if n.kind.CommandNode? && TempFilesAsWritten(n.kind.command).Err? then
      (Fail(TempFilesAsWritten(n.kind.command).error), w)
    else Teardown(n, w, now)
  }

  /** How `run` reports an exception: a NodeError passes unchanged, any
      other becomes NodeUnhandledException. */
  function Wrap(e: ErrorKind): (r: ErrorKind)
    ensures IsNodeError(r)
    ensures IsNodeError(e) ==> r == e
    ensures !IsNodeError(e) ==> r == NodeUnhandledException
  {
    if IsNodeError(e) then e else NodeUnhandledException
  }

  /** `os.rmdir(temp)`: fails (OSError) on a directory that is not empty. */
  function RemoveTemp(w: World): (Outcome, World)
  {
    if w.temp != map[] then (Fail(OSError), w)
    else (Pass, w.(fs := w.fs.(entries := w.fs.entries - {w.tempPath})))
  }

  /** `run` once the temporary directory exists: setup, then `_run` (after
      which the command's processes have left `produced` in the temporary
      directory), then teardown, then the directory is removed; the first
      failure ends the run and is reported through `Wrap`. */
  function Lifecycle(n: Node, w: World, produced: map<string, string>, now: int): (r: (Outcome, World))
    requires !n.kind.MetaNode?
    ensures r.0.Fail? ==> IsNodeError(r.0.error)
  {
    match SetupCheck(n, w.fs)
    case Fail(e) => (Fail(Wrap(e)), w)
    case Pass =>
      var w1 := if n.kind.CommandNode? then w.(temp := produced) else w;
      match RunCheck(n)
      case Fail(e) => (Fail(Wrap(e)), w1)
      case Pass =>
        var (t, w2) := Teardown(n, w1, now);
        if t.Fail? then (Fail(Wrap(t.error)), w2)
        else
          var (d, w3) := RemoveTemp(w2);
          if d.Fail? then (Fail(Wrap(d.error)), w3) else (Pass, w3)
  }

  lemma {:induction false} CommitAllTemp(atoms: seq<AtomicCmd>, d: Dirs)
    requires CommitAll(atoms, d).Ok?
    ensures forall f :: f in CommitAll(atoms, d).value.temp <==>
      f in d.temp && forall a :: a in atoms ==> f !in a.Required() && f !in a.tempOnly
  {
    if atoms != [] {
      var d' := CommitAtom(atoms[0], d).value;
      CommitAllTemp(atoms[1..], d');
      assert forall a :: a in atoms <==> a == atoms[0] || a in atoms[1..];
    }
  }

  lemma {:induction false} CommitAllFiles(atoms: seq<AtomicCmd>, d: Dirs)
    requires CommitAll(atoms, d).Ok?
    ensures forall p :: p in CommitAll(atoms, d).value.files <==>
      p in d.files || exists a :: a in atoms && p in a.Destinations()
  {
    if atoms != [] {
      var d' := CommitAtom(atoms[0], d).value;
      CommitAllFiles(atoms[1..], d');
      assert forall a :: a in atoms <==> a == atoms[0] || a in atoms[1..];
    }
  }

  /** What a successful run guarantees: the setup found everything, no
      return code was truthy, the command left exactly its required files
      (and perhaps optional ones), every output exists, every committed
      file is at its final path, and the temporary directory is gone. */
  lemma LifecycleSuccess(n: Node, w: World, produced: map<string, string>, now: int)
    requires !n.kind.MetaNode?
    requires Lifecycle(n, w, produced, now).0.Pass?
    ensures var w' := Lifecycle(n, w, produced, now).1;
      SetupCheck(n, w.fs).Pass? && RunCheck(n).Pass? &&
      (forall f :: f in n.outputFiles && f != w.tempPath ==> w'.fs.Exists(f)) &&
      w'.temp == map[] && w'.tempPath !in w'.fs.entries &&
      (n.kind.CommandNode? ==>
        ExpectedTempFiles(n.kind.command) <= produced.Keys <= ExpectedTempFiles(n.kind.command) + OptionalTempFiles(n.kind.command) &&
        forall p :: p in CommandDestinations(n.kind.command) ==> p in w'.contents)
  {
    if n.kind.CommandNode? {
      var c := n.kind.command;
      var w1 := w.(temp := produced);
      var d := Commit(c, Dirs(w1.temp, w1.contents)).value;
      CommitAllTemp(Atoms(c), Dirs(w1.temp, w1.contents));
      CommitAllFiles(Atoms(c), Dirs(w1.temp, w1.contents));
      forall f | f in produced ensures f !in d.temp {
        if f in ExpectedTempFiles(c) {
          var a :| a in Atoms(c) && f in a.Required();
        } else {
          var a :| a in Atoms(c) && f in a.tempOnly;
        }
      }
      assert d.temp == map[];
    }
  }

  /** The converse: a run whose setup finds everything, whose command
      returns no truthy code, whose temporary directory holds exactly the
      required files and perhaps optional ones, whose commit finds every
      required file, and whose output files exist once committed,
      succeeds. */
  lemma LifecycleSucceeds(n: Node, w: World, produced: map<string, string>, now: int)
    requires !n.kind.MetaNode? && SetupCheck(n, w.fs).Pass? && RunCheck(n).Pass?
    requires n.kind.CommandNode? ==>
      TempCheck(ExpectedTempFiles(n.kind.command), OptionalTempFiles(n.kind.command), produced.Keys).Pass? &&
      Commit(n.kind.command, Dirs(produced, w.contents)).Ok?
    requires !n.kind.CommandNode? ==> w.temp == map[]
    requires forall f :: f in n.outputFiles ==>
      w.fs.Exists(f) || (n.kind.CommandNode? && f in CommandDestinations(n.kind.command))
    ensures Lifecycle(n, w, produced, now).0 == Pass
  {
    if n.kind.CommandNode? {
      var c := n.kind.command;
      var d := Commit(c, Dirs(produced, w.contents)).value;
      CommitAllTemp(Atoms(c), Dirs(produced, w.contents));
      forall f | f in produced ensures f !in d.temp {
        if f in ExpectedTempFiles(c) {
          var a :| a in Atoms(c) && f in a.Required();
        } else {
          var a :| a in Atoms(c) && f in a.tempOnly;
        }
      }
      assert d.temp == map[];
      var fs' := AddFiles(w.fs, CommandDestinations(c), now);
      assert forall f :: f in n.outputFiles ==> fs'.Exists(f);
    }
  }

  /** When the temporary directory fails the comparison, nothing is
      committed: the final files and the temporary directory are as the
      command left them, and the run raises CmdNodeError. */
  lemma LifecycleNoCommitOnBadListing(n: Node, w: World, produced: map<string, string>, now: int)
    requires n.kind.CommandNode? && SetupCheck(n, w.fs).Pass? && RunCheck(n).Pass?
    requires TempCheck(ExpectedTempFiles(n.kind.command), OptionalTempFiles(n.kind.command), produced.Keys).Fail?
    ensures Lifecycle(n, w, produced, now) == (Fail(CmdNodeError), w.(temp := produced))
  {
  }

  /** A failing setup stops the run before the command is started. */
  lemma LifecycleSetupFirst(n: Node, w: World, produced: map<string, string>, now: int)
    requires !n.kind.MetaNode? && SetupCheck(n, w.fs).Fail?
    ensures Lifecycle(n, w, produced, now) == (Fail(NodeError), w)
  {
  }

  /** A node with a Parallel- or SequentialCmds, as written, can never
      finish a run: its teardown raises AttributeError, reported as
      NodeUnhandledException. The corrected teardown commits such a node
      (a concrete run). */
  lemma SetCommandTeardownAsWritten(n: Node, w: World, now: int)
    requires n.kind.CommandNode? && !n.kind.command.Atomic?
    ensures TeardownAsWritten(n, w, now).0 == Fail(AttributeError)
    ensures Wrap(TeardownAsWritten(n, w, now).0.error) == NodeUnhandledException
  {
  }

  lemma SetCommandTeardownCorrected()
    ensures var a := AtomicCmd([], ["/out/a"], [], [], [], [("a", "/out/a")], {}, 0, 0);
      var c := Parallel([Atomic(a)]);
      var n := Node(None, {}, {"/out/a"}, {}, {}, {}, 1, [], [], CommandNode(c));
      var w := World(FsView(map[], {}, []), "/tmp/x", map["a" := "data"], map[]);
      var r := Teardown(n, w, 5);
      r.0 == Pass && r.1.contents["/out/a"] == "data" && r.1.temp == map[]
  {
    var a := AtomicCmd([], ["/out/a"], [], [], [], [("a", "/out/a")], {}, 0, 0);
    var c := Parallel([Atomic(a)]);
    assert AtomsOf([Atomic(a)]) == Atoms(Atomic(a)) + AtomsOf([]);
    assert Atoms(c) == [a];
    assert a.outputs[0].0 == "a";
    assert a.Required() == {"a"};
    assert ExpectedTempFiles(c) == {"a"} by {
      assert forall f :: f in ExpectedTempFiles(c) ==> f in a.Required();
      assert "a" in ExpectedTempFiles(c);
    }
    assert OptionalTempFiles(c) == {};
    assert "/out/a" in a.Destinations();
    assert "/out/a" in CommandDestinations(c);
  }

  /** The filesystem and the files outside it, as `Node.run` changes them. */
  class Workspace {
    const disk: Disk
    var temp: map<string, string>
    var contents: map<string, string>
    var tempPath: string

    constructor (disk: Disk, contents: map<string, string>)
      ensures this.disk == disk && this.contents == contents && temp == map[]
    {
      this.disk := disk;
      this.contents := contents;
      temp := map[];
      tempPath := "";
    }

    /** `run(config)`: a MetaNode raises MetaNodeError; otherwise a
        temporary directory is created under `root` (the candidate names
        stand for the `uuid4()` draws) and the lifecycle runs in it. */
    method Run(n: Node, root: string, names: seq<string>, produced: map<string, string>, now: int) returns (r: Outcome)
      requires exists i :: 0 <= i < |names| && PathJoin(root, names[i]) !in disk.view.entries
      modifies this, disk
      ensures n.kind.MetaNode? ==> r == Fail(MetaNodeError)
      ensures r.Fail? ==> IsNodeError(r.error)
      ensures r.Pass? ==> (!n.kind.MetaNode? && tempPath !in old(disk.view.entries) &&
        (Pass, World(disk.view, tempPath, temp, contents)) ==
        Lifecycle(n, World(CreatedView(), tempPath, map[], old(contents)), produced, now))
    {
      if n.kind.MetaNode? {
        return Fail(MetaNodeError);
      }
      var created;
      ghost var at;
      created, at := disk.CreateTempDir(root, names, now);
      if created.Err? {
        return Fail(Wrap(created.error));
      }
      tempPath := created.value;
      temp := map[];
      r := RunInTemp(n, produced, now);
    }

    /** The filesystem just after the temporary directory was made. */
    ghost var createdView: FsView

    ghost function CreatedView(): FsView
      reads this
    {
      createdView
    }

    /** `_setup`, `_run`, `_teardown` and `os.rmdir` in the temporary
        directory `tempPath`. */
    method RunInTemp(n: Node, produced: map<string, string>, now: int) returns (r: Outcome)
      requires !n.kind.MetaNode? && temp == map[]
      modifies this, disk
      ensures tempPath == old(tempPath) && createdView == old(disk.view)
      ensures (r, World(disk.view, tempPath, temp, contents)) ==
        Lifecycle(n, World(old(disk.view), tempPath, map[], old(contents)), produced, now)
    {
      createdView := disk.view;
      ghost var w := World(disk.view, tempPath, temp, contents);
      var s := SetupCheck(n, disk.view);
      if s.Fail? {
        return Fail(Wrap(s.error));
      }
      if n.kind.CommandNode? {
        temp := produced;
      }
      var rc := RunCheck(n);
      if rc.Fail? {
        return Fail(Wrap(rc.error));
      }
      var (t, w2) := Teardown(n, World(disk.view, tempPath, temp, contents), now);
      disk.view := w2.fs;
      temp := w2.temp;
      contents := w2.contents;
      if t.Fail? {
        return Fail(Wrap(t.error));
      }
      if temp != map[] {
        return Fail(Wrap(OSError));
      }
      disk.view := disk.view.(entries := disk.view.entries - {tempPath});
      r := Pass;
    }
  }
}
