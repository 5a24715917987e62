// Command sets of pypeline/atomicset.py: ParallelCmds runs its members as one
// pipe, SequentialCmds one after another. An AtomicCmd (pypeline/atomiccmd,
// not part of this model) appears only through what the sets and the nodes
// use of it: its declared files, its temporary files, and what its process
// does once started (its exit status and the polling round at which it has
// finished).
module AtomicSets {
  import opened PyErrors
  import opened PyValues
  import opened Seqs

  /** A return code as `join` reports it: an exit status, "SIGTERM" for a
      process that was terminated, or None for one that was never started. */
  datatype Code = Exit(status: int) | SigTerm | NotRun

  /** Python truthiness of a return code. */
  predicate Failed(c: Code)
  {
    (c.Exit? && c.status != 0) || c.SigTerm?
  }

  /** `any(return_codes)`. */
  predicate AnyFailed(codes: seq<Code>)
  {
    exists i :: 0 <= i < |codes| && Failed(codes[i])
  }

  lemma AnyFailedConcat(a: seq<Code>, b: seq<Code>)
    ensures AnyFailed(a + b) <==> AnyFailed(a) || AnyFailed(b)
  {
    if AnyFailed(a + b) {
      var i :| 0 <= i < |a + b| && Failed((a + b)[i]);
      if i >= |a| { assert b[i - |a|] == (a + b)[i]; } else { assert a[i] == (a + b)[i]; }
    }
    if AnyFailed(a) {
      var i :| 0 <= i < |a| && Failed(a[i]);
      assert (a + b)[i] == a[i];
    }
    if AnyFailed(b) {
      var i :| 0 <= i < |b| && Failed(b[i]);
      assert (a + b)[|a| + i] == b[i];
    }
  }

  /** An AtomicCmd as seen from the sets and from CommandNode. The file
      sets are listed in their iteration order; `outputs` pairs each
      required temporary file with its final path, `tempOnly` names the
      optional temporary files; `exitStatus` and `finish` say what the
      process does once started. */
  datatype AtomicCmd = AtomicCmd(
    inputFiles: seq<string>,
    outputFiles: seq<string>,
    auxiliaryFiles: seq<string>,
    executables: seq<string>,
    requirements: seq<Value>,
    outputs: seq<(string, string)>,
    tempOnly: set<string>,
    exitStatus: int,
    finish: nat)
  {
    /** `expected_temp_files`. */
    function Required(): set<string>
    {
      set i | 0 <= i < |outputs| :: outputs[i].0
    }

    /** The final paths the commit writes. */
    function Destinations(): set<string>
    {
      set i | 0 <= i < |outputs| :: outputs[i].1
    }
  }

  /** A command: an AtomicCmd, one of the two sets, or any other object
      passed where a command was expected. */
  datatype Command =
    | Atomic(cmd: AtomicCmd)
    | Parallel(members: seq<Command>)
    | Sequential(members: seq<Command>)
    | Foreign(tag: nat)

  /** What ParallelCmds accepts as a member. */
  predicate ParallelMember(c: Command)
  {
    c.Atomic? || c.Parallel?
  }

  /** What SequentialCmds accepts as a member. */
  predicate SequentialMember(c: Command)
  {
    c.Atomic? || c.Parallel? || c.Sequential?
  }

  /** The command trees the two constructors build. */
  predicate WellFormed(c: Command)
  {
    match c
    case Atomic(_) => true
    case Parallel(ms) => |ms| > 0 && forall i :: 0 <= i < |ms| ==> ParallelMember(ms[i]) && WellFormed(ms[i])
    case Sequential(ms) => |ms| > 0 && forall i :: 0 <= i < |ms| ==> SequentialMember(ms[i]) && WellFormed(ms[i])
    case Foreign(_) => false
  }

  // ---------------------------------------------------------------------
  // Construction

  /** `ParallelCmds(commands)`: an empty list, or a member that is neither
      an AtomicCmd nor a ParallelCmds, raises CmdError. */
  function NewParallel(commands: seq<Command>): (r: Result<Command>)
    ensures r.Err? ==> r.error == CmdError
    ensures r.Ok? ==> r.value == Parallel(commands)
  {
    if |commands| == 0 then Err(CmdError)
    else if exists i :: 0 <= i < |commands| && !ParallelMember(commands[i]) then Err(CmdError)
    else Ok(Parallel(commands))
  }

  /** `SequentialCmds(commands)`: any command, but not an empty list and no
      other object. */
  function NewSequential(commands: seq<Command>): (r: Result<Command>)
    ensures r.Err? ==> r.error == CmdError
    ensures r.Ok? ==> r.value == Sequential(commands)
  {
    if |commands| == 0 then Err(CmdError)
    else if exists i :: 0 <= i < |commands| && !SequentialMember(commands[i]) then Err(CmdError)
    else Ok(Sequential(commands))
  }

  /** The constructors accept exactly the non-empty lists of accepted
      members, and, given well-formed members, build a well-formed set. */
  lemma NewSetsAccept(commands: seq<Command>)
    ensures NewParallel(commands).Ok? <==> |commands| > 0 && forall i :: 0 <= i < |commands| ==> ParallelMember(commands[i])
    ensures NewSequential(commands).Ok? <==> |commands| > 0 && forall i :: 0 <= i < |commands| ==> SequentialMember(commands[i])
    ensures (forall i :: 0 <= i < |commands| ==> WellFormed(commands[i])) ==>
      (NewParallel(commands).Ok? ==> WellFormed(NewParallel(commands).value)) &&
      (NewSequential(commands).Ok? ==> WellFormed(NewSequential(commands).value))
  {
  }

  /** A ParallelCmds never holds a SequentialCmds, at any depth of nesting
      the constructor checks. */
  lemma ParallelRejectsSequential(commands: seq<Command>, i: nat)
    requires i < |commands| && commands[i].Sequential?
    ensures NewParallel(commands) == Err(CmdError)
  {
  }

  // ---------------------------------------------------------------------
  // Collected properties

  /** The AtomicCmds of a command, depth first, in member order. */
  function Atoms(c: Command): seq<AtomicCmd>
    decreases c
  {
    match c
    case Atomic(a) => [a]
    case Parallel(ms) => AtomsOf(ms)
    case Sequential(ms) => AtomsOf(ms)
    case Foreign(_) => []
  }

  function AtomsOf(ms: seq<Command>): seq<AtomicCmd>
    decreases ms
  {
    if ms == [] then [] else Atoms(ms[0]) + AtomsOf(ms[1..])
  }

  /** The four file properties a set collects. */
  datatype FileKind = InputFiles | OutputFiles | AuxiliaryFiles | Executables

  function AtomFiles(a: AtomicCmd, k: FileKind): seq<string>
  {
    match k
    case InputFiles => a.inputFiles
    case OutputFiles => a.outputFiles
    case AuxiliaryFiles => a.auxiliaryFiles
    case Executables => a.executables
  }

  /** `getattr(command, key)` for a file property: an AtomicCmd's own
      value; for a set, its members' values concatenated in order. */
  function Files(c: Command, k: FileKind): seq<string>
    decreases c
  {
    match c
    case Atomic(a) => AtomFiles(a, k)
    case Parallel(ms) => MembersFiles(ms, k)
    case Sequential(ms) => MembersFiles(ms, k)
    case Foreign(_) => []
  }

  function MembersFiles(ms: seq<Command>, k: FileKind): seq<string>
    decreases ms
  {
    if ms == [] then [] else Files(ms[0], k) + MembersFiles(ms[1..], k)
  }

  /** `requirements` of a command, collected the same way. */
  function Requirements(c: Command): seq<Value>
    decreases c
  {
    match c
    case Atomic(a) => a.requirements
    case Parallel(ms) => MembersRequirements(ms)
    case Sequential(ms) => MembersRequirements(ms)
    case Foreign(_) => []
  }

  function MembersRequirements(ms: seq<Command>): seq<Value>
    decreases ms
  {
    if ms == [] then [] else Requirements(ms[0]) + MembersRequirements(ms[1..])
  }

  function FilesOfAtoms(atoms: seq<AtomicCmd>, k: FileKind): seq<string>
  {
    if atoms == [] then [] else AtomFiles(atoms[0], k) + FilesOfAtoms(atoms[1..], k)
  }

  function RequirementsOfAtoms(atoms: seq<AtomicCmd>): seq<Value>
  {
    if atoms == [] then [] else atoms[0].requirements + RequirementsOfAtoms(atoms[1..])
  }

  lemma {:induction false} FilesOfAtomsAppend(a: seq<AtomicCmd>, b: seq<AtomicCmd>, k: FileKind)
    ensures FilesOfAtoms(a + b, k) == FilesOfAtoms(a, k) + FilesOfAtoms(b, k)
  {
    if a == [] {
      assert a + b == b;
    } else {
      assert (a + b)[1..] == a[1..] + b;
      FilesOfAtomsAppend(a[1..], b, k);
    }
  }

  lemma {:induction false} RequirementsOfAtomsAppend(a: seq<AtomicCmd>, b: seq<AtomicCmd>)
    ensures RequirementsOfAtoms(a + b) == RequirementsOfAtoms(a) + RequirementsOfAtoms(b)
  {
    if a == [] {
      assert a + b == b;
    } else {
      assert (a + b)[1..] == a[1..] + b;
      RequirementsOfAtomsAppend(a[1..], b);
    }
  }

  /** However the sets are nested, a collected file property is the
      concatenation of the AtomicCmds' own values, depth first. */
  lemma {:induction false} FilesAreAtomFiles(c: Command, k: FileKind)
    ensures Files(c, k) == FilesOfAtoms(Atoms(c), k)
    decreases c
  {
    match c
    case Atomic(a) =>
    case Parallel(ms) => MembersFilesAreAtomFiles(ms, k);
    case Sequential(ms) => MembersFilesAreAtomFiles(ms, k);
    case Foreign(_) =>
  }

  lemma {:induction false} MembersFilesAreAtomFiles(ms: seq<Command>, k: FileKind)
    ensures MembersFiles(ms, k) == FilesOfAtoms(AtomsOf(ms), k)
    decreases ms
  {
    if ms != [] {
      FilesAreAtomFiles(ms[0], k);
      MembersFilesAreAtomFiles(ms[1..], k);
      FilesOfAtomsAppend(Atoms(ms[0]), AtomsOf(ms[1..]), k);
    }
  }

  /** The same for `requirements`. */
  lemma {:induction false} RequirementsAreAtomRequirements(c: Command)
    ensures Requirements(c) == RequirementsOfAtoms(Atoms(c))
    decreases c
  {
    match c
    case Atomic(a) =>
    case Parallel(ms) => MembersRequirementsAreAtomRequirements(ms);
    case Sequential(ms) => MembersRequirementsAreAtomRequirements(ms);
    case Foreign(_) =>
  }

  lemma {:induction false} MembersRequirementsAreAtomRequirements(ms: seq<Command>)
    ensures MembersRequirements(ms) == RequirementsOfAtoms(AtomsOf(ms))
    decreases ms
  {
    if ms != [] {
      RequirementsAreAtomRequirements(ms[0]);
      MembersRequirementsAreAtomRequirements(ms[1..]);
      RequirementsOfAtomsAppend(Atoms(ms[0]), AtomsOf(ms[1..]));
    }
  }

  // ---------------------------------------------------------------------
  // Temporary files (the properties CommandNode reads)

  /** `expected_temp_files` / `optional_temp_files` as written: an AtomicCmd
      has them; the sets of this module define neither, so reading them
      raises AttributeError. */
  function TempFilesAsWritten(c: Command): (r: Result<(set<string>, set<string>)>)
    ensures r.Ok? <==> c.Atomic?
  {
    match c
    case Atomic(a) => Ok((a.Required(), a.tempOnly))
    case _ => Err(AttributeError)
  }

  /** A CommandNode around a ParallelCmds cannot reach its commit: its
      teardown fails on the missing property. */
  lemma SetTempFilesMissing(a: AtomicCmd)
    ensures TempFilesAsWritten(Parallel([Atomic(a)])) == Err(AttributeError)
    ensures TempFilesAsWritten(Sequential([Atomic(a)])) == Err(AttributeError)
  {
  }

  /** The union over the AtomicCmds, as the successor module
      pypeline.atomiccmd.sets defines the two properties. */
  function ExpectedTempFiles(c: Command): set<string>
  {
    set a, f | a in Atoms(c) && f in a.Required() :: f
  }

  function OptionalTempFiles(c: Command): set<string>
  {
    set a, f | a in Atoms(c) && f in a.tempOnly :: f
  }

  /** The corrected properties agree with the AtomicCmd's own, and a set's
      are the union of its members'. */
  lemma TempFilesOfSets(c: Command, ms: seq<Command>)
    ensures c.Atomic? ==> TempFilesAsWritten(c) == Ok((ExpectedTempFiles(c), OptionalTempFiles(c)))
    ensures c == Parallel(ms) || c == Sequential(ms) ==>
      (forall f :: f in ExpectedTempFiles(c) <==> exists i :: 0 <= i < |ms| && f in ExpectedTempFiles(ms[i]))
  {
    if c.Atomic? {
      assert Atoms(c) == [c.cmd];
      assert ExpectedTempFiles(c) == c.cmd.Required() by {
        forall f | f in c.cmd.Required() ensures f in ExpectedTempFiles(c) { assert c.cmd in Atoms(c); }
      }
      assert OptionalTempFiles(c) == c.cmd.tempOnly by {
        forall f | f in c.cmd.tempOnly ensures f in OptionalTempFiles(c) { assert c.cmd in Atoms(c); }
      }
    }
    if c == Parallel(ms) || c == Sequential(ms) {
      assert Atoms(c) == AtomsOf(ms);
      AtomsOfMembers(ms);
      forall f ensures f in ExpectedTempFiles(c) <==> exists i :: 0 <= i < |ms| && f in ExpectedTempFiles(ms[i])
      {
        if f in ExpectedTempFiles(c) {
          var a :| a in Atoms(c) && f in a.Required();
          var i :| 0 <= i < |ms| && a in Atoms(ms[i]);
          assert f in ExpectedTempFiles(ms[i]);
        }
        if exists i :: 0 <= i < |ms| && f in ExpectedTempFiles(ms[i]) {
          var i :| 0 <= i < |ms| && f in ExpectedTempFiles(ms[i]);
          var a :| a in Atoms(ms[i]) && f in a.Required();
          assert a in AtomsOf(ms);
        }
      }
    }
  }

  lemma {:induction false} AtomsOfMembers(ms: seq<Command>)
    ensures forall a :: a in AtomsOf(ms) <==> exists i :: 0 <= i < |ms| && a in Atoms(ms[i])
  {
    if ms != [] {
      AtomsOfMembers(ms[1..]);
      forall a ensures a in AtomsOf(ms) <==> exists i :: 0 <= i < |ms| && a in Atoms(ms[i])
      {
        if a in AtomsOf(ms[1..]) {
          var i :| 0 <= i < |ms[1..]| && a in Atoms(ms[1..][i]);
          assert a in Atoms(ms[i + 1]);
        }
        if exists i :: 0 <= i < |ms| && a in Atoms(ms[i]) {
          var i :| 0 <= i < |ms| && a in Atoms(ms[i]);
          if i > 0 { assert ms[1..][i - 1] == ms[i]; }
        }
      }
    }
  }

  // ---------------------------------------------------------------------
  // Commit

  /** The files a commit touches: the temporary directory's listing with
      each file's content, and the final locations. */
  datatype Dirs = Dirs(temp: map<string, string>, files: map<string, string>)

  /** `AtomicCmd.commit(temp)`: when a required temporary file is missing it
      raises CmdError and moves nothing; otherwise each required file is
      renamed to its final path, in order, and the optional ones are
      removed. */
  function CommitAtom(a: AtomicCmd, d: Dirs): (r: Result<Dirs>)
    ensures r.Ok? <==> a.Required() <= d.temp.Keys
    ensures r.Ok? ==> r.value.temp == d.temp - a.Required() - a.tempOnly
    ensures r.Ok? ==> forall p :: p in r.value.files <==> p in d.files || p in a.Destinations()
    ensures r.Ok? ==> forall i :: 0 <= i < |a.outputs| && LastWriter(a.outputs, i) ==>
      a.outputs[i].1 in r.value.files && r.value.files[a.outputs[i].1] == d.temp[a.outputs[i].0]
    ensures r.Ok? ==> forall p :: p in d.files && p !in a.Destinations() ==> r.value.files[p] == d.files[p]
  {
    if !(a.Required() <= d.temp.Keys) then Err(CmdError)
    else
      assert forall i :: 0 <= i < |a.outputs| ==> a.outputs[i].0 in a.Required();
      var moved := Moved(a.outputs, d.temp);
      assert forall p :: p in moved <==> p in a.Destinations();
      Ok(Dirs(d.temp - a.Required() - a.tempOnly, d.files + moved))
  }

  /** No later pair writes the same final path as pair `i`. */
  predicate LastWriter(pairs: seq<(string, string)>, i: nat)
    requires i < |pairs|
  {
    forall j :: i < j < |pairs| ==> pairs[j].1 != pairs[i].1
  }

  /** The renames of a commit, applied in order: a final path receives the
      content of the last temporary file moved onto it. */
  function Moved(pairs: seq<(string, string)>, temp: map<string, string>): (m: map<string, string>)
    requires forall i :: 0 <= i < |pairs| ==> pairs[i].0 in temp
    ensures forall i :: 0 <= i < |pairs| ==> pairs[i].1 in m
    ensures forall p :: p in m ==> exists i :: 0 <= i < |pairs| && pairs[i].1 == p
    ensures forall i :: 0 <= i < |pairs| && LastWriter(pairs, i) ==> m[pairs[i].1] == temp[pairs[i].0]
  {
    if pairs == [] then map[]
    else
      var rest := Moved(pairs[1..], temp);
      assert forall i :: 1 <= i < |pairs| ==> pairs[i] == pairs[1..][i - 1];
      assert LastWriter(pairs, 0) ==> pairs[0].1 !in rest;
      assert forall i :: 1 <= i < |pairs| && LastWriter(pairs, i) ==> LastWriter(pairs[1..], i - 1);
      if pairs[0].1 in rest then rest else rest[pairs[0].1 := temp[pairs[0].0]]
  }

  /** `commit(temp)` of a set: every member's commit, in order. */
  function CommitAll(atoms: seq<AtomicCmd>, d: Dirs): (r: Result<Dirs>)
    ensures r.Err? ==> r.error == CmdError
  {
    if atoms == [] then Ok(d)
    else
      match CommitAtom(atoms[0], d)
      case Err(e) => Err(e)
      case Ok(d') => CommitAll(atoms[1..], d')
  }

  function Commit(c: Command, d: Dirs): (r: Result<Dirs>)
    ensures r.Err? ==> r.error == CmdError
  {
    CommitAll(Atoms(c), d)
  }

  /** When the AtomicCmds' required temporary files are distinct and all
      present, the commit of the whole set succeeds and leaves none of the
      declared temporary files behind. */
  lemma {:induction false} CommitAllSucceeds(atoms: seq<AtomicCmd>, d: Dirs)
    requires forall i :: 0 <= i < |atoms| ==> atoms[i].Required() <= d.temp.Keys
    requires forall i, j :: 0 <= i < |atoms| && 0 <= j < |atoms| && i != j ==> atoms[i].Required() !! (atoms[j].Required() + atoms[j].tempOnly)
    ensures CommitAll(atoms, d).Ok?
    ensures forall i, f :: 0 <= i < |atoms| && f in atoms[i].Required() + atoms[i].tempOnly ==> f !in CommitAll(atoms, d).value.temp
    ensures forall f :: f in CommitAll(atoms, d).value.temp ==> f in d.temp
  {
    if atoms != [] {
      var d' := CommitAtom(atoms[0], d).value;
      forall i | 0 <= i < |atoms[1..]| ensures atoms[1..][i].Required() <= d'.temp.Keys
      {
        assert atoms[1..][i] == atoms[i + 1];
        assert atoms[i + 1].Required() !! (atoms[0].Required() + atoms[0].tempOnly);
      }
      forall i, j | 0 <= i < |atoms[1..]| && 0 <= j < |atoms[1..]| && i != j
        ensures atoms[1..][i].Required() !! (atoms[1..][j].Required() + atoms[1..][j].tempOnly)
      {
        assert atoms[1..][i] == atoms[i + 1] && atoms[1..][j] == atoms[j + 1];
      }
      CommitAllSucceeds(atoms[1..], d');
      forall i, f | 0 <= i < |atoms| && f in atoms[i].Required() + atoms[i].tempOnly
        ensures f !in CommitAll(atoms, d).value.temp
      {
        if i > 0 { assert atoms[1..][i - 1] == atoms[i]; }
      }
    }
  }

  // ---------------------------------------------------------------------
  // Running: the codes a member reports

  function Max(a: nat, b: nat): nat { if a < b then b else a }

  /** The polling round from which a member of a ParallelCmds is `ready()`:
      an AtomicCmd's own, a nested set's last member's. */
  function Finish(c: Command): nat
    decreases c
  {
    match c
    case Atomic(a) => a.finish
    case Parallel(ms) => MaxFinish(ms)
    case Sequential(_) => 0
    case Foreign(_) => 0
  }

  function MaxFinish(ms: seq<Command>): (r: nat)
    ensures forall i :: 0 <= i < |ms| ==> Finish(ms[i]) <= r
    decreases ms
  {
    if ms == [] then 0
    else
      var rest := MaxFinish(ms[1..]);
      assert forall i :: 1 <= i < |ms| ==> ms[i] == ms[1..][i - 1];
      Max(Finish(ms[0]), rest)
  }

  /** `join()` of a member that is already ready: the exit status of an
      AtomicCmd; for a nested ParallelCmds, whose members are then all
      ready, their codes in order. */
  function FullCodes(c: Command): seq<Code>
    decreases c
  {
    match c
    case Atomic(a) => [Exit(a.exitStatus)]
    case Parallel(ms) => MembersFullCodes(ms)
    case Sequential(_) => []
    case Foreign(_) => []
  }

  function MembersFullCodes(ms: seq<Command>): seq<Code>
    decreases ms
  {
    if ms == [] then [] else FullCodes(ms[0]) + MembersFullCodes(ms[1..])
  }

  /** A ready member reports exit statuses only. */
  lemma {:induction false} FullCodesAreExits(c: Command)
    ensures forall i :: 0 <= i < |FullCodes(c)| ==> FullCodes(c)[i].Exit?
    decreases c
  {
    match c
    case Atomic(_) =>
    case Parallel(ms) => MembersFullCodesAreExits(ms);
    case Sequential(_) =>
    case Foreign(_) =>
  }

  lemma {:induction false} MembersFullCodesAreExits(ms: seq<Command>)
    ensures forall i :: 0 <= i < |MembersFullCodes(ms)| ==> MembersFullCodes(ms)[i].Exit?
    decreases ms
  {
    if ms != [] {
      FullCodesAreExits(ms[0]);
      MembersFullCodesAreExits(ms[1..]);
    }
  }

  /** A slot of `return_codes` in ParallelCmds.join: None while the member
      is still being waited for. */
  type Slot = Option<seq<Code>>

  function SlotCodes(s: Slot): seq<Code>
  {
    if s.None? then [NotRun] else s.value
  }

  /** `sum(return_codes, [])`. */
  function Codes(slots: seq<Slot>): seq<Code>
  {
    if slots == [] then [] else SlotCodes(slots[0]) + Codes(slots[1..])
  }

  predicate AllDecided(slots: seq<Slot>)
  {
    forall j :: 0 <= j < |slots| ==> slots[j].Some?
  }

  /** The polling loop of `ParallelCmds.join` after `run`, at round `t`,
      about to look at member `i`: a ready member is joined; one that is
      not ready is terminated (and reported as SIGTERM) once some code
      already collected is truthy; the loop ends when every member has
      been dealt with. */
  function Sweep(ms: seq<Command>, t: nat, i: nat, slots: seq<Slot>): (r: seq<Slot>)
    requires |slots| == |ms| && i <= |ms| && t <= MaxFinish(ms)
    requires t == MaxFinish(ms) ==> forall j :: 0 <= j < i ==> slots[j].Some?
    ensures |r| == |ms| && AllDecided(r)
    decreases MaxFinish(ms) - t, |ms| - i
  {
    if i == |ms| then
      if AllDecided(slots) then slots
      else Sweep(ms, t + 1, 0, slots)
    else if slots[i].Some? then Sweep(ms, t, i + 1, slots)
    else if Finish(ms[i]) <= t then Sweep(ms, t, i + 1, slots[i := Some(FullCodes(ms[i]))])
    else if AnyFailed(Codes(slots)) then Sweep(ms, t, i + 1, slots[i := Some([SigTerm])])
    else Sweep(ms, t, i + 1, slots)
  }

  function Pending(n: nat): (r: seq<Slot>)
    ensures |r| == n && forall j :: 0 <= j < n ==> r[j].None?
  {
    seq(n, _ => None)
  }

  /** What each member of a ParallelCmds reports from `join()` after `run()`. */
  function ParallelOutcome(ms: seq<Command>): (r: seq<seq<Code>>)
    ensures |r| == |ms|
  {
    var slots := Sweep(ms, 0, 0, Pending(|ms|));
    seq(|ms|, j requires 0 <= j < |ms| => slots[j].value)
  }

  /** `NotRun` reported once per member by `join()` before `run()`. */
  function NotRuns(n: nat): (r: seq<Code>)
    ensures |r| == n && forall j :: 0 <= j < n ==> r[j] == NotRun
  {
    seq(n, _ => NotRun)
  }

  lemma {:induction false} CodesFailed(slots: seq<Slot>)
    ensures AnyFailed(Codes(slots)) <==> exists k :: 0 <= k < |slots| && slots[k].Some? && AnyFailed(slots[k].value)
  {
    if slots != [] {
      CodesFailed(slots[1..]);
      AnyFailedConcat(SlotCodes(slots[0]), Codes(slots[1..]));
      assert !AnyFailed([NotRun]);
      if exists k :: 1 <= k < |slots| && slots[k].Some? && AnyFailed(slots[k].value) {
        var k :| 1 <= k < |slots| && slots[k].Some? && AnyFailed(slots[k].value);
        assert slots[1..][k - 1] == slots[k];
      }
    }
  }

  /** The state of the polling loop: a member was joined and reports its
      own codes, or was terminated after a failing member had reported. */
  predicate FailureRecorded(ms: seq<Command>, slots: seq<Slot>)
    requires |slots| == |ms|
  {
    exists k :: 0 <= k < |ms| && slots[k] == Some(FullCodes(ms[k])) && AnyFailed(FullCodes(ms[k]))
  }

  predicate Sound(ms: seq<Command>, slots: seq<Slot>)
    requires |slots| == |ms|
  {
    forall j :: 0 <= j < |ms| && slots[j].Some? ==>
      slots[j].value == FullCodes(ms[j]) ||
      (slots[j].value == [SigTerm] && Finish(ms[j]) > 0 && FailureRecorded(ms, slots))
  }

  lemma FailureRecordedKept(ms: seq<Command>, slots: seq<Slot>, i: nat, v: seq<Code>)
    requires |slots| == |ms| && i < |ms| && slots[i].None?
    requires FailureRecorded(ms, slots)
    ensures FailureRecorded(ms, slots[i := Some(v)])
  {
    var k :| 0 <= k < |ms| && slots[k] == Some(FullCodes(ms[k])) && AnyFailed(FullCodes(ms[k]));
    assert slots[i := Some(v)][k] == slots[k];
  }

  lemma {:induction false} SweepSound(ms: seq<Command>, t: nat, i: nat, slots: seq<Slot>)
    requires |slots| == |ms| && i <= |ms| && t <= MaxFinish(ms)
    requires t == MaxFinish(ms) ==> forall j :: 0 <= j < i ==> slots[j].Some?
    requires Sound(ms, slots)
    ensures Sound(ms, Sweep(ms, t, i, slots))
    decreases MaxFinish(ms) - t, |ms| - i
  {
    if i == |ms| {
      if !AllDecided(slots) { SweepSound(ms, t + 1, 0, slots); }
    } else if slots[i].Some? {
      SweepSound(ms, t, i + 1, slots);
    } else if Finish(ms[i]) <= t {
      var s' := slots[i := Some(FullCodes(ms[i]))];
      forall j | 0 <= j < |ms| && s'[j].Some?
        ensures s'[j].value == FullCodes(ms[j]) || (s'[j].value == [SigTerm] && Finish(ms[j]) > 0 && FailureRecorded(ms, s'))
      {
        if j != i && s'[j].value != FullCodes(ms[j]) { FailureRecordedKept(ms, slots, i, FullCodes(ms[i])); }
      }
      SweepSound(ms, t, i + 1, s');
    } else if AnyFailed(Codes(slots)) {
      var s' := slots[i := Some([SigTerm])];
      CodesFailed(slots);
      var k :| 0 <= k < |slots| && slots[k].Some? && AnyFailed(slots[k].value);
      assert FailureRecorded(ms, slots) by {
        if slots[k].value != FullCodes(ms[k]) { assert FailureRecorded(ms, slots); }
      }
      FailureRecordedKept(ms, slots, i, [SigTerm]);
      SweepSound(ms, t, i + 1, s');
    } else {
      SweepSound(ms, t, i + 1, slots);
    }
  }

  /** `ParallelCmds.join()` after `run()`: every member reports either its
      own codes or SIGTERM; a member ready at the first poll is never
      terminated; SIGTERM appears only once a member has failed; and the
      set fails exactly when one of its members fails. */
  lemma ParallelOutcomeMeaning(ms: seq<Command>)
    ensures forall j :: 0 <= j < |ms| ==>
      ParallelOutcome(ms)[j] == FullCodes(ms[j]) || (ParallelOutcome(ms)[j] == [SigTerm] && Finish(ms[j]) > 0)
    ensures (forall j :: 0 <= j < |ms| ==> !AnyFailed(FullCodes(ms[j]))) ==>
      forall j :: 0 <= j < |ms| ==> ParallelOutcome(ms)[j] == FullCodes(ms[j])
    ensures (exists j :: 0 <= j < |ms| && AnyFailed(ParallelOutcome(ms)[j])) <==>
      (exists j :: 0 <= j < |ms| && AnyFailed(FullCodes(ms[j])))
  {
    var slots := Sweep(ms, 0, 0, Pending(|ms|));
    SweepSound(ms, 0, 0, Pending(|ms|));
    var r := ParallelOutcome(ms);
    assert forall j :: 0 <= j < |ms| ==> r[j] == slots[j].value;
    assert AnyFailed([SigTerm]) by { assert Failed([SigTerm][0]); }
    if exists j :: 0 <= j < |ms| && AnyFailed(FullCodes(ms[j])) {
      var j :| 0 <= j < |ms| && AnyFailed(FullCodes(ms[j]));
      assert AnyFailed(r[j]) by {
        if r[j] != FullCodes(ms[j]) { assert Failed(r[j][0]); }
      }
    }
    if exists j :: 0 <= j < |ms| && AnyFailed(r[j]) {
      var j :| 0 <= j < |ms| && AnyFailed(r[j]);
      if r[j] != FullCodes(ms[j]) {
        assert FailureRecorded(ms, slots);
      }
    }
  }

  /** `join()` of a command after its `run()`: an AtomicCmd's exit status,
      a ParallelCmds' polled outcome, and for a SequentialCmds the codes of
      the members it started followed by None for the rest. */
  function RunJoin(c: Command): seq<Code>
    decreases c
  {
    match c
    case Atomic(a) => [Exit(a.exitStatus)]
    case Parallel(ms) => Flatten(ParallelOutcome(ms))
    case Sequential(ms) => JoinAfter(ms, 0, RunCount(ms, 0))
    case Foreign(_) => []
  }

  /** How many members `SequentialCmds.run` starts from member `i` on: it
      stops after the first whose codes contain a truthy one. */
  function RunCount(ms: seq<Command>, i: nat): (n: nat)
    requires i <= |ms|
    ensures i <= n <= |ms|
    decreases ms, |ms| - i
  {
    if i == |ms| then i
    else if AnyFailed(RunJoin(ms[i])) then i + 1
    else RunCount(ms, i + 1)
  }

  /** `join()` of a command that was never started. */
  function BeforeRun(c: Command): seq<Code>
    decreases c
  {
    match c
    case Atomic(_) => [NotRun]
    case Parallel(ms) => NotRuns(|ms|)
    case Sequential(ms) => MembersBeforeRun(ms)
    case Foreign(_) => []
  }

  function MembersBeforeRun(ms: seq<Command>): seq<Code>
    decreases ms
  {
    if ms == [] then [] else BeforeRun(ms[0]) + MembersBeforeRun(ms[1..])
  }

  /** `SequentialCmds.join()`: the members' `join()` in order, from member
      `i` on, where the first `started` members have run. */
  function JoinAfter(ms: seq<Command>, i: nat, started: nat): seq<Code>
    requires i <= |ms|
    decreases ms, |ms| - i
  {
    if i == |ms| then []
    else (if i < started then RunJoin(ms[i]) else BeforeRun(ms[i])) + JoinAfter(ms, i + 1, started)
  }

  lemma {:induction false} NotRunNeverFails(c: Command)
    ensures !AnyFailed(BeforeRun(c))
    decreases c
  {
    match c
    case Atomic(_) =>
    case Parallel(ms) =>
    case Sequential(ms) => MembersNotRunNeverFail(ms);
    case Foreign(_) =>
  }

  lemma {:induction false} MembersNotRunNeverFail(ms: seq<Command>)
    ensures !AnyFailed(MembersBeforeRun(ms))
    decreases ms
  {
    if ms != [] {
      NotRunNeverFails(ms[0]);
      MembersNotRunNeverFail(ms[1..]);
      AnyFailedConcat(BeforeRun(ms[0]), MembersBeforeRun(ms[1..]));
    }
  }

  /** `SequentialCmds.run` starts every member up to and including the
      first failing one, and none after it. */
  lemma {:induction false} RunCountStopsAtFirstFailure(ms: seq<Command>, i: nat)
    requires i <= |ms|
    ensures forall j :: i <= j < RunCount(ms, i) - 1 ==> !AnyFailed(RunJoin(ms[j]))
    ensures RunCount(ms, i) < |ms| ==> AnyFailed(RunJoin(ms[RunCount(ms, i) - 1]))
    ensures RunCount(ms, i) == |ms| && |ms| > i ==> (forall j :: i <= j < |ms| - 1 ==> !AnyFailed(RunJoin(ms[j])))
    ensures i < |ms| ==> i < RunCount(ms, i)
    decreases |ms| - i
  {
    if i < |ms| && !AnyFailed(RunJoin(ms[i])) {
      RunCountStopsAtFirstFailure(ms, i + 1);
    }
  }

  lemma {:induction false} JoinAfterFails(ms: seq<Command>, i: nat, started: nat)
    requires i <= |ms|
    ensures AnyFailed(JoinAfter(ms, i, started)) <==> exists j :: i <= j < |ms| && j < started && AnyFailed(RunJoin(ms[j]))
    decreases |ms| - i
  {
    if i < |ms| {
      JoinAfterFails(ms, i + 1, started);
      NotRunNeverFails(ms[i]);
      var head := if i < started then RunJoin(ms[i]) else BeforeRun(ms[i]);
      AnyFailedConcat(head, JoinAfter(ms, i + 1, started));
    }
  }

  /** A SequentialCmds fails exactly when one of its members fails: members
      after the first failing one are never started and report None. */
  lemma SequentialFailsIffMemberFails(ms: seq<Command>)
    ensures AnyFailed(RunJoin(Sequential(ms))) <==> exists j :: 0 <= j < |ms| && AnyFailed(RunJoin(ms[j]))
    ensures forall j :: RunCount(ms, 0) <= j < |ms| ==> !AnyFailed(BeforeRun(ms[j]))
  {
    var n := RunCount(ms, 0);
    JoinAfterFails(ms, 0, n);
    RunCountStopsAtFirstFailure(ms, 0);
    if exists j :: 0 <= j < |ms| && AnyFailed(RunJoin(ms[j])) {
      var j :| 0 <= j < |ms| && AnyFailed(RunJoin(ms[j]));
      if j >= n {
        assert n < |ms|;
        assert AnyFailed(RunJoin(ms[n - 1]));
      }
    }
    forall j | n <= j < |ms| ensures !AnyFailed(BeforeRun(ms[j])) { NotRunNeverFails(ms[j]); }
  }

  // ---------------------------------------------------------------------
  // The two classes

  /** ParallelCmds: the members and the `_joinable` flag `run` sets. */
  class ParallelCmds {
    const commands: seq<Command>
    var joinable: bool

    constructor Init(commands: seq<Command>)
      requires NewParallel(commands).Ok?
      ensures this.commands == commands && !joinable
    {
      this.commands := commands;
      joinable := false;
    }

    /** `run(temp)`: starts every member. */
    method Run()
      modifies this
      ensures joinable
    {
      joinable := true;
    }

    /** `ready()` at polling round `t`: every member has finished. */
    predicate Ready(t: nat)
      reads this
    {
      joinable && forall i :: 0 <= i < |commands| ==> Finish(commands[i]) <= t
    }

    /** `join()`: one None per member before `run`; afterwards the polling
        loop, round by round. */
    method Join() returns (codes: seq<Code>)
      ensures !joinable ==> codes == NotRuns(|commands|)
      ensures joinable ==> codes == Flatten(ParallelOutcome(commands))
    {
      var n := |commands|;
      var slots := Pending(n);
      if !joinable {
        codes := Codes(slots);
        NotRunCodes(n);
        return;
      }
      ghost var goal := Sweep(commands, 0, 0, slots);
      var t := 0;
      var pending := n > 0;
      while pending
        invariant |slots| == n && t <= MaxFinish(commands)
        invariant pending <==> !AllDecided(slots)
        invariant pending ==> Sweep(commands, t, 0, slots) == goal
        invariant !pending ==> slots == goal
        decreases MaxFinish(commands) - t, pending
      {
        var i := 0;
        while i < n
          invariant 0 <= i <= n && |slots| == n
          invariant t == MaxFinish(commands) ==> forall j :: 0 <= j < i ==> slots[j].Some?
          invariant Sweep(commands, t, i, slots) == goal
        {
          if slots[i].None? {
            if Finish(commands[i]) <= t {
              slots := slots[i := Some(FullCodes(commands[i]))];
            } else if AnyFailed(Codes(slots)) {
              slots := slots[i := Some([SigTerm])];
            }
          }
          i := i + 1;
        }
        if AllDecided(slots) {
          pending := false;
        } else {
          t := t + 1;
        }
      }
      codes := Flatten(seq(n, j requires 0 <= j < n => slots[j].value));
    }
  }

  lemma {:induction false} NotRunCodes(n: nat)
    ensures Codes(Pending(n)) == NotRuns(n)
  {
    if n > 0 {
      assert Pending(n)[1..] == Pending(n - 1);
      NotRunCodes(n - 1);
      assert NotRuns(n) == [NotRun] + NotRuns(n - 1);
    }
  }

  /** `ParallelCmds(commands)`. */
  method NewParallelCmds(commands: seq<Command>) returns (r: Result<ParallelCmds>)
    ensures r.Err? <==> NewParallel(commands).Err?
    ensures r.Err? ==> r.error == CmdError
    ensures r.Ok? ==> fresh(r.value) && r.value.commands == commands && !r.value.joinable
  {
    if NewParallel(commands).Err? {
      return Err(CmdError);
    }
    var p := new ParallelCmds.Init(commands);
    return Ok(p);
  }

  /** SequentialCmds: the members, the `_ready` flag, and how many members
      `run` has started (the state the members' own processes keep). */
  class SequentialCmds {
    const commands: seq<Command>
    var ready: bool
    var started: nat

    constructor Init(commands: seq<Command>)
      requires NewSequential(commands).Ok?
      ensures this.commands == commands && !ready && started == 0
    {
      this.commands := commands;
      ready := false;
      started := 0;
    }

    /** `run(temp)`: runs and joins each member in turn, and stops after
        the first that reports a truthy code; then `ready()` holds. */
    method Run()
      modifies this
      ensures ready && started == RunCount(commands, 0)
    {
      var i := 0;
      while i < |commands|
        invariant 0 <= i <= |commands|
        invariant RunCount(commands, i) == RunCount(commands, 0)
      {
        var codes := RunJoin(commands[i]);
        if AnyFailed(codes) {
          i := i + 1;
          break;
        }
        i := i + 1;
      }
      started := i;
      ready := true;
    }

    /** `join()`: the members' codes concatenated in order. */
    method Join() returns (codes: seq<Code>)
      ensures codes == JoinAfter(commands, 0, started)
    {
      codes := [];
      var i := |commands|;
      while i > 0
        invariant 0 <= i <= |commands|
        invariant codes == JoinAfter(commands, i, started)
      {
        i := i - 1;
        var member := if i < started then RunJoin(commands[i]) else BeforeRun(commands[i]);
        codes := member + codes;
      }
    }
  }

  /** `SequentialCmds(commands)`. */
  method NewSequentialCmds(commands: seq<Command>) returns (r: Result<SequentialCmds>)
    ensures r.Err? <==> NewSequential(commands).Err?
    ensures r.Err? ==> r.error == CmdError
    ensures r.Ok? ==> fresh(r.value) && r.value.commands == commands && !r.value.ready && r.value.started == 0
  {
    if NewSequential(commands).Err? {
      return Err(CmdError);
    }
    var s := new SequentialCmds.Init(commands);
    return Ok(s);
  }
}
