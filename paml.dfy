// The codeml stage of pypeline/tools/phylo_pipeline/parts/paml.py:
// `FastaToPAMLPhyNode._run`, which writes an alignment in the sequential
// PHYLIP layout codeml reads; the postfixes `build_codeml_nodes` derives from
// the filtering and alignment settings; and the substitutions
// `CodemlNode._update_ctl_file` makes in the control file template.
module Paml {
  import opened PyErrors
  import opened Seqs
  import PyText
  import Fasta
  import Msa
  import Utilities
  import NodeFormats
  import FileUtils

  // ---------------------------------------------------------------------
  // FastaToPAMLPhyNode._run

  /** Bases per sequence line. */
  const LineWidth: nat := 60
  /** Bases per space-separated group. */
  const CodonWidth: nat := 3

  /** `" ".join(fragment(3, line))`. */
  function CodonLine(chunk: string): string
  {
    PyText.Join(" ", Utilities.Fragment(CodonWidth, chunk).value)
  }

  /** `fragment(60, seq.upper())`. */
  function Chunks(sequence: string): seq<string>
  {
    Utilities.Fragment(LineWidth, PyText.Upper(sequence)).value
  }

  function CodonLines(chunks: seq<string>): (r: seq<string>)
    ensures |r| == |chunks| && forall i :: 0 <= i < |chunks| ==> r[i] == CodonLine(chunks[i])
  {
    seq(|chunks|, i requires 0 <= i < |chunks| => CodonLine(chunks[i]))
  }

  /** The lines written for one sequence: an empty line, the name, then the
      bases. */
  function Block(msa: Msa.Alignment, name: string): seq<string>
    requires name in msa
  {
    ["", name] + CodonLines(Chunks(msa[name]))
  }

  function Blocks(msa: Msa.Alignment, names: seq<string>): seq<string>
    requires forall i :: 0 <= i < |names| ==> names[i] in msa
  {
    if |names| == 0 then [] else Block(msa, names[0]) + Blocks(msa, names[1..])
  }

  /** `"  %i %i" % (number of sequences, alignment length)`. */
  function Header(count: nat, width: nat): string
  {
    "  " + PyText.IntToString(count) + " " + PyText.IntToString(width)
  }

  /** The lines written for a non-empty alignment whose sequences share one
      length, in sorted name order. */
  function PamlLines(msa: Msa.Alignment): seq<string>
    requires msa != map[] && Msa.UniformLength(msa)
  {
    var names := PyText.SortedSet(msa.Keys);
    [Header(|msa|, |msa[names[0]]|)] + Blocks(msa, names)
  }

  /** The alignment once the excluded groups are popped. */
  lemma KeptUniform(msa: Msa.Alignment, excluded: seq<string>)
    requires Msa.WellFormed(msa)
    ensures NodeFormats.RemoveGroups(msa, excluded).Ok? ==>
      Msa.UniformLength(NodeFormats.RemoveGroups(msa, excluded).value)
  {
  }

  /** What `_run` computes from the alignment `read_msa` returns: KeyError
      when an excluded group is absent (or named twice), StopIteration when
      no sequence is left to take the length from, and otherwise the lines. */
  function PamlRun(msa: Msa.Alignment, excluded: seq<string>): Result<seq<string>>
    requires Msa.WellFormed(msa)
  {
    var kept := NodeFormats.RemoveGroups(msa, excluded);
    KeptUniform(msa, excluded);
    if kept.Err? then Err(kept.error)
    else if kept.value == map[] then Err(StopIteration)
    else Ok(PamlLines(kept.value))
  }

  /** What is written to the output file. */
  function Written(r: Result<seq<string>>): Result<string>
  {
    if r.Err? then Err(r.error) else Ok(PyText.Join("\n", r.value))
  }

  /** The lines `read_msa` accepts: FASTA records with distinct names making
      a well-formed alignment. */
  predicate Readable(lines: seq<string>)
  {
    Fasta.ParseFasta(lines).Ok? && Msa.DistinctNames(Fasta.ParseFasta(lines).value) &&
    Msa.WellFormed(Msa.Sequences(Fasta.ParseFasta(lines).value))
  }

  function ReadAlignment(lines: seq<string>): Msa.Alignment
    requires Readable(lines)
  {
    Msa.Sequences(Fasta.ParseFasta(lines).value)
  }

  lemma {:induction false} BlocksSnoc(msa: Msa.Alignment, names: seq<string>, name: string)
    requires forall i :: 0 <= i < |names| ==> names[i] in msa
    requires name in msa
    ensures Blocks(msa, names + [name]) == Blocks(msa, names) + Block(msa, name)
  {
    if |names| == 0 {
      assert Blocks(msa, [name]) == Block(msa, name) + Blocks(msa, []);
    } else {
      assert (names + [name])[1..] == names[1..] + [name];
      BlocksSnoc(msa, names[1..], name);
    }
  }

  /** `FastaToPAMLPhyNode._run`: read the alignment, then write its lines. */
  method FastaToPamlPhy(fastaLines: seq<string>, excluded: seq<string>) returns (r: Result<string>)
    ensures !Readable(fastaLines) ==> r.Err? && (r.error == FASTAError || r.error == MSAError)
    ensures Readable(fastaLines) ==> r == Written(PamlRun(ReadAlignment(fastaLines), excluded))
  {
    var read := Msa.ParseMsa(fastaLines);
    if read.Err? {
      return Err(read.error);
    }
    var lines := PhyLines(read.value.0, excluded);
    r := if lines.Err? then Err(lines.error) else Ok(PyText.Join("\n", lines.value));
  }

  /** The body of `_run` after `read_msa`: pop the excluded groups, then
      append the header and each sequence's block to `lines`. */
  method PhyLines(msa: Msa.Alignment, excluded: seq<string>) returns (r: Result<seq<string>>)
    requires Msa.WellFormed(msa)
    ensures r == PamlRun(msa, excluded)
  {
    var popped := NodeFormats.PopGroups(msa, excluded);
    if popped.Err? {
      return Err(popped.error);
    }
    var kept := popped.value;
    KeptUniform(msa, excluded);
    if kept == map[] {
      return Err(StopIteration);
    }
    var first :| first in kept;
    var names := PyText.SortedSet(kept.Keys);
    assert |kept[first]| == |kept[names[0]]|;
    var header := Header(|kept|, |kept[first]|);
    var lines := AppendBlocks([header], kept, names);
    r := Ok(lines);
  }

  /** The loop of `_run` over the sorted names: append an empty line, the
      name and the lines of bases of each. */
  method AppendBlocks(lines: seq<string>, msa: Msa.Alignment, names: seq<string>) returns (r: seq<string>)
    requires forall i :: 0 <= i < |names| ==> names[i] in msa
    ensures r == lines + Blocks(msa, names)
  {
    r := lines;
    for i := 0 to |names|
      invariant r == lines + Blocks(msa, names[..i])
    {
      var before := r;
      var started := r + ["", names[i]];
      r := AppendSequence(started, msa[names[i]]);
      AppendBlocksStep(lines, msa, names, i, before, started, r);
    }
    assert names[..|names|] == names;
  }

  lemma AppendBlocksStep(lines: seq<string>, msa: Msa.Alignment, names: seq<string>, i: nat,
                         before: seq<string>, started: seq<string>, after: seq<string>)
    requires i < |names| && forall k :: 0 <= k < |names| ==> names[k] in msa
    requires before == lines + Blocks(msa, names[..i])
    requires started == before + ["", names[i]]
    requires after == started + CodonLines(Chunks(msa[names[i]]))
    ensures after == lines + Blocks(msa, names[..i + 1])
  {
    assert names[..i + 1] == names[..i] + [names[i]];
    BlocksSnoc(msa, names[..i], names[i]);
    AppendAssoc(before, ["", names[i]], CodonLines(Chunks(msa[names[i]])), Block(msa, names[i]), started, after);
    AppendAssoc(lines, Blocks(msa, names[..i]), Block(msa, names[i]), Blocks(msa, names[..i + 1]), before, after);
  }

  lemma AppendAssoc<T>(lines: seq<T>, x: seq<T>, y: seq<T>, z: seq<T>, before: seq<T>, after: seq<T>)
    requires before == lines + x && after == before + y && z == x + y
    ensures after == lines + z
  {
  }

  /** The inner loop of `_run`: append the lines of bases of one sequence. */
  method AppendSequence(lines: seq<string>, sequence: string) returns (r: seq<string>)
    ensures r == lines + CodonLines(Chunks(sequence))
  {
    var chunks := Utilities.Fragment(LineWidth, PyText.Upper(sequence)).value;
    r := lines;
    for j := 0 to |chunks|
      invariant r == lines + CodonLines(chunks[..j])
    {
      assert CodonLines(chunks[..j + 1]) == CodonLines(chunks[..j]) + [CodonLine(chunks[j])];
      r := r + [CodonLine(chunks[j])];
    }
    assert chunks[..|chunks|] == chunks;
  }

  // A reader for the layout: the header line, then for each sequence an
  // empty line, its name, and the lines of bases up to the next empty line.

  /** The number of leading lines that are not empty. */
  function SequenceLineCount(lines: seq<string>): (n: nat)
    ensures n <= |lines|
  {
    if |lines| == 0 || lines[0] == "" then 0 else 1 + SequenceLineCount(lines[1..])
  }

  /** The bases of sequence lines, the spaces between the groups dropped. */
  function Bases(lines: seq<string>): string
  {
    if |lines| == 0 then "" else Flatten(PyText.SplitOn(lines[0], ' ')) + Bases(lines[1..])
  }

  /** The (name, sequence) records of the lines after the header, or None
      when they do not follow the layout. */
  function ReadBlocks(lines: seq<string>): Option<seq<(string, string)>>
    decreases |lines|
  {
    if |lines| == 0 then Some([])
    else if |lines| < 2 || lines[0] != "" then None
    else
      var body := lines[2..];
      var n := SequenceLineCount(body);
      var rest := ReadBlocks(body[n..]);
      if rest.None? then None else Some([(lines[1], Bases(body[..n]))] + rest.value)
  }

  /** The records an alignment should read back as, in `names` order. */
  function Records(msa: Msa.Alignment, names: seq<string>): (r: seq<(string, string)>)
    requires forall i :: 0 <= i < |names| ==> names[i] in msa
    ensures |r| == |names|
    ensures forall i :: 0 <= i < |names| ==> r[i] == (names[i], PyText.Upper(msa[names[i]]))
  {
    seq(|names|, i requires 0 <= i < |names| => (names[i], PyText.Upper(msa[names[i]])))
  }

  /** A line of bases splits on spaces into the groups of three, which
      together give back the bases. */
  lemma CodonLineSplits(chunk: string)
    requires |chunk| > 0 && ' ' !in chunk
    ensures PyText.SplitOn(CodonLine(chunk), ' ') == Utilities.Fragment(CodonWidth, chunk).value
    ensures Flatten(PyText.SplitOn(CodonLine(chunk), ' ')) == chunk
    ensures CodonLine(chunk) != ""
  {
    var parts := Utilities.Fragment(CodonWidth, chunk).value;
    assert |parts| >= 1;
    forall i | 0 <= i < |parts|
      ensures ' ' !in parts[i]
    {
      if ' ' in parts[i] {
        var j :| 0 <= j < |parts[i]| && parts[i][j] == ' ';
        Fasta.FlattenHas(parts, i, j);
      }
    }
    PyText.SplitOnJoin(parts, ' ');
    if |parts| > 1 {
      assert CodonLine(chunk) == parts[0] + " " + PyText.Join(" ", parts[1..]);
    }
  }

  lemma {:induction false} BasesOfCodonLines(chunks: seq<string>)
    requires forall i :: 0 <= i < |chunks| ==> |chunks[i]| > 0 && ' ' !in chunks[i]
    ensures Bases(CodonLines(chunks)) == Flatten(chunks)
    ensures forall i :: 0 <= i < |chunks| ==> CodonLines(chunks)[i] != ""
  {
    if |chunks| > 0 {
      CodonLineSplits(chunks[0]);
      assert CodonLines(chunks)[1..] == CodonLines(chunks[1..]);
      BasesOfCodonLines(chunks[1..]);
      forall i | 0 <= i < |chunks|
        ensures CodonLines(chunks)[i] != ""
      {
        CodonLineSplits(chunks[i]);
      }
    }
  }

  lemma {:induction false} SequenceLineCountOf(prefix: seq<string>, tail: seq<string>)
    requires forall i :: 0 <= i < |prefix| ==> prefix[i] != ""
    requires |tail| == 0 || tail[0] == ""
    ensures SequenceLineCount(prefix + tail) == |prefix|
  {
    if |prefix| == 0 {
      assert prefix + tail == tail;
    } else {
      assert (prefix + tail)[1..] == prefix[1..] + tail;
      SequenceLineCountOf(prefix[1..], tail);
    }
  }

  lemma UpperNoSpace(s: string)
    requires ' ' !in s
    ensures ' ' !in PyText.Upper(s)
  {
    var u := PyText.Upper(s);
    forall i | 0 <= i < |u|
      ensures u[i] != ' '
    {
      assert u[i] == PyText.UpperChar(s[i]);
    }
  }

  /** The lines of bases of one sequence: none is empty, and they read back
      as the upper-cased sequence. */
  lemma ChunksReadBack(sequence: string)
    requires ' ' !in sequence
    ensures Bases(CodonLines(Chunks(sequence))) == PyText.Upper(sequence)
    ensures forall i :: 0 <= i < |Chunks(sequence)| ==> CodonLines(Chunks(sequence))[i] != ""
  {
    var chunks := Chunks(sequence);
    UpperNoSpace(sequence);
    forall i | 0 <= i < |chunks|
      ensures |chunks[i]| > 0 && ' ' !in chunks[i]
    {
      if ' ' in chunks[i] {
        var j :| 0 <= j < |chunks[i]| && chunks[i][j] == ' ';
        Fasta.FlattenHas(chunks, i, j);
      }
    }
    BasesOfCodonLines(chunks);
  }

  /** One block followed by more blocks (or nothing) reads as its record
      followed by theirs. */
  lemma ReadBlocksCons(name: string, lines: seq<string>, tail: seq<string>)
    requires forall i :: 0 <= i < |lines| ==> lines[i] != ""
    requires |tail| == 0 || tail[0] == ""
    ensures ReadBlocks(["", name] + (lines + tail)) ==
      if ReadBlocks(tail).None? then None else Some([(name, Bases(lines))] + ReadBlocks(tail).value)
  {
    var all := ["", name] + (lines + tail);
    SequenceLineCountOf(lines, tail);
    assert all[2..] == lines + tail;
    assert (lines + tail)[..|lines|] == lines;
    assert (lines + tail)[|lines|..] == tail;
  }

  lemma BlocksStart(msa: Msa.Alignment, names: seq<string>)
    requires forall i :: 0 <= i < |names| ==> names[i] in msa
    ensures |Blocks(msa, names)| == 0 || Blocks(msa, names)[0] == ""
  {
  }

  lemma RecordsCons(msa: Msa.Alignment, names: seq<string>)
    requires |names| > 0 && forall i :: 0 <= i < |names| ==> names[i] in msa
    ensures Records(msa, names) == [(names[0], PyText.Upper(msa[names[0]]))] + Records(msa, names[1..])
  {
  }

  /** Reading the blocks back gives each name with its upper-cased sequence,
      in the order written. */
  lemma {:induction false} ReadBlocksOfBlocks(msa: Msa.Alignment, names: seq<string>)
    requires forall i :: 0 <= i < |names| ==> names[i] in msa
    requires forall name :: name in msa ==> ' ' !in msa[name]
    ensures ReadBlocks(Blocks(msa, names)) == Some(Records(msa, names))
  {
    if |names| > 0 {
      var name := names[0];
      var lines := CodonLines(Chunks(msa[name]));
      var tail := Blocks(msa, names[1..]);
      BlocksCons(msa, names);
      ChunksReadBack(msa[name]);
      BlocksStart(msa, names[1..]);
      ReadBlocksCons(name, lines, tail);
      ReadBlocksOfBlocks(msa, names[1..]);
      RecordsCons(msa, names);
    }
  }

  lemma BlocksCons(msa: Msa.Alignment, names: seq<string>)
    requires |names| > 0 && forall i :: 0 <= i < |names| ==> names[i] in msa
    ensures Blocks(msa, names) == ["", names[0]] + (CodonLines(Chunks(msa[names[0]])) + Blocks(msa, names[1..]))
  {
  }

  /** The header splits on spaces into two empty fields and the two counts. */
  lemma HeaderFields(count: nat, width: nat)
    ensures PyText.SplitOn(Header(count, width), ' ') ==
      ["", "", PyText.NatToString(count), PyText.NatToString(width)]
    ensures PyText.DigitsValue(PyText.NatToString(count)) == count
    ensures PyText.DigitsValue(PyText.NatToString(width)) == width
  {
    var c := PyText.NatToString(count);
    var w := PyText.NatToString(width);
    var parts := ["", "", c, w];
    PyText.NoSpaceInDigits(c);
    PyText.NoSpaceInDigits(w);
    assert parts[1..][1..][1..] == [w];
    assert PyText.Join(" ", parts[1..][1..]) == c + " " + w;
    assert PyText.Join(" ", parts[1..]) == "" + " " + (c + " " + w);
    assert PyText.Join(" ", parts) == Header(count, width);
    PyText.SplitOnJoin(parts, ' ');
    PyText.DigitsValueOfNatToString(count);
    PyText.DigitsValueOfNatToString(width);
  }

  /** What `_run` writes for a well-formed alignment: it fails exactly when
      an excluded group is missing or repeated (KeyError) or nothing is left
      (StopIteration); otherwise the header counts the remaining sequences
      and gives their common length, and the rest reads back as the
      remaining sequences, upper-cased, in sorted name order. */
  lemma PamlRunMeaning(msa: Msa.Alignment, excluded: seq<string>)
    requires Msa.WellFormed(msa)
    ensures var r := PamlRun(msa, excluded);
      var popped := (forall i :: 0 <= i < |excluded| ==> excluded[i] in msa) && Distinct(excluded);
      var kept := msa - NodeFormats.Excluded(excluded);
      && (r.Ok? <==> popped && kept != map[])
      && (r.Err? ==> r.error == (if popped then StopIteration else KeyError))
      && (r.Ok? ==> |r.value| >= 1 && forall name :: name in kept ==> r.value[0] == Header(|kept|, |kept[name]|))
      && (r.Ok? && (forall name :: name in msa ==> ' ' !in msa[name]) ==>
            ReadBlocks(r.value[1..]) == Some(Records(kept, PyText.SortedSet(kept.Keys))))
  {
    var r := PamlRun(msa, excluded);
    KeptUniform(msa, excluded);
    if r.Ok? {
      var kept := msa - NodeFormats.Excluded(excluded);
      var names := PyText.SortedSet(kept.Keys);
      assert r.value == PamlLines(kept);
      assert r.value[1..] == Blocks(kept, names);
      if forall name :: name in msa ==> ' ' !in msa[name] {
        ReadBlocksOfBlocks(kept, names);
      }
    }
  }

  // ---------------------------------------------------------------------
  // build_codeml_nodes: postfixes

  /** The names `build_codeml_nodes` derives from the settings: the postfix
      of the alignment directory, that of the codeml directory, and the
      extension of the alignment files. */
  datatype Postfixes = Postfixes(inPostfix: string, outPostfix: string, alignmentExt: string)

  /** `any(filtering.itervalues())`, each value given by its truth. */
  predicate AnyFiltering(filtering: map<string, bool>)
  {
    exists taxon :: taxon in filtering && filtering[taxon]
  }

  function ChoosePostfixes(filtering: map<string, bool>, alignmentEnabled: bool): Postfixes
  {
    var filtered := if AnyFiltering(filtering) then ".filtered" else "";
    var unaligned := if alignmentEnabled then "" else ".unaligned";
    Postfixes(filtered, unaligned + filtered, if alignmentEnabled then ".afa" else ".fasta")
  }

  /** The settings the names stand for. */
  function SettingsOf(p: Postfixes): (r: (bool, bool))
  {
    (p.inPostfix == ".filtered", p.alignmentExt == ".afa")
  }

  /** The names encode the settings: filtering shows as ".filtered" on both
      directories, a disabled alignment as ".unaligned" ahead of it and
      ".fasta" input. */
  lemma PostfixesRoundTrip(filtering: map<string, bool>, alignmentEnabled: bool)
    ensures SettingsOf(ChoosePostfixes(filtering, alignmentEnabled)) == (AnyFiltering(filtering), alignmentEnabled)
    ensures var p := ChoosePostfixes(filtering, alignmentEnabled);
      (AnyFiltering(filtering) <==> p.inPostfix == ".filtered") &&
      (!alignmentEnabled <==> p.alignmentExt == ".fasta") &&
      (!alignmentEnabled <==> |p.outPostfix| >= 10 && p.outPostfix[..10] == ".unaligned")
  {
    var p := ChoosePostfixes(filtering, alignmentEnabled);
    if AnyFiltering(filtering) {
      assert p.inPostfix == ".filtered";
    } else {
      assert p.inPostfix == "";
    }
    if alignmentEnabled {
      assert p.alignmentExt == ".afa";
      assert p.outPostfix == p.inPostfix;
      assert p.outPostfix[..|p.outPostfix|] != ".unaligned";
    } else {
      assert (".unaligned" + p.inPostfix)[..10] == ".unaligned";
    }
  }

  /** Runs with different settings write to different codeml directories. */
  lemma OutPostfixDistinct(f1: map<string, bool>, e1: bool, f2: map<string, bool>, e2: bool)
    ensures ChoosePostfixes(f1, e1).outPostfix == ChoosePostfixes(f2, e2).outPostfix <==>
      AnyFiltering(f1) == AnyFiltering(f2) && e1 == e2
  {
    var p1 := ChoosePostfixes(f1, e1);
    var p2 := ChoosePostfixes(f2, e2);
    assert |p1.outPostfix| == (if e1 then 0 else 10) + (if AnyFiltering(f1) then 9 else 0);
    assert |p2.outPostfix| == (if e2 then 0 else 10) + (if AnyFiltering(f2) then 9 else 0);
  }

  /** `input_file` and `output_file` of the phylip node for one sequence. */
  function CodemlFiles(destination: string, interval: string, sequence: string, p: Postfixes): (r: (string, string))
  {
    var sequenceDir := FileUtils.PathJoin(FileUtils.PathJoin(destination, "alignments"), interval + p.inPostfix);
    var codemlDir := FileUtils.PathJoin(FileUtils.PathJoin(FileUtils.PathJoin(destination, "paml"), "codeml"),
                                        interval + p.outPostfix);
    (FileUtils.PathJoin(sequenceDir, sequence + p.alignmentExt), FileUtils.PathJoin(codemlDir, sequence + ".phy"))
  }

  // ---------------------------------------------------------------------
  // CodemlNode._update_ctl_file

  /** `\s` within one line. */
  predicate IsBlank(c: char)
  {
    PyText.IsSpace(c) && c != '\n'
  }

  /** The position just past `\s*=` read from `k`, if that is what follows. */
  function EqualsEnd(line: string, k: nat): (r: Option<nat>)
    requires k <= |line|
    ensures r.Some? ==> k < r.value <= |line| && line[r.value - 1] == '='
    decreases |line| - k
  {
    if k == |line| then None
    else if line[k] == '=' then Some(k + 1)
    else if IsBlank(line[k]) then EqualsEnd(line, k + 1)
    else None
  }

  /** The end of the leftmost `key\s*=` at or after `i`: where the group
      `(\s*key\s*=)` of the pattern ends. */
  function MatchFrom(line: string, key: string, i: nat): (r: Option<nat>)
    requires i <= |line|
    ensures r.Some? ==> i + |key| < r.value <= |line| && line[r.value - 1] == '='
    decreases |line| - i
  {
    if i == |line| then None
    else if i + |key| <= |line| && line[i..i + |key|] == key && EqualsEnd(line, i + |key|).Some? then
      EqualsEnd(line, i + |key|)
    else MatchFrom(line, key, i + 1)
  }

  predicate Matches(line: string, key: string)
  {
    MatchFrom(line, key, 0).Some?
  }

  /** One line under `re.subn(r'(\s*key\s*=).*', r'\1 ' + value, ...)`: the
      line is cut after the '=' and the value follows a space. */
  function SubLine(line: string, key: string, value: string): (string, nat)
  {
    match MatchFrom(line, key, 0)
    case None => (line, 0)
    case Some(e) => (line[..e] + " " + value, 1)
  }

  /** `re.subn` over the lines of the template: the new lines and the number
      of substitutions. */
  function Subn(lines: seq<string>, key: string, value: string): (seq<string>, nat)
  {
    if |lines| == 0 then ([], 0)
    else
      var first := SubLine(lines[0], key, value);
      var rest := Subn(lines[1..], key, value);
      ([first.0] + rest.0, first.1 + rest.1)
  }

  /** Exactly one line has a match. */
  predicate MatchesOnce(lines: seq<string>, key: string)
  {
    exists k :: 0 <= k < |lines| && Matches(lines[k], key) &&
      forall j :: 0 <= j < |lines| && j != k ==> !Matches(lines[j], key)
  }

  /** The substitution rewrites each line with a match and no other. */
  lemma {:induction false} SubnLines(lines: seq<string>, key: string, value: string)
    ensures var out := Subn(lines, key, value).0;
      && |out| == |lines|
      && (forall k :: 0 <= k < |lines| && !Matches(lines[k], key) ==> out[k] == lines[k])
      && (forall k :: 0 <= k < |lines| && Matches(lines[k], key) ==>
            out[k] == lines[k][..MatchFrom(lines[k], key, 0).value] + " " + value)
  {
    if |lines| > 0 {
      SubnLines(lines[1..], key, value);
      var out := Subn(lines, key, value).0;
      assert out == [SubLine(lines[0], key, value).0] + Subn(lines[1..], key, value).0;
    }
  }

  /** The count is zero exactly when no line matches. */
  lemma {:induction false} SubnNone(lines: seq<string>, key: string, value: string)
    ensures Subn(lines, key, value).1 == 0 <==> forall k :: 0 <= k < |lines| ==> !Matches(lines[k], key)
  {
    if |lines| > 0 {
      SubnNone(lines[1..], key, value);
      assert forall k :: 1 <= k < |lines| ==> lines[k] == lines[1..][k - 1];
    }
  }

  /** The count is one exactly when a single line matches. */
  lemma {:induction false} SubnCount(lines: seq<string>, key: string, value: string)
    ensures Subn(lines, key, value).1 == 1 <==> MatchesOnce(lines, key)
  {
    if |lines| > 0 {
      var rest := lines[1..];
      SubnCount(rest, key, value);
      SubnNone(rest, key, value);
      var c := SubLine(lines[0], key, value).1;
      var n := Subn(rest, key, value).1;
      assert Subn(lines, key, value).1 == c + n;
      assert c == 1 <==> Matches(lines[0], key);
      if c + n == 1 {
        if c == 1 {
          OnceAtFirst(lines, key);
        } else {
          OnceAfterFirst(lines, key);
        }
      }
      if MatchesOnce(lines, key) {
        OnceToParts(lines, key);
      }
    }
  }

  /** A match on the first line alone is a single match. */
  lemma OnceAtFirst(lines: seq<string>, key: string)
    requires |lines| > 0 && Matches(lines[0], key)
    requires forall k :: 0 <= k < |lines[1..]| ==> !Matches(lines[1..][k], key)
    ensures MatchesOnce(lines, key)
  {
    var rest := lines[1..];
    assert forall j :: 0 <= j < |lines| && j != 0 ==> !Matches(lines[j], key) by {
      forall j | 0 <= j < |lines| && j != 0 ensures !Matches(lines[j], key) {
        assert lines[j] == rest[j - 1];
      }
    }
  }

  /** A single match after a first line without one is a single match. */
  lemma OnceAfterFirst(lines: seq<string>, key: string)
    requires |lines| > 0 && !Matches(lines[0], key) && MatchesOnce(lines[1..], key)
    ensures MatchesOnce(lines, key)
  {
    var rest := lines[1..];
    var k :| 0 <= k < |rest| && Matches(rest[k], key) &&
      forall j :: 0 <= j < |rest| && j != k ==> !Matches(rest[j], key);
    assert Matches(lines[k + 1], key);
    assert forall j :: 0 <= j < |lines| && j != k + 1 ==> !Matches(lines[j], key) by {
      forall j | 0 <= j < |lines| && j != k + 1 ensures !Matches(lines[j], key) {
        if j > 0 { assert lines[j] == rest[j - 1]; }
      }
    }
  }

  /** A single match is either on the first line with none after it, or
      after it, alone among the rest. */
  lemma OnceToParts(lines: seq<string>, key: string)
    requires |lines| > 0 && MatchesOnce(lines, key)
    ensures Matches(lines[0], key) ==> forall k :: 0 <= k < |lines[1..]| ==> !Matches(lines[1..][k], key)
    ensures !Matches(lines[0], key) ==> MatchesOnce(lines[1..], key)
  {
    var rest := lines[1..];
    var k :| 0 <= k < |lines| && Matches(lines[k], key) &&
      forall j :: 0 <= j < |lines| && j != k ==> !Matches(lines[j], key);
    if k == 0 {
      forall j | 0 <= j < |rest| ensures !Matches(rest[j], key) {
        assert rest[j] == lines[j + 1];
      }
    } else {
      assert Matches(rest[k - 1], key);
      assert forall j :: 0 <= j < |rest| && j != k - 1 ==> !Matches(rest[j], key) by {
        forall j | 0 <= j < |rest| && j != k - 1 ensures !Matches(rest[j], key) {
          assert rest[j] == lines[j + 1];
        }
      }
    }
  }

  lemma {:induction false} EqualsEndPrefix(line: string, t: string, e: nat, k: nat)
    requires 0 < e <= |line| && line[e - 1] == '=' && k < e
    ensures EqualsEnd(line[..e] + t, k) == EqualsEnd(line, k)
    decreases e - k
  {
    var cut := line[..e] + t;
    assert cut[k] == line[k];
    if line[k] != '=' && IsBlank(line[k]) {
      EqualsEndPrefix(line, t, e, k + 1);
    }
  }

  /** Cutting a line after its match and appending anything keeps the
      match where it was. */
  lemma {:induction false} MatchFromPrefix(line: string, key: string, t: string, i: nat)
    requires i <= |line| && '=' !in key
    requires MatchFrom(line, key, i).Some?
    ensures i <= |line[..MatchFrom(line, key, i).value] + t|
    ensures MatchFrom(line[..MatchFrom(line, key, i).value] + t, key, i) == MatchFrom(line, key, i)
    decreases |line| - i
  {
    var e := MatchFrom(line, key, i).value;
    var cut := line[..e] + t;
    if i + |key| <= |line| && line[i..i + |key|] == key && EqualsEnd(line, i + |key|).Some? {
      assert cut[i..i + |key|] == key;
      EqualsEndPrefix(line, t, e, i + |key|);
    } else {
      MatchFromPrefix(line, key, t, i + 1);
      NoMatchKept(line, key, t, i, e);
    }
  }

  /** A position before the end `e` of a match where the key does not
      match in `line` does not match after the cut either. */
  lemma NoMatchKept(line: string, key: string, t: string, i: nat, e: nat)
    requires 0 < e <= |line| && line[e - 1] == '=' && i + |key| < e
    requires !(line[i..i + |key|] == key && EqualsEnd(line, i + |key|).Some?)
    ensures var cut := line[..e] + t;
      !(cut[i..i + |key|] == key && EqualsEnd(cut, i + |key|).Some?)
  {
    var cut := line[..e] + t;
    assert line[i..i + |key|] == cut[i..i + |key|];
    EqualsEndPrefix(line, t, e, i + |key|);
  }

  /** Substituting a second time changes nothing. */
  lemma SubLineIdempotent(line: string, key: string, value: string)
    requires '=' !in key
    ensures SubLine(SubLine(line, key, value).0, key, value) == SubLine(line, key, value)
  {
    if Matches(line, key) {
      var e := MatchFrom(line, key, 0).value;
      MatchFromPrefix(line, key, " " + value, 0);
      assert line[..e] + " " + value == line[..e] + (" " + value);
      var once := line[..e] + " " + value;
      assert once[..e] == line[..e];
    }
  }

  lemma {:induction false} SubnIdempotent(lines: seq<string>, key: string, value: string)
    requires '=' !in key
    ensures Subn(Subn(lines, key, value).0, key, value) == Subn(lines, key, value)
  {
    if |lines| > 0 {
      var once := Subn(lines, key, value).0;
      SubLineIdempotent(lines[0], key, value);
      SubnIdempotent(lines[1..], key, value);
      assert once[1..] == Subn(lines[1..], key, value).0;
    }
  }

  /** `_update_ctl_file`: substitute the sequence file, the tree file and
      the output file into the template in turn, each exactly once; any
      other count fails the assertion. */
  function UpdateCtl(template: string, sequenceFile: string, treesFile: string, outputPrefix: string): (r: Result<string>)
    ensures r.Err? ==> r.error == AssertionError
  {
    var lines := PyText.SplitOn(template, '\n');
    var (seqLines, c1) := Subn(lines, "seqfile", FileUtils.Basename(sequenceFile));
    var (treeLines, c2) := Subn(seqLines, "treefile", FileUtils.Basename(treesFile));
    var (outLines, c3) := Subn(treeLines, "outfile", FileUtils.Basename(outputPrefix + ".codeml"));
    if c1 != 1 || c2 != 1 || c3 != 1 then Err(AssertionError)
    else Ok(PyText.Join("\n", outLines))
  }

  /** The update succeeds exactly when each key is found on one line of the
      template as it stands when that key's turn comes. */
  lemma UpdateCtlMeaning(template: string, sequenceFile: string, treesFile: string, outputPrefix: string)
    ensures var lines := PyText.SplitOn(template, '\n');
      var seqLines := Subn(lines, "seqfile", FileUtils.Basename(sequenceFile)).0;
      var treeLines := Subn(seqLines, "treefile", FileUtils.Basename(treesFile)).0;
      UpdateCtl(template, sequenceFile, treesFile, outputPrefix).Ok? <==>
        MatchesOnce(lines, "seqfile") && MatchesOnce(seqLines, "treefile") && MatchesOnce(treeLines, "outfile")
  {
    var lines := PyText.SplitOn(template, '\n');
    var seqLines := Subn(lines, "seqfile", FileUtils.Basename(sequenceFile)).0;
    var treeLines := Subn(seqLines, "treefile", FileUtils.Basename(treesFile)).0;
    SubnCount(lines, "seqfile", FileUtils.Basename(sequenceFile));
    SubnCount(seqLines, "treefile", FileUtils.Basename(treesFile));
    SubnCount(treeLines, "outfile", FileUtils.Basename(outputPrefix + ".codeml"));
  }
}
