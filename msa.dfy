// Multiple sequence alignments (pypeline/common/formats/msa.py): a map from
// sequence name to aligned sequence. Validation, joining, splitting by codon
// position, reading from FASTA lines and writing them back.
module Msa {
  import opened PyErrors
  import opened Seqs
  import opened PyText
  import opened Fasta

  type Alignment = map<string, string>

  predicate UniformLength(msa: Alignment)
  {
    forall a, b :: a in msa && b in msa ==> |msa[a]| == |msa[b]|
  }

  /** What `validate_msa` demands of each alignment on its own. */
  predicate WellFormed(msa: Alignment)
  {
    msa != map[] && "" !in msa && UniformLength(msa)
  }

  /** What `validate_msa(*msas)` demands of its arguments together. */
  predicate ValidMsas(msas: seq<Alignment>)
  {
    |msas| > 0 &&
    (forall i :: 0 <= i < |msas| ==> WellFormed(msas[i])) &&
    (forall i :: 0 <= i < |msas| ==> msas[i].Keys == msas[0].Keys)
  }

  /** One alignment is valid exactly when it is well formed. */
  lemma ValidSingle(msa: Alignment)
    ensures ValidMsas([msa]) <==> WellFormed(msa)
  {
    var msas := [msa];
    assert msas[0] == msa;
    if WellFormed(msa) {
      assert forall i :: 0 <= i < |msas| ==> msas[i] == msa;
    }
  }

  // ---------------------------------------------------------------------
  // validate_msa

  function CheckEach(msas: seq<Alignment>): (r: Outcome)
    ensures r.Pass? <==> forall i :: 0 <= i < |msas| ==> WellFormed(msas[i])
    ensures r.Fail? ==> r.error == MSAError
  {
    if |msas| == 0 then Pass
    else if !WellFormed(msas[0]) then Fail(MSAError)
    else
      var rest := CheckEach(msas[1..]);
      assert forall i :: 1 <= i < |msas| ==> msas[i] == msas[1..][i - 1];
      rest
  }

  /** `seqs_all`: the names found in any alignment. */
  function AllNames(msas: seq<Alignment>): set<string>
  {
    if |msas| == 0 then {} else msas[0].Keys + AllNames(msas[1..])
  }

  /** `seqs_common`: the names found in every alignment. */
  function CommonNames(first: set<string>, msas: seq<Alignment>): set<string>
  {
    if |msas| == 0 then first else CommonNames(first * msas[0].Keys, msas[1..])
  }

  lemma {:induction false} NameBounds(first: set<string>, msas: seq<Alignment>)
    ensures CommonNames(first, msas) <= first
    ensures forall i :: 0 <= i < |msas| ==> CommonNames(first, msas) <= msas[i].Keys <= AllNames(msas)
  {
    if |msas| > 0 {
      NameBounds(first * msas[0].Keys, msas[1..]);
      assert forall i :: 1 <= i < |msas| ==> msas[i] == msas[1..][i - 1];
    }
  }

  lemma {:induction false} NamesOfEqualKeys(first: set<string>, msas: seq<Alignment>)
    requires forall i :: 0 <= i < |msas| ==> msas[i].Keys == first
    ensures CommonNames(first, msas) == first
    ensures |msas| > 0 ==> AllNames(msas) == first
  {
    if |msas| > 0 {
      assert forall i :: 1 <= i < |msas| ==> msas[i] == msas[1..][i - 1];
      NamesOfEqualKeys(first, msas[1..]);
    }
  }

  /** All alignments have the same names exactly when the names found
      anywhere are the names found everywhere. */
  lemma NamesAgree(msas: seq<Alignment>)
    requires |msas| > 0
    ensures AllNames(msas) == CommonNames(msas[0].Keys, msas) <==>
      forall i :: 0 <= i < |msas| ==> msas[i].Keys == msas[0].Keys
  {
    NameBounds(msas[0].Keys, msas);
    if forall i :: 0 <= i < |msas| ==> msas[i].Keys == msas[0].Keys {
      NamesOfEqualKeys(msas[0].Keys, msas);
    }
  }

  /** `validate_msa(*msas)`: TypeError with no argument; MSAError for an
      empty alignment, an empty name, sequences of differing lengths, or
      differing name sets. */
  function ValidateMsa(msas: seq<Alignment>): (r: Outcome)
    ensures r.Pass? <==> ValidMsas(msas)
    ensures r.Fail? ==> r.error == (if |msas| == 0 then TypeError else MSAError)
  {
    if |msas| == 0 then Fail(TypeError)
    else if CheckEach(msas).Fail? then Fail(MSAError)
    else
      NamesAgree(msas);
      if AllNames(msas) != CommonNames(msas[0].Keys, msas) then Fail(MSAError) else Pass
  }

  // ---------------------------------------------------------------------
  // join_msa

  /** The sequences named `name`, concatenated in argument order. */
  function Joined(msas: seq<Alignment>, name: string): string
    requires forall i :: 0 <= i < |msas| ==> name in msas[i]
  {
    if |msas| == 0 then ""
    else Joined(msas[..|msas| - 1], name) + msas[|msas| - 1][name]
  }

  function TotalLength(msas: seq<Alignment>, name: string): nat
    requires forall i :: 0 <= i < |msas| ==> name in msas[i]
  {
    if |msas| == 0 then 0
    else TotalLength(msas[..|msas| - 1], name) + |msas[|msas| - 1][name]|
  }

  /** Each joined sequence is as long as its parts together. */
  lemma {:induction false} JoinedLength(msas: seq<Alignment>, name: string)
    requires forall i :: 0 <= i < |msas| ==> name in msas[i]
    ensures |Joined(msas, name)| == TotalLength(msas, name)
  {
    if |msas| > 0 {
      JoinedLength(msas[..|msas| - 1], name);
    }
  }

  /** In valid alignments every name's parts have the same lengths. */
  lemma {:induction false} TotalLengthUniform(msas: seq<Alignment>, a: string, b: string)
    requires ValidMsas(msas) && a in msas[0] && b in msas[0]
    ensures TotalLength(msas, a) == TotalLength(msas, b)
  {
    if |msas| > 1 {
      TotalLengthUniform(msas[..|msas| - 1], a, b);
    }
  }

  /** Joining valid alignments gives a valid alignment. */
  lemma JoinedIsValid(msas: seq<Alignment>, joined: Alignment)
    requires ValidMsas(msas)
    requires joined.Keys == msas[0].Keys
    requires forall name :: name in joined ==> joined[name] == Joined(msas, name)
    ensures WellFormed(joined)
  {
    forall a, b | a in joined && b in joined
      ensures |joined[a]| == |joined[b]|
    {
      JoinedLength(msas, a);
      JoinedLength(msas, b);
      TotalLengthUniform(msas, a, b);
    }
  }

  /** `join_msa(*msas)`: validates, then concatenates each name's sequences
      in argument order. */
  method JoinMsa(msas: seq<Alignment>) returns (r: Result<Alignment>)
    ensures r.Ok? <==> ValidMsas(msas)
    ensures r.Err? ==> r.error == ValidateMsa(msas).error
    ensures r.Ok? ==> r.value.Keys == msas[0].Keys
    ensures r.Ok? ==> forall name :: name in r.value ==> r.value[name] == Joined(msas, name)
  {
    var valid := ValidateMsa(msas);
    if valid.Fail? {
      return Err(valid.error);
    }
    var names := msas[0].Keys;
    var results: Alignment := map name | name in names :: "";
    var i := 0;
    while i < |msas|
      invariant 0 <= i <= |msas|
      invariant results.Keys == names
      invariant forall name :: name in results ==> results[name] == Joined(msas[..i], name)
    {
      assert msas[..i + 1][..i] == msas[..i];
      results := AppendEach(results, msas[i]);
      i := i + 1;
    }
    assert msas[..i] == msas;
    return Ok(results);
  }

  /** The inner loop of `join_msa`: `part`'s sequence is appended to each
      name's result. */
  method AppendEach(results: Alignment, part: Alignment) returns (r: Alignment)
    requires results.Keys <= part.Keys
    ensures r.Keys == results.Keys
    ensures forall name :: name in r ==> r[name] == results[name] + part[name]
  {
    r := results;
    var remaining := results.Keys;
    while remaining != {}
      invariant remaining <= results.Keys
      invariant r.Keys == results.Keys
      invariant forall name :: name in r && name !in remaining ==> r[name] == results[name] + part[name]
      invariant forall name :: name in remaining ==> r[name] == results[name]
      decreases remaining
    {
      var name :| name in remaining;
      r := r[name := r[name] + part[name]];
      remaining := remaining - {name};
    }
  }

  // ---------------------------------------------------------------------
  // split_msa

  /** The label of the position after the one labelled `splitBy[k]`: the
      labels repeat with period `|splitBy|`. */
  function NextLabel(splitBy: string, k: nat): (r: nat)
    requires k < |splitBy|
    ensures r < |splitBy|
  {
    if k + 1 == |splitBy| then 0 else k + 1
  }

  /** The characters of `s` whose label is `key`, in order, when the first
      one is labelled `splitBy[k]`. */
  function ColumnsFrom(s: string, splitBy: string, key: char, k: nat): (r: string)
    requires k < |splitBy|
    ensures |r| <= |s|
    decreases |s|
  {
    if |s| == 0 then ""
    else (if splitBy[k] == key then [s[0]] else "") + ColumnsFrom(s[1..], splitBy, key, NextLabel(splitBy, k))
  }

  /** `split(s, splitBy)[key]`: position `j` is labelled
      `splitBy[j % |splitBy|]`. */
  function Columns(s: string, splitBy: string, key: char): (r: string)
    requires |splitBy| > 0
    ensures |r| <= |s|
  {
    ColumnsFrom(s, splitBy, key, 0)
  }

  /** How many of `n` positions carry the label `key`, the first one being
      labelled `splitBy[k]`. */
  function ColumnCount(n: nat, splitBy: string, key: char, k: nat): nat
    requires k < |splitBy|
  {
    if n == 0 then 0
    else (if splitBy[k] == key then 1 else 0) + ColumnCount(n - 1, splitBy, key, NextLabel(splitBy, k))
  }

  /** The length of a partition depends only on the sequence length. */
  lemma {:induction false} ColumnsLength(s: string, splitBy: string, key: char, k: nat)
    requires k < |splitBy|
    ensures |ColumnsFrom(s, splitBy, key, k)| == ColumnCount(|s|, splitBy, key, k)
    decreases |s|
  {
    if |s| > 0 {
      ColumnsLength(s[1..], splitBy, key, NextLabel(splitBy, k));
    }
  }

  /** A label found at every position takes the whole sequence. */
  lemma {:induction false} ColumnsOfSingleLabel(s: string, splitBy: string, key: char, k: nat)
    requires k < |splitBy| && forall j :: 0 <= j < |splitBy| ==> splitBy[j] == key
    ensures ColumnsFrom(s, splitBy, key, k) == s
    decreases |s|
  {
    if |s| > 0 {
      ColumnsOfSingleLabel(s[1..], splitBy, key, NextLabel(splitBy, k));
      assert s == [s[0]] + s[1..];
    }
  }

  /** A label not in `splitBy` takes nothing. */
  lemma {:induction false} ColumnsOfAbsentLabel(s: string, splitBy: string, key: char, k: nat)
    requires k < |splitBy| && key !in splitBy
    ensures ColumnsFrom(s, splitBy, key, k) == ""
    decreases |s|
  {
    if |s| > 0 {
      ColumnsOfAbsentLabel(s[1..], splitBy, key, NextLabel(splitBy, k));
      assert splitBy[k] in splitBy;
    }
  }

  function Labels(splitBy: string): set<char>
  {
    set j | 0 <= j < |splitBy| :: splitBy[j]
  }

  /** `split(sequence, split_by)` of pypeline.common.sequences: one partition
      per label; an empty `split_by` raises TypeError. */
  function Split(s: string, splitBy: string): (r: Result<map<char, string>>)
    ensures r.Err? <==> |splitBy| == 0
    ensures r.Err? ==> r.error == TypeError
    ensures r.Ok? ==> r.value.Keys == Labels(splitBy)
  {
    if |splitBy| == 0 then Err(TypeError)
    else Ok(map key | key in Labels(splitBy) :: Columns(s, splitBy, key))
  }

  /** `split_msa(msa, split_by)`: validates, rejects an empty `split_by`
      (TypeError), and gives one alignment per label holding every name's
      partition. */
  method SplitMsa(msa: Alignment, splitBy: string) returns (r: Result<map<char, Alignment>>)
    ensures r.Ok? <==> WellFormed(msa) && |splitBy| > 0
    ensures r.Err? ==> r.error == (if WellFormed(msa) then TypeError else MSAError)
    ensures r.Ok? ==> r.value.Keys == Labels(splitBy)
    ensures r.Ok? ==> forall key :: key in r.value ==>
      r.value[key].Keys == msa.Keys &&
      forall name :: name in msa ==> r.value[key][name] == Columns(msa[name], splitBy, key)
  {
    ValidSingle(msa);
    if !WellFormed(msa) {
      return Err(ValidateMsa([msa]).error);
    }
    if |splitBy| == 0 {
      return Err(TypeError);
    }
    var results := SplitAll(msa, splitBy);
    return Ok(results);
  }

  /** The state of `split_msa`'s loop once the first `i` names are stored:
      `expected[name]` is the split of the sequence `name`. */
  predicate SplitProgress(results: map<char, Alignment>, expected: map<string, map<char, string>>,
                          labels: set<char>, names: seq<string>, i: nat)
    requires i <= |names|
  {
    results.Keys == labels &&
    forall key :: key in results ==> (results[key].Keys == expected.Keys &&
      forall j :: 0 <= j < i && names[j] in expected && key in expected[names[j]] ==>
        results[key][names[j]] == expected[names[j]][key])
  }

  lemma SplitStep(prev: map<char, Alignment>, expected: map<string, map<char, string>>,
                  labels: set<char>, names: seq<string>, i: nat)
    requires i < |names| && names[i] in expected && expected[names[i]].Keys == labels
    requires SplitProgress(prev, expected, labels, names, i)
    ensures SplitProgress(StorePartition(prev, names[i], expected[names[i]]), expected, labels, names, i + 1)
  {
    var name := names[i];
    var results := StorePartition(prev, name, expected[name]);
    forall key | key in results
      ensures results[key].Keys == expected.Keys
      ensures forall j :: 0 <= j < i + 1 && names[j] in expected && key in expected[names[j]] ==>
        results[key][names[j]] == expected[names[j]][key]
    {
      assert results[key] == prev[key][name := expected[name][key]];
    }
  }

  /** The expected split of every sequence. */
  function Splits(msa: Alignment, splitBy: string): (r: map<string, map<char, string>>)
    requires |splitBy| > 0
    ensures r.Keys == msa.Keys
    ensures forall name :: name in r ==> r[name] == Split(msa[name], splitBy).value
  {
    map name | name in msa :: Split(msa[name], splitBy).value
  }

  lemma SplitStart(msa: Alignment, splitBy: string, results: map<char, Alignment>, names: seq<string>)
    requires |splitBy| > 0
    requires results.Keys == Labels(splitBy)
    requires forall key :: key in results ==> results[key].Keys == msa.Keys
    ensures SplitProgress(results, Splits(msa, splitBy), Labels(splitBy), names, 0)
  {
  }

  lemma SplitFinish(msa: Alignment, splitBy: string, results: map<char, Alignment>, names: seq<string>)
    requires |splitBy| > 0
    requires forall name :: name in msa ==> name in names
    requires SplitProgress(results, Splits(msa, splitBy), Labels(splitBy), names, |names|)
    ensures forall key :: key in results ==> (results[key].Keys == msa.Keys &&
      forall name :: name in msa ==> results[key][name] == Columns(msa[name], splitBy, key))
  {
    var expected := Splits(msa, splitBy);
    forall key | key in results
      ensures results[key].Keys == msa.Keys
      ensures forall name :: name in msa ==> results[key][name] == Columns(msa[name], splitBy, key)
    {
      forall name | name in msa
        ensures results[key][name] == Columns(msa[name], splitBy, key)
      {
        var j :| 0 <= j < |names| && names[j] == name;
        assert results[key][names[j]] == expected[names[j]][key];
      }
    }
  }

  /** The loops of `split_msa` once its checks have passed; names are
      visited in sorted order. */
  method SplitAll(msa: Alignment, splitBy: string) returns (results: map<char, Alignment>)
    requires |splitBy| > 0
    ensures results.Keys == Labels(splitBy)
    ensures forall key :: key in results ==> (results[key].Keys == msa.Keys &&
      forall name :: name in msa ==> results[key][name] == Columns(msa[name], splitBy, key))
  {
    var placeholder: Alignment := map name | name in msa :: "";
    var start := map key | key in Labels(splitBy) :: placeholder;
    var names := SortedSet(msa.Keys);
    SplitStart(msa, splitBy, start, names);
    SortedSetCovers(msa.Keys, names);
    results := SplitNames(msa, splitBy, names, start);
    SplitFinish(msa, splitBy, results, names);
  }

  lemma SortedSetCovers(keys: set<string>, names: seq<string>)
    requires names == SortedSet(keys)
    ensures forall j :: 0 <= j < |names| ==> names[j] in keys
    ensures forall name :: name in keys ==> name in names
  {
    forall j | 0 <= j < |names| ensures names[j] in keys {
      assert names[j] in names;
    }
  }

  /** The loop of `split_msa` over the names: each sequence's partitions are
      stored under its name. */
  method SplitNames(msa: Alignment, splitBy: string, names: seq<string>, start: map<char, Alignment>)
    returns (results: map<char, Alignment>)
    requires |splitBy| > 0
    requires forall j :: 0 <= j < |names| ==> names[j] in msa
    requires SplitProgress(start, Splits(msa, splitBy), Labels(splitBy), names, 0)
    ensures SplitProgress(results, Splits(msa, splitBy), Labels(splitBy), names, |names|)
  {
    results := start;
    var i := 0;
    while i < |names|
      invariant i <= |names|
      invariant SplitProgress(results, Splits(msa, splitBy), Labels(splitBy), names, i)
    {
      var parts := Split(msa[names[i]], splitBy).value;
      SplitStep(results, Splits(msa, splitBy), Labels(splitBy), names, i);
      results := StorePartition(results, names[i], parts);
      i := i + 1;
    }
  }

  /** `results[key][name] = partition` for every label of `parts`. */
  function StorePartition(results: map<char, Alignment>, name: string, parts: map<char, string>): (r: map<char, Alignment>)
    requires results.Keys == parts.Keys
    ensures r.Keys == results.Keys
    ensures forall key :: key in r ==> r[key] == results[key][name := parts[key]]
  {
    map key | key in results :: results[key][name := parts[key]]
  }

  /** Every part of a split alignment is itself a valid alignment. */
  lemma SplitPartsValid(msa: Alignment, splitBy: string, part: Alignment, key: char)
    requires WellFormed(msa) && |splitBy| > 0
    requires part.Keys == msa.Keys
    requires forall name :: name in msa ==> part[name] == Columns(msa[name], splitBy, key)
    ensures WellFormed(part)
  {
    forall a, b | a in part && b in part
      ensures |part[a]| == |part[b]|
    {
      ColumnsLength(msa[a], splitBy, key, 0);
      ColumnsLength(msa[b], splitBy, key, 0);
    }
  }

  // ---------------------------------------------------------------------
  // parse_msa and print_msa

  predicate DistinctNames(records: seq<FastaRecord>)
  {
    forall i, j :: 0 <= i < j < |records| ==> records[i].name != records[j].name
  }

  /** The names of `records`. */
  function NameSet(records: seq<FastaRecord>): set<string>
  {
    if |records| == 0 then {} else NameSet(records[..|records| - 1]) + {records[|records| - 1].name}
  }

  lemma {:induction false} NameSetHas(records: seq<FastaRecord>)
    ensures forall i :: 0 <= i < |records| ==> records[i].name in NameSet(records)
  {
    if |records| > 0 {
      var init := records[..|records| - 1];
      NameSetHas(init);
      assert forall i :: 0 <= i < |init| ==> init[i] == records[i];
    }
  }

  /** The position of a record carrying `name`. */
  lemma {:induction false} NameSetWitness(records: seq<FastaRecord>, name: string) returns (i: nat)
    requires name in NameSet(records)
    ensures i < |records| && records[i].name == name
  {
    var last := records[|records| - 1];
    if last.name == name {
      i := |records| - 1;
    } else {
      var init := records[..|records| - 1];
      i := NameSetWitness(init, name);
      assert init[i] == records[i];
    }
  }

  /** `msa[record.name] = record.sequence` for each record in turn. */
  function Sequences(records: seq<FastaRecord>): (r: Alignment)
    ensures r.Keys == NameSet(records)
  {
    if |records| == 0 then map[]
    else
      var last := records[|records| - 1];
      Sequences(records[..|records| - 1])[last.name := last.sequence]
  }

  /** `metas[record.name] = record.meta` for each record in turn. */
  function Metas(records: seq<FastaRecord>): (r: map<string, Option<string>>)
    ensures r.Keys == NameSet(records)
  {
    if |records| == 0 then map[]
    else
      var last := records[|records| - 1];
      Metas(records[..|records| - 1])[last.name := last.meta]
  }

  /** With distinct names, each record's sequence is found under its name. */
  lemma {:induction false} SequencesOfDistinct(records: seq<FastaRecord>)
    requires DistinctNames(records)
    ensures forall i :: 0 <= i < |records| ==>
      records[i].name in Sequences(records) && Sequences(records)[records[i].name] == records[i].sequence
  {
    NameSetHas(records);
    if |records| > 0 {
      SequencesOfDistinct(records[..|records| - 1]);
    }
  }

  /** `parse_msa(lines)`: the FASTA records as an alignment with their
      meta information. `parse_fasta` is a generator, so the records are
      taken as they are read: a repeated name among the records read
      before a malformed one raises MSAError before the FASTAError is
      reached. The result is then validated. */
  method ParseMsa(lines: seq<string>) returns (r: Result<(Alignment, map<string, Option<string>>)>)
    ensures r.Ok? <==>
      ParseFasta(lines).Ok? && DistinctNames(ParseFasta(lines).value) &&
      WellFormed(Sequences(ParseFasta(lines).value))
    ensures r.Ok? ==> r.value.0 == Sequences(ParseFasta(lines).value) && r.value.1 == Metas(ParseFasta(lines).value)
    ensures !DistinctNames(ReadStream(lines).records) ==> r == Err(MSAError)
    ensures DistinctNames(ReadStream(lines).records) && ParseFasta(lines).Err? ==> r == Err(FASTAError)
    ensures r.Err? ==> r.error == FASTAError || r.error == MSAError
  {
    var stream := ReadStream(lines);
    r := CollectRecords(stream.records, stream.failed);
  }

  /** A repeated name ahead of a header with no sequence: the FASTA
      does not parse, yet `parse_msa` raises MSAError, since the two
      records named "a" are read before the malformed one. */
  lemma DuplicateBeforeMalformed()
    ensures ParseFasta([">a", "AC", ">a", "GT", ">c"]).Err?
    ensures !DistinctNames(ReadStream([">a", "AC", ">a", "GT", ">c"]).records)
  {
    var lines := [">a", "AC", ">a", "GT", ">c"];
    var head := FirstRecordNamed(lines, "AC");
    assert lines[2..] == [">a", "GT", ">c"];
    var tail := ReadStreamOfTail();
    var rs := ReadStream(lines).records;
    assert rs == [head, tail];
    assert rs[0].name == rs[1].name;
  }

  /** A header `>a` followed by one sequence line and then a header is
      read as one record named "a", two lines long. */
  lemma FirstRecordNamed(lines: seq<string>, sequence: string) returns (record: FastaRecord)
    requires |lines| >= 3 && lines[0] == ">a" && lines[1] == sequence && lines[2] == ">a"
    requires sequence != [] && sequence[|sequence| - 1] != '\n' && sequence[0] != '>'
    ensures ReadRecord(lines) == Ok((record, 2)) && record.name == "a"
  {
    assert StripNewline(">a") == ">a" && StripNewline(sequence) == sequence;
    assert ParseHeader(">a"[1..]).0 == "a";
    assert SequenceLineCount(lines[1..]) == 1 by {
      assert lines[1..][1..][0] == ">a";
    }
    record := ReadRecord(lines).value.0;
  }

  /** The rest of that input: one record named "a", then the malformed
      header. */
  lemma ReadStreamOfTail() returns (record: FastaRecord)
    ensures ReadStream([">a", "GT", ">c"]) == FastaStream([record], true) && record.name == "a"
  {
    var lines := [">a", "GT", ">c"];
    assert StripNewline(">a") == ">a" && StripNewline("GT") == "GT" && StripNewline(">c") == ">c";
    assert ParseHeader(">a"[1..]).0 == "a";
    var first := ReadRecord(lines);
    assert first.Ok? && first.value.1 == 2;
    assert lines[2..] == [">c"];
    assert ReadRecord([">c"]).Err?;
    record := first.value.0;
  }

  /** The loop of `parse_msa` over the records `parse_fasta` yields;
      `failed` says whether it raises after the last of them. */
  method CollectRecords(records: seq<FastaRecord>, failed: bool)
      returns (r: Result<(Alignment, map<string, Option<string>>)>)
    ensures r.Ok? <==> !failed && DistinctNames(records) && WellFormed(Sequences(records))
    ensures r.Ok? ==> r.value.0 == Sequences(records) && r.value.1 == Metas(records)
    ensures !DistinctNames(records) ==> r == Err(MSAError)
    ensures DistinctNames(records) && failed ==> r == Err(FASTAError)
    ensures r.Err? && !failed ==> r.error == MSAError
  {
    var msa: Alignment := map[];
    var metas: map<string, Option<string>> := map[];
    var i := 0;
    while i < |records|
      invariant 0 <= i <= |records|
      invariant DistinctNames(records[..i])
      invariant msa == Sequences(records[..i]) && metas == Metas(records[..i])
    {
      var record := records[i];
      CollectStep(records, i);
      if record.name in msa {
        return Err(MSAError);
      }
      msa := msa[record.name := record.sequence];
      metas := metas[record.name := record.meta];
      i := i + 1;
    }
    assert records[..i] == records;
    if failed {
      return Err(FASTAError);
    }
    ValidSingle(msa);
    var valid := ValidateMsa([msa]);
    if valid.Fail? {
      return Err(valid.error);
    }
    return Ok((msa, metas));
  }

  /** One step of `parse_msa`'s loop: a name already collected makes the
      names repeat; otherwise the record is added under its name. */
  lemma CollectStep(records: seq<FastaRecord>, i: nat)
    requires i < |records| && DistinctNames(records[..i])
    ensures records[i].name in Sequences(records[..i]) ==> !DistinctNames(records)
    ensures records[i].name !in Sequences(records[..i]) ==> DistinctNames(records[..i + 1])
    ensures Sequences(records[..i + 1]) == Sequences(records[..i])[records[i].name := records[i].sequence]
    ensures Metas(records[..i + 1]) == Metas(records[..i])[records[i].name := records[i].meta]
  {
    var prefix := records[..i + 1];
    assert prefix[..i] == records[..i];
    if records[i].name in Sequences(records[..i]) {
      var j := NameSetWitness(records[..i], records[i].name);
      assert records[j].name == records[i].name;
    } else {
      NameSetHas(records[..i]);
    }
  }

  /** The records `print_msa` writes, in sorted name order. */
  function MsaRecords(msa: Alignment): (r: seq<FastaRecord>)
    ensures |r| == |SortedSet(msa.Keys)|
    ensures forall i :: 0 <= i < |r| ==> r[i] == FastaRecord(SortedSet(msa.Keys)[i], None, msa[SortedSet(msa.Keys)[i]])
  {
    var names := SortedSet(msa.Keys);
    seq(|names|, i requires 0 <= i < |names| => FastaRecord(names[i], None, msa[names[i]]))
  }

  /** `print_msa(msa)`: validates, then writes each entry with `print_fasta`
      in sorted name order; the written lines. */
  function PrintMsa(msa: Alignment): (r: Result<seq<string>>)
    ensures r.Err? <==> !WellFormed(msa)
    ensures r.Err? ==> r.error == MSAError
    ensures r.Ok? ==> r.value == RecordsLines(MsaRecords(msa))
  {
    ValidSingle(msa);
    var valid := ValidateMsa([msa]);
    if valid.Fail? then Err(valid.error) else Ok(RecordsLines(MsaRecords(msa)))
  }

  /** Names and sequences `print_msa` and `parse_msa` carry unchanged. */
  predicate Printable(msa: Alignment)
  {
    forall name :: name in msa ==> ' ' !in name && |msa[name]| > 0 && '>' !in msa[name]
  }

  lemma MsaRecordsWritable(msa: Alignment)
    requires WellFormed(msa) && Printable(msa)
    ensures forall i :: 0 <= i < |MsaRecords(msa)| ==> Writable(MsaRecords(msa)[i])
  {
    var records := MsaRecords(msa);
    var names := SortedSet(msa.Keys);
    forall i | 0 <= i < |records|
      ensures Writable(records[i])
    {
      assert names[i] in names;
      assert names[i] in msa.Keys;
    }
  }

  lemma MsaRecordsDistinct(msa: Alignment)
    ensures DistinctNames(MsaRecords(msa))
  {
    var records := MsaRecords(msa);
    var names := SortedSet(msa.Keys);
    SortedStringsDistinct(names);
    assert forall i :: 0 <= i < |records| ==> records[i].name == names[i];
  }

  /** Records with distinct names that list exactly the entries of `msa`
      are collected back into `msa`. */
  lemma SequencesExact(records: seq<FastaRecord>, msa: Alignment)
    requires DistinctNames(records) && NameSet(records) == msa.Keys
    requires forall i :: 0 <= i < |records| ==> records[i].name in msa && msa[records[i].name] == records[i].sequence
    ensures Sequences(records) == msa
  {
    var parsed := Sequences(records);
    assert forall name :: name in msa ==> parsed[name] == msa[name] by {
      SequencesOfDistinct(records);
      forall name | name in msa
        ensures parsed[name] == msa[name]
      {
        var i := NameSetWitness(records, name);
      }
    }
    SameEntries(parsed, msa);
  }

  lemma SameEntries(a: Alignment, b: Alignment)
    requires a.Keys == b.Keys && forall name :: name in b ==> a[name] == b[name]
    ensures a == b
  {
  }

  lemma MsaRecordsSequences(msa: Alignment)
    ensures Sequences(MsaRecords(msa)) == msa
  {
    var records := MsaRecords(msa);
    var names := SortedSet(msa.Keys);
    MsaRecordsDistinct(msa);
    NameSetHas(records);
    forall i | 0 <= i < |records|
      ensures records[i].name in msa && msa[records[i].name] == records[i].sequence
    {
      assert names[i] in names;
    }
    forall name | name in msa
      ensures name in NameSet(records)
    {
      var i :| 0 <= i < |names| && names[i] == name;
      assert records[i].name == name;
    }
    forall name | name in NameSet(records)
      ensures name in msa
    {
      var i := NameSetWitness(records, name);
    }
    SequencesExact(records, msa);
  }

  /** `parse_msa` reads back exactly the alignment `print_msa` wrote. */
  lemma PrintParseRoundTrip(msa: Alignment)
    requires WellFormed(msa) && Printable(msa)
    ensures PrintMsa(msa).Ok?
    ensures ParseFasta(PrintMsa(msa).value) == Ok(MsaRecords(msa))
    ensures DistinctNames(MsaRecords(msa))
    ensures Sequences(MsaRecords(msa)) == msa
  {
    MsaRecordsWritable(msa);
    ParseFastaRoundTrip(MsaRecords(msa));
    MsaRecordsDistinct(msa);
    MsaRecordsSequences(msa);
  }
}
