// The partition nodes of pypeline/nodes/formats.py: the checks their
// constructors make on `infiles`, the grouping of codon positions by tag
// (`_get_partition_by`), the partition ranges `FastaToPartitionsNode` and
// `FastaToPartitionedInterleavedPhyNode` write, and `_read_sequences`.
//
// Reading a file is abstracted as the outcome of `read_msa` for that path:
// `contents` maps a path to the alignment it holds, or to the error reading it
// raises; a path missing from `contents` raises OSError.
module NodeFormats {
  import opened PyErrors
  import opened PyValues
  import opened Seqs
  import PyText
  import Msa
  import Phylip

  // ---------------------------------------------------------------------
  // Constructor checks

  /** `_VALID_KEYS`: the keys a per-file entry may carry. */
  const VALID_KEYS: set<string> := {"name", "partition_by"}

  /** `len(v)`, or None where `len` raises TypeError. */
  function Len(v: Value): (r: Option<nat>)
    ensures r.Some? <==> v.PStr? || v.PList? || v.PTuple? || v.PDict?
  {
    match v
    case PStr(s) => Some(|s|)
    case PList(items) => Some(|items|)
    case PTuple(items) => Some(|items|)
    case PDict(entries) => Some(|entries.Keys|)
    case _ => None
  }

  /** One item of the `any(len(dd.get("partition_by", "123")) != 3 ...)`
      scan: `dd.get` needs a dict (AttributeError otherwise), `len` a sized
      value (TypeError), and a length other than 3 makes `any` true, which
      raises ValueError. */
  function PartitionByLength(dd: Value): (r: Outcome)
    ensures r.Pass? <==> (dd.PDict? &&
      ("partition_by" in dd.entries ==> Len(dd.entries["partition_by"]) == Some(3)))
    ensures r.Fail? ==> (r.error == AttributeError <==> !dd.PDict?)
    ensures r.Fail? ==> r.error in {AttributeError, TypeError, ValueError}
  {
    if !dd.PDict? then Fail(AttributeError)
    else
      var v := if "partition_by" in dd.entries then dd.entries["partition_by"] else PStr("123");
      match Len(v)
      case None => Fail(TypeError)
      case Some(n) => if n != 3 then Fail(ValueError) else Pass
  }

  /** The values of a dict in iteration order; sorted key order stands for
      the interpreter's own. */
  function InOrder(entries: map<string, Value>): (vs: seq<Value>)
    ensures forall i :: 0 <= i < |vs| ==> vs[i] in entries.Values
    ensures forall k :: k in entries ==> entries[k] in vs
  {
    var keys := PyText.SortedSet(entries.Keys);
    var vs := seq(|keys|, i requires 0 <= i < |keys| => entries[keys[i]]);
    assert forall k :: k in entries ==> entries[k] in vs by {
      forall k | k in entries
        ensures entries[k] in vs
      {
        var i :| 0 <= i < |keys| && keys[i] == k;
        assert vs[i] == entries[k];
      }
    }
    vs
  }

  /** The scan of `any(...)` over the values: the first item that raises or
      answers true decides. */
  function LengthScan(vs: seq<Value>): (r: Outcome)
    ensures r.Pass? <==> forall i :: 0 <= i < |vs| ==> PartitionByLength(vs[i]).Pass?
    ensures r.Fail? ==> exists i :: 0 <= i < |vs| && r == PartitionByLength(vs[i])
    ensures r.Fail? ==> r.error in {AttributeError, TypeError, ValueError}
  {
    if |vs| == 0 then Pass
    else
      var first := PartitionByLength(vs[0]);
      if first.Fail? then first
      else
        var rest := LengthScan(vs[1..]);
        assert forall i :: 1 <= i < |vs| ==> vs[i] == vs[1..][i - 1];
        rest
  }

  lemma LengthScanOfValues(entries: map<string, Value>)
    ensures LengthScan(InOrder(entries)).Pass? <==>
      forall k :: k in entries ==> PartitionByLength(entries[k]).Pass?
  {
    var vs := InOrder(entries);
    if forall k :: k in entries ==> PartitionByLength(entries[k]).Pass? {
      forall i | 0 <= i < |vs|
        ensures PartitionByLength(vs[i]).Pass?
      {
        var k :| k in entries && entries[k] == vs[i];
      }
    }
  }

  predicate AllDicts(entries: map<string, Value>)
  {
    forall k :: k in entries ==> entries[k].PDict?
  }

  predicate Named(dd: Value)
  {
    dd.PDict? && "name" in dd.entries
  }

  /** `set(dd) - _VALID_KEYS` is non-empty. */
  predicate HasInvalidKeys(dd: Value)
  {
    dd.PDict? && exists key :: key in dd.entries && key !in VALID_KEYS
  }

  /** What the constructors as written let through: a default of length 3,
      a dict of dicts whose `partition_by` values have length 3 and whose
      keys are valid, and at least one entry with a "name". */
  predicate AcceptedAsWritten(partitionBy: string, infiles: Value)
  {
    |partitionBy| == 3 && infiles.PDict? &&
    (forall k :: k in infiles.entries ==>
      PartitionByLength(infiles.entries[k]).Pass? && !HasInvalidKeys(infiles.entries[k])) &&
    (exists k :: k in infiles.entries && Named(infiles.entries[k]))
  }

  /** What the constructors evidently intend to accept: every entry is a
      dict with a "name", valid keys and a `partition_by`, if any, of length
      3. */
  predicate Accepted(partitionBy: string, infiles: Value)
  {
    |partitionBy| == 3 && infiles.PDict? &&
    forall k :: k in infiles.entries ==>
      PartitionByLength(infiles.entries[k]).Pass? && Named(infiles.entries[k]) &&
      !HasInvalidKeys(infiles.entries[k])
  }

  /** The checks both constructors make, as written. A non-dict entry fails
      at `dd.get` before the dict-of-dicts test can see it; only one entry
      needs a "name"; and the message for invalid keys refers to a name
      that is not bound there, so NameError is raised in place of
      ValueError. */
  function CheckInfilesAsWritten(partitionBy: string, infiles: Value): (r: Outcome)
    ensures r.Pass? <==> AcceptedAsWritten(partitionBy, infiles)
    ensures r.Fail? ==> r.error in {ValueError, TypeError, AttributeError, NameError}
  {
    if |partitionBy| != 3 then Fail(ValueError)
    else if !infiles.PDict? then Fail(TypeError)
    else
      var entries := infiles.entries;
      LengthScanOfValues(entries);
      var lengths := LengthScan(InOrder(entries));
      if lengths.Fail? then lengths
      else if !AllDicts(entries) then Fail(TypeError)
      else if !exists k :: k in entries && Named(entries[k]) then Fail(ValueError)
      else if exists k :: k in entries && HasInvalidKeys(entries[k]) then Fail(NameError)
      else Pass
  }

  /** The checks as evidently intended: a non-dict entry is a TypeError,
      every entry needs a "name", and invalid keys raise ValueError. */
  function CheckInfiles(partitionBy: string, infiles: Value): (r: Outcome)
    ensures r.Pass? <==> Accepted(partitionBy, infiles)
    ensures r.Fail? ==> r.error in {ValueError, TypeError}
    ensures |partitionBy| == 3 && infiles.PDict? && !AllDicts(infiles.entries) ==> r == Fail(TypeError)
    ensures (|partitionBy| == 3 && infiles.PDict? && AllDicts(infiles.entries) &&
      (forall k :: k in infiles.entries ==> PartitionByLength(infiles.entries[k]).Pass?) &&
      (exists k :: k in infiles.entries && !Named(infiles.entries[k]))) ==> r == Fail(ValueError)
  {
    if |partitionBy| != 3 then Fail(ValueError)
    else if !infiles.PDict? then Fail(TypeError)
    else
      var entries := infiles.entries;
      LengthScanOfValues(entries);
      if !AllDicts(entries) then Fail(TypeError)
      else
        var lengths := LengthScan(InOrder(entries));
        if lengths.Fail? then lengths
        else if exists k :: k in entries && !Named(entries[k]) then Fail(ValueError)
        else if exists k :: k in entries && HasInvalidKeys(entries[k]) then Fail(ValueError)
        else Pass
  }

  /** Two input files, only the first of which has a "name". */
  const NamelessExample: Value :=
    PDict(map["a.fasta" := PDict(map["name" := PStr("x")]), "b.fasta" := PDict(map[])])

  lemma NamelessExampleShape()
    ensures AcceptedAsWritten("123", NamelessExample)
    ensures !Accepted("123", NamelessExample)
  {
    var entries := NamelessExample.entries;
    assert entries.Keys == {"a.fasta", "b.fasta"};
    assert !HasInvalidKeys(entries["a.fasta"]) && !HasInvalidKeys(entries["b.fasta"]);
    assert PartitionByLength(entries["a.fasta"]).Pass? && PartitionByLength(entries["b.fasta"]).Pass?;
    assert Named(entries["a.fasta"]);
    assert !Named(entries["b.fasta"]);
  }

  /** An entry without "name" passes the checks as written when another
      entry has one; the intended check rejects it. */
  lemma NamelessEntryAccepted()
    ensures CheckInfilesAsWritten("123", NamelessExample) == Pass
    ensures CheckInfiles("123", NamelessExample) == Fail(ValueError)
  {
    NamelessExampleShape();
    var entries := NamelessExample.entries;
    assert AllDicts(entries);
    assert forall k :: k in entries ==> PartitionByLength(entries[k]).Pass?;
    assert !Named(entries["b.fasta"]);
  }

  /** A string where an entry dict belongs raises AttributeError as written
      and TypeError as intended. */
  lemma StringEntryAttributeError()
    ensures var infiles := PDict(map["a.fasta" := PStr("x")]);
      CheckInfilesAsWritten("123", infiles) == Fail(AttributeError) &&
      CheckInfiles("123", infiles) == Fail(TypeError)
  {
    var entries := map["a.fasta" := PStr("x")];
    var vs := InOrder(entries);
    assert vs != [];
    assert vs[0] == PStr("x");
    assert LengthScan(vs) == Fail(AttributeError);
  }

  /** One input file with a key other than "name" and "partition_by". */
  const InvalidKeyExample: Value :=
    PDict(map["a.fasta" := PDict(map["name" := PStr("x"), "size" := PInt(1)])])

  lemma InvalidKeyExampleShape()
    ensures InvalidKeyExample.PDict? && AllDicts(InvalidKeyExample.entries)
    ensures forall k :: k in InvalidKeyExample.entries ==> PartitionByLength(InvalidKeyExample.entries[k]).Pass?
    ensures forall k :: k in InvalidKeyExample.entries ==> Named(InvalidKeyExample.entries[k])
    ensures exists k :: k in InvalidKeyExample.entries && HasInvalidKeys(InvalidKeyExample.entries[k])
  {
    var dd := PDict(map["name" := PStr("x"), "size" := PInt(1)]);
    assert InvalidKeyExample.entries.Keys == {"a.fasta"};
    assert "size" in dd.entries && "size" !in VALID_KEYS;
    assert HasInvalidKeys(InvalidKeyExample.entries["a.fasta"]);
  }

  /** An invalid key raises NameError as written and ValueError as
      intended. */
  lemma InvalidKeyNameError()
    ensures CheckInfilesAsWritten("123", InvalidKeyExample) == Fail(NameError)
    ensures CheckInfiles("123", InvalidKeyExample) == Fail(ValueError)
  {
    InvalidKeyExampleShape();
    LengthScanOfValues(InvalidKeyExample.entries);
  }

  // ---------------------------------------------------------------------
  // _get_partition_by

  /** `zip(groups, range(3))` stops after three labels. */
  function Span(groups: string): (n: nat)
    ensures n <= 3 && n <= |groups|
    ensures |groups| >= 3 ==> n == 3
  {
    if |groups| < 3 then |groups| else 3
  }

  /** The tag of codon offset `o`, a one-character string. */
  function Label(groups: string, o: nat): string
    requires o < |groups|
  {
    [groups[o]]
  }

  /** The labels of the offsets from `k` on. */
  function LabelsFrom(groups: string, k: nat): set<string>
    requires k <= Span(groups)
    decreases Span(groups) - k
  {
    if k == Span(groups) then {} else {Label(groups, k)} + LabelsFrom(groups, k + 1)
  }

  function LabelSet(groups: string): set<string>
  {
    LabelsFrom(groups, 0)
  }

  lemma {:induction false} LabelsFromMembers(groups: string, k: nat)
    requires k <= Span(groups)
    ensures forall o :: k <= o < Span(groups) ==> Label(groups, o) in LabelsFrom(groups, k)
    ensures forall tag :: tag in LabelsFrom(groups, k) ==> exists o :: k <= o < Span(groups) && Label(groups, o) == tag
    decreases Span(groups) - k
  {
    if k < Span(groups) {
      LabelsFromMembers(groups, k + 1);
    }
  }

  /** The labels are exactly those of the offsets `zip` reaches. */
  lemma LabelSetMembers(groups: string)
    ensures forall o :: 0 <= o < Span(groups) ==> Label(groups, o) in LabelSet(groups)
    ensures forall tag :: tag in LabelSet(groups) ==> exists o :: 0 <= o < Span(groups) && Label(groups, o) == tag
  {
    LabelsFromMembers(groups, 0);
  }

  /** The offsets from `k` on that carry `tag`, in increasing order. */
  function OffsetsFrom(groups: string, tag: string, k: nat): (r: seq<nat>)
    requires k <= Span(groups)
    ensures forall i :: 0 <= i < |r| ==> k <= r[i] < Span(groups) && Label(groups, r[i]) == tag
    ensures forall i, j :: 0 <= i < j < |r| ==> r[i] < r[j]
    ensures forall o :: k <= o < Span(groups) && Label(groups, o) == tag ==> o in r
    decreases Span(groups) - k
  {
    if k == Span(groups) then []
    else (if Label(groups, k) == tag then [k] else []) + OffsetsFrom(groups, tag, k + 1)
  }

  /** Each of `tags` with the offsets carrying it. */
  function TagGroups(groups: string, tags: seq<string>): (r: seq<(string, seq<nat>)>)
    ensures |r| == |tags|
    ensures forall i :: 0 <= i < |r| ==> r[i] == (tags[i], OffsetsFrom(groups, tags[i], 0))
  {
    seq(|tags|, i requires 0 <= i < |tags| => (tags[i], OffsetsFrom(groups, tags[i], 0)))
  }

  lemma TagGroupsOfSorted(groups: string, r: seq<(string, seq<nat>)>)
    requires r == TagGroups(groups, PyText.SortedSet(LabelSet(groups)))
    ensures forall i :: 0 <= i < |r| ==> r[i].0 in LabelSet(groups)
    ensures forall tag :: tag in LabelSet(groups) ==> exists i :: 0 <= i < |r| && r[i].0 == tag
    ensures forall i, j :: 0 <= i < j < |r| ==> PyText.StrLess(r[i].0, r[j].0)
  {
    var tags := PyText.SortedSet(LabelSet(groups));
    forall i | 0 <= i < |r|
      ensures r[i].0 in LabelSet(groups)
    {
      assert r[i].0 == tags[i];
      assert tags[i] in tags;
    }
    forall tag | tag in LabelSet(groups)
      ensures exists i :: 0 <= i < |r| && r[i].0 == tag
    {
      var i :| 0 <= i < |tags| && tags[i] == tag;
      assert r[i].0 == tag;
    }
    forall i, j | 0 <= i < j < |r|
      ensures PyText.StrLess(r[i].0, r[j].0)
    {
      assert r[i].0 == tags[i] && r[j].0 == tags[j];
    }
  }

  /** `_get_partition_by`: each label with the offsets carrying it, sorted
      by label. */
  function PartitionBy(groups: string): (r: seq<(string, seq<nat>)>)
    ensures |r| == |LabelSet(groups)|
    ensures forall i :: 0 <= i < |r| ==> r[i].1 == OffsetsFrom(groups, r[i].0, 0)
  {
    TagGroups(groups, PyText.SortedSet(LabelSet(groups)))
  }

  /** A file contributes labels exactly when its `partition_by` is not
      empty. */
  lemma PartitionByEmpty(groups: string)
    ensures |PartitionBy(groups)| == 0 <==> |groups| == 0
  {
    LabelSetMembers(groups);
    if |groups| > 0 {
      assert Label(groups, 0) in LabelSet(groups);
    }
  }

  /** The groups are those of the labels `groups` uses, each once, sorted
      by label. */
  lemma PartitionByLabels(groups: string)
    ensures var r := PartitionBy(groups);
      (forall i :: 0 <= i < |r| ==> r[i].0 in LabelSet(groups)) &&
      (forall tag :: tag in LabelSet(groups) ==> exists i :: 0 <= i < |r| && r[i].0 == tag) &&
      (forall i, j :: 0 <= i < j < |r| ==> PyText.StrLess(r[i].0, r[j].0))
  {
    TagGroupsOfSorted(groups, PartitionBy(groups));
  }

  /** Every offset the labels reach lies in some group. */
  lemma PartitionByHas(groups: string, o: nat)
    requires o < Span(groups)
    ensures exists i :: 0 <= i < |PartitionBy(groups)| && o in PartitionBy(groups)[i].1
  {
    var r := PartitionBy(groups);
    PartitionByLabels(groups);
    LabelSetMembers(groups);
    var i :| 0 <= i < |r| && r[i].0 == Label(groups, o);
    assert o in OffsetsFrom(groups, r[i].0, 0);
  }

  /** The group an offset lies in is the one of its own label. */
  lemma PartitionByOwn(groups: string, o: nat, i: nat)
    requires i < |PartitionBy(groups)| && o in PartitionBy(groups)[i].1
    ensures o < Span(groups) && PartitionBy(groups)[i].0 == Label(groups, o)
  {
    var offs := PartitionBy(groups)[i].1;
    var k :| 0 <= k < |offs| && offs[k] == o;
  }

  /** No offset lies in two groups, and no group is empty: the groups
      partition the offsets the labels reach. */
  lemma PartitionByDisjoint(groups: string)
    ensures var r := PartitionBy(groups);
      (forall i, j, o :: 0 <= i < |r| && 0 <= j < |r| && o in r[i].1 && o in r[j].1 ==> i == j) &&
      (forall i :: 0 <= i < |r| ==> |r[i].1| > 0)
  {
    var r := PartitionBy(groups);
    PartitionByLabels(groups);
    LabelSetMembers(groups);
    forall i, j, o | 0 <= i < |r| && 0 <= j < |r| && o in r[i].1 && o in r[j].1
      ensures i == j
    {
      if i != j {
        PartitionByOwn(groups, o, i);
        PartitionByOwn(groups, o, j);
        PyText.StrLessIrreflexive(Label(groups, o));
        assert false;
      }
    }
    forall i | 0 <= i < |r|
      ensures |r[i].1| > 0
    {
      var p :| 0 <= p < Span(groups) && Label(groups, p) == r[i].0;
      assert p in r[i].1;
    }
  }

  // ---------------------------------------------------------------------
  // The parts of one file's range

  /** A partition part: "lo-hi" covers every position of the range,
      "lo-hi\3" every third one from `lo`. */
  datatype Part = Whole(lo: int, hi: int) | EveryThird(lo: int, hi: int)

  function RenderPart(p: Part): string
  {
    match p
    case Whole(lo, hi) => PyText.IntToString(lo) + "-" + PyText.IntToString(hi)
    case EveryThird(lo, hi) => PyText.IntToString(lo) + "-" + PyText.IntToString(hi) + "\\3"
  }

  /** The positions a part stands for. */
  predicate Covers(p: Part, pos: int)
  {
    match p
    case Whole(lo, hi) => lo <= pos <= hi
    case EveryThird(lo, hi) => lo <= pos <= hi && (pos - lo) % 3 == 0
  }

  /** The parts of one tag over the range `start..end`: the whole range
      when the tag has all three offsets, and one every-third part per
      offset otherwise. */
  function GroupParts(start: int, end: int, offsets: seq<nat>): (r: seq<Part>)
  {
    if |offsets| != 3 then seq(|offsets|, i requires 0 <= i < |offsets| => EveryThird(start + offsets[i], end))
    else [Whole(start, end)]
  }

  /** Three increasing offsets below 3 are 0, 1 and 2. */
  lemma AllThreeOffsets(groups: string, tag: string)
    requires |groups| >= 3
    requires |OffsetsFrom(groups, tag, 0)| == 3
    ensures forall o :: 0 <= o < 3 ==> Label(groups, o) == tag
  {
    var offs := OffsetsFrom(groups, tag, 0);
    assert offs[0] < offs[1] < offs[2] < 3;
    assert offs[0] == 0 && offs[1] == 1 && offs[2] == 2;
  }

  /** A label holding all three offsets covers the whole range. */
  lemma WholeCover(groups: string, tag: string, start: int, end: int, pos: int)
    requires |groups| >= 3
    requires start <= pos <= end
    requires |OffsetsFrom(groups, tag, 0)| == 3
    ensures (exists p :: p in GroupParts(start, end, OffsetsFrom(groups, tag, 0)) && Covers(p, pos)) <==>
      Label(groups, (pos - start) % 3) == tag
  {
    AllThreeOffsets(groups, tag);
    var parts := GroupParts(start, end, OffsetsFrom(groups, tag, 0));
    assert Covers(parts[0], pos);
  }

  /** An every-third part from `start + o` covers exactly the positions at
      codon offset `o`. */
  lemma EveryThirdCovers(start: int, end: int, o: nat, pos: int)
    requires o < 3
    requires start <= pos <= end
    ensures Covers(EveryThird(start + o, end), pos) <==> (pos - start) % 3 == o
  {
  }

  /** A label holding one or two offsets covers the positions at those
      offsets... */
  lemma ThirdsCoverOwn(groups: string, tag: string, start: int, end: int, pos: int)
    requires |groups| >= 3
    requires start <= pos <= end
    requires |OffsetsFrom(groups, tag, 0)| != 3
    requires Label(groups, (pos - start) % 3) == tag
    ensures exists p :: p in GroupParts(start, end, OffsetsFrom(groups, tag, 0)) && Covers(p, pos)
  {
    var offs := OffsetsFrom(groups, tag, 0);
    var o := (pos - start) % 3;
    assert o in offs;
    var i :| 0 <= i < |offs| && offs[i] == o;
    EveryThirdCovers(start, end, o, pos);
    assert GroupParts(start, end, offs)[i] == EveryThird(start + o, end);
  }

  /** An every-third part of the range is at one of the offsets. */
  lemma EveryThirdOnly(offs: seq<nat>, start: int, end: int, pos: int, p: Part) returns (i: nat)
    requires |offs| != 3 && forall j :: 0 <= j < |offs| ==> offs[j] < 3
    requires start <= pos <= end
    requires p in GroupParts(start, end, offs) && Covers(p, pos)
    ensures i < |offs| && (pos - start) % 3 == offs[i]
  {
    var parts := GroupParts(start, end, offs);
    i :| 0 <= i < |parts| && parts[i] == p;
    EveryThirdCovers(start, end, offs[i], pos);
  }

  /** ... and no other positions. */
  lemma ThirdsCoverOnly(groups: string, tag: string, start: int, end: int, pos: int, p: Part)
    requires |groups| >= 3
    requires start <= pos <= end
    requires |OffsetsFrom(groups, tag, 0)| != 3
    requires p in GroupParts(start, end, OffsetsFrom(groups, tag, 0)) && Covers(p, pos)
    ensures Label(groups, (pos - start) % 3) == tag
  {
    var offs := OffsetsFrom(groups, tag, 0);
    var i := EveryThirdOnly(offs, start, end, pos, p);
    assert Label(groups, offs[i]) == tag;
  }

  lemma ThirdsCover(groups: string, tag: string, start: int, end: int, pos: int)
    requires |groups| >= 3
    requires start <= pos <= end
    requires |OffsetsFrom(groups, tag, 0)| != 3
    ensures (exists p :: p in GroupParts(start, end, OffsetsFrom(groups, tag, 0)) && Covers(p, pos)) <==>
      Label(groups, (pos - start) % 3) == tag
  {
    if Label(groups, (pos - start) % 3) == tag {
      ThirdsCoverOwn(groups, tag, start, end, pos);
    }
    if exists p :: p in GroupParts(start, end, OffsetsFrom(groups, tag, 0)) && Covers(p, pos) {
      var p :| p in GroupParts(start, end, OffsetsFrom(groups, tag, 0)) && Covers(p, pos);
      ThirdsCoverOnly(groups, tag, start, end, pos, p);
    }
  }

  /** Within one file's range, a position is covered by the parts of the
      label of its codon offset, and by no other label's parts. */
  lemma GroupPartsCover(groups: string, tag: string, start: int, end: int, pos: int)
    requires |groups| >= 3
    requires start <= pos <= end
    ensures (exists p :: p in GroupParts(start, end, OffsetsFrom(groups, tag, 0)) && Covers(p, pos)) <==>
      Label(groups, (pos - start) % 3) == tag
  {
    if |OffsetsFrom(groups, tag, 0)| == 3 {
      WholeCover(groups, tag, start, end, pos);
    } else {
      ThirdsCover(groups, tag, start, end, pos);
    }
  }

  // ---------------------------------------------------------------------
  // Consecutive ranges

  /** The 1-based range each of `lengths` gets after those before it:
      `start, end = end + 1, end + length`. */
  function Ranges(lengths: seq<nat>): (r: seq<(int, int)>)
    ensures |r| == |lengths|
  {
    if |lengths| == 0 then []
    else Ranges(lengths[..|lengths| - 1]) + [(Sum(lengths[..|lengths| - 1]) + 1, Sum(lengths))]
  }

  /** Each range runs from the sum of the lengths before it, plus one, to
      the sum up to and including its own. */
  lemma {:induction false} RangesSums(lengths: seq<nat>)
    ensures forall k :: 0 <= k < |lengths| ==>
      Ranges(lengths)[k] == (Sum(lengths[..k]) + 1, Sum(lengths[..k + 1]))
  {
    if |lengths| > 0 {
      var n := |lengths| - 1;
      var init := lengths[..n];
      RangesSums(init);
      var r := Ranges(lengths);
      forall k | 0 <= k < |lengths|
        ensures r[k] == (Sum(lengths[..k]) + 1, Sum(lengths[..k + 1]))
      {
        if k < n {
          assert init[..k] == lengths[..k];
          assert init[..k + 1] == lengths[..k + 1];
          assert r[k] == Ranges(init)[k];
        } else {
          assert lengths[..k + 1] == lengths;
        }
      }
    }
  }

  lemma SumSnoc(lengths: seq<nat>, k: nat)
    requires k < |lengths|
    ensures Sum(lengths[..k + 1]) == Sum(lengths[..k]) + lengths[k]
  {
    assert lengths[..k + 1][..k] == lengths[..k];
  }

  /** The ranges start at 1, each is as long as its item, and each starts
      right after the one before it ends. */
  lemma RangesConsecutive(lengths: seq<nat>)
    ensures |lengths| > 0 ==> Ranges(lengths)[0].0 == 1
    ensures forall k :: 0 <= k < |lengths| ==> Ranges(lengths)[k].1 - Ranges(lengths)[k].0 + 1 == lengths[k]
    ensures forall k :: 1 <= k < |lengths| ==> Ranges(lengths)[k].0 == Ranges(lengths)[k - 1].1 + 1
  {
    RangesSums(lengths);
    forall k | 0 <= k < |lengths|
      ensures Ranges(lengths)[k].1 - Ranges(lengths)[k].0 + 1 == lengths[k]
    {
      SumSnoc(lengths, k);
    }
    if |lengths| > 0 {
      assert lengths[..0] == [];
    }
  }

  // ---------------------------------------------------------------------
  // FastaToPartitionsNode._run and _read_sequences

  /** A per-file entry once the constructor checks have passed. */
  datatype Infile = Infile(name: Option<string>, partitionBy: Option<string>)

  /** `self._infiles[filename].get("partition_by", self._part_by)`. */
  function GroupsOf(infile: Infile, defaultBy: string): string
  {
    if infile.partitionBy.Some? then infile.partitionBy.value else defaultBy
  }

  /** `read_msa(filename)`: the alignment a file holds, or what reading it
      raises. */
  function ReadOf(contents: map<string, Result<Msa.Alignment>>, filename: string): Result<Msa.Alignment>
  {
    if filename in contents then contents[filename] else Err(OSError)
  }

  /** `read_msa` validates what it returns. */
  predicate ContentsValid(contents: map<string, Result<Msa.Alignment>>)
  {
    forall f :: f in contents && contents[f].Ok? ==> Msa.WellFormed(contents[f].value)
  }

  /** `len(next(iter(msa.values())))`: the length of any sequence, which
      is the same for all of them in a well-formed alignment. */
  function SequenceLength(msa: Msa.Alignment): (n: nat)
    requires Msa.WellFormed(msa)
    ensures forall name :: name in msa ==> |msa[name]| == n
  {
    var name :| name in msa;
    |msa[name]|
  }

  /** The state of `FastaToPartitionsNode._run` between files: the running
      `end`, the name set `_read_sequences` expects, and the parts collected
      per partition name. */
  datatype Progress = Progress(end: nat, expected: Option<set<string>>, partitions: map<string, seq<Part>>)

  /** `partitions[name].extend(parts)` for each label of one file, in
      order; the file's "name" is looked up for each label, so a missing
      one raises KeyError at the first label. */
  function AddGroups(partitions: map<string, seq<Part>>, name: Option<string>, start: int, end: int,
                     groups: seq<(string, seq<nat>)>): (r: Result<map<string, seq<Part>>>)
    ensures r.Err? <==> name.None? && |groups| > 0
    ensures r.Err? ==> r.error == KeyError
    ensures r.Ok? ==> partitions.Keys <= r.value.Keys
    ensures r.Ok? ==> forall i :: 0 <= i < |groups| ==> name.value + "_" + groups[i].0 in r.value
  {
    if |groups| == 0 then Ok(partitions)
    else
      var prev := AddGroups(partitions, name, start, end, groups[..|groups| - 1]);
      if prev.Err? then prev
      else if name.None? then Err(KeyError)
      else
        var last := groups[|groups| - 1];
        var key := name.value + "_" + last.0;
        var existing := if key in prev.value then prev.value[key] else [];
        var r := prev.value[key := existing + GroupParts(start, end, last.1)];
        assert forall i :: 0 <= i < |groups| - 1 ==> groups[..|groups| - 1][i] == groups[i];
        Ok(r)
  }

  /** What the loop sees of one file: its "name", its labels from
      `_get_partition_by`, and what `read_msa` gives for it. */
  datatype FileStep = FileStep(name: Option<string>, groups: seq<(string, seq<nat>)>, read: Result<Msa.Alignment>)

  predicate StepValid(step: FileStep)
  {
    step.read.Ok? ==> Msa.WellFormed(step.read.value)
  }

  /** One file of the loop: `_read_sequences` reads it and compares its
      names with those of the first file, then the file gets the range
      after the previous one and its labels' parts. */
  function StepFile(st: Progress, step: FileStep): (r: Result<Progress>)
    requires StepValid(step)
    ensures r.Ok? <==> (step.read.Ok? &&
                        (st.expected.None? || st.expected.value == {} || step.read.value.Keys == st.expected.value) &&
                        (step.name.Some? || |step.groups| == 0))
    ensures r.Ok? ==> r.value.end == st.end + SequenceLength(step.read.value)
    ensures r.Ok? ==> (r.value.expected ==
      (if st.expected.None? || st.expected.value == {} then Some(step.read.value.Keys) else st.expected))
    ensures r.Err? && step.read.Ok? ==> r.error == NodeError || r.error == KeyError
  {
    if step.read.Err? then Err(step.read.error)
    else
      var msa := step.read.value;
      var first := st.expected.None? || st.expected.value == {};
      if !first && msa.Keys != st.expected.value then Err(NodeError)
      else
        var end := st.end + SequenceLength(msa);
        var parts := AddGroups(st.partitions, step.name, st.end + 1, end, step.groups);
        if parts.Err? then Err(parts.error)
        else Ok(Progress(end, if first then Some(msa.Keys) else st.expected, parts.value))
  }

  /** `_get_partition_by(filename)` and `read_msa(filename)` for one file. */
  function StepOf(filename: string, infiles: map<string, Infile>, defaultBy: string,
                  contents: map<string, Result<Msa.Alignment>>): (r: FileStep)
    requires filename in infiles
    requires ContentsValid(contents)
    ensures StepValid(r)
  {
    FileStep(infiles[filename].name, PartitionBy(GroupsOf(infiles[filename], defaultBy)), ReadOf(contents, filename))
  }

  /** The files' steps, in the given order. */
  function FileSteps(files: seq<string>, infiles: map<string, Infile>, defaultBy: string,
                     contents: map<string, Result<Msa.Alignment>>): (r: seq<FileStep>)
    requires forall i :: 0 <= i < |files| ==> files[i] in infiles
    requires ContentsValid(contents)
    ensures |r| == |files|
    ensures forall i :: 0 <= i < |r| ==> StepValid(r[i]) && r[i] == StepOf(files[i], infiles, defaultBy, contents)
  {
    seq(|files|, i requires 0 <= i < |files| => StepOf(files[i], infiles, defaultBy, contents))
  }

  /** The loop of `_run` over the steps. */
  function RunSteps(steps: seq<FileStep>): Result<Progress>
    requires forall i :: 0 <= i < |steps| ==> StepValid(steps[i])
  {
    if |steps| == 0 then Ok(Progress(0, None, map[]))
    else
      var prev := RunSteps(steps[..|steps| - 1]);
      if prev.Err? then prev else StepFile(prev.value, steps[|steps| - 1])
  }

  function RenderParts(parts: seq<Part>): (r: seq<string>)
    ensures |r| == |parts|
  {
    seq(|parts|, i requires 0 <= i < |parts| => RenderPart(parts[i]))
  }

  /** The partition file: one line "DNA, <name> = <parts>" per partition
      name, in sorted name order (each line is followed by a newline in the
      file). */
  function PartitionLines(partitions: map<string, seq<Part>>): (r: seq<string>)
    ensures |r| == |partitions.Keys|
    ensures forall i :: 0 <= i < |r| ==>
      var name := PyText.SortedSet(partitions.Keys)[i];
      name in partitions && r[i] == "DNA, " + name + " = " + PyText.Join(", ", RenderParts(partitions[name]))
  {
    var names := PyText.SortedSet(partitions.Keys);
    seq(|names|, i requires 0 <= i < |names| =>
      "DNA, " + names[i] + " = " + PyText.Join(", ", RenderParts(partitions[names[i]])))
  }

  /** `FastaToPartitionsNode._run`: the lines of the partition file, or the
      error raised on the way; the files are taken in sorted order. */
  function PartitionsOutput(infiles: map<string, Infile>, defaultBy: string,
                            contents: map<string, Result<Msa.Alignment>>): Result<seq<string>>
    requires ContentsValid(contents)
  {
    var files := PyText.SortedSet(infiles.Keys);
    var run := RunSteps(FileSteps(files, infiles, defaultBy, contents));
    if run.Err? then Err(run.error) else Ok(PartitionLines(run.value.partitions))
  }

  /** The inner loop: `partitions[name].extend(parts)` per label. */
  method AddFileParts(partitions: map<string, seq<Part>>, name: Option<string>, start: int, end: int,
                      groups: seq<(string, seq<nat>)>) returns (r: Result<map<string, seq<Part>>>)
    ensures r == AddGroups(partitions, name, start, end, groups)
  {
    var result := partitions;
    var j := 0;
    while j < |groups|
      invariant 0 <= j <= |groups|
      invariant AddGroups(partitions, name, start, end, groups[..j]) == Ok(result)
    {
      var (tag, offsets) := groups[j];
      var parts: seq<Part>;
      if |offsets| != 3 {
        parts := seq(|offsets|, i requires 0 <= i < |offsets| => EveryThird(start + offsets[i], end));
      } else {
        parts := [Whole(start, end)];
      }
      if name.None? {
        return Err(KeyError);
      }
      var key := name.value + "_" + tag;
      var existing := if key in result then result[key] else [];
      AddGroupsStep(partitions, name, start, end, groups, j, result);
      result := result[key := existing + parts];
      j := j + 1;
    }
    assert groups[..j] == groups;
    return Ok(result);
  }

  /** One more label extends the partitions built so far. */
  lemma AddGroupsStep(partitions: map<string, seq<Part>>, name: Option<string>, start: int, end: int,
                      groups: seq<(string, seq<nat>)>, j: nat, result: map<string, seq<Part>>)
    requires j < |groups| && name.Some?
    requires AddGroups(partitions, name, start, end, groups[..j]) == Ok(result)
    ensures var key := name.value + "_" + groups[j].0;
      var existing := if key in result then result[key] else [];
      AddGroups(partitions, name, start, end, groups[..j + 1])
        == Ok(result[key := existing + GroupParts(start, end, groups[j].1)])
  {
    assert groups[..j + 1][..j] == groups[..j];
  }

  /** Once a prefix of the steps has raised, the loop raises the same. */
  lemma {:induction false} RunStepsErrStays(steps: seq<FileStep>, k: nat)
    requires forall i :: 0 <= i < |steps| ==> StepValid(steps[i])
    requires k <= |steps|
    requires RunSteps(steps[..k]).Err?
    ensures RunSteps(steps) == RunSteps(steps[..k])
  {
    if k == |steps| {
      assert steps[..k] == steps;
    } else {
      var init := steps[..|steps| - 1];
      assert init[..k] == steps[..k];
      RunStepsErrStays(init, k);
    }
  }

  /** Every file could be read. */
  predicate AllRead(steps: seq<FileStep>)
  {
    forall i :: 0 <= i < |steps| ==> steps[i].read.Ok?
  }

  /** Every file holds the names of the first one. */
  predicate SameNames(steps: seq<FileStep>)
    requires AllRead(steps)
  {
    forall i :: 0 <= i < |steps| ==> steps[i].read.value.Keys == steps[0].read.value.Keys
  }

  /** Every file that contributes a label has a "name". */
  predicate NamesGiven(steps: seq<FileStep>)
  {
    forall i :: 0 <= i < |steps| ==> steps[i].name.Some? || |steps[i].groups| == 0
  }

  /** The alignment length of each file, in loop order. */
  function StepLengths(steps: seq<FileStep>): (r: seq<nat>)
    requires forall i :: 0 <= i < |steps| ==> StepValid(steps[i])
    requires AllRead(steps)
    ensures |r| == |steps|
  {
    if |steps| == 0 then []
    else
      var n := |steps| - 1;
      assert StepValid(steps[n]);
      StepLengths(steps[..n]) + [SequenceLength(steps[n].read.value)]
  }

  /** The loop succeeds exactly when every file is read, every file has
      the first file's names, and every file with a label has a "name". */
  lemma RunStepsOk(steps: seq<FileStep>)
    requires forall i :: 0 <= i < |steps| ==> StepValid(steps[i])
    ensures RunSteps(steps).Ok? <==> (AllRead(steps) && SameNames(steps) && NamesGiven(steps))
  {
    if RunSteps(steps).Ok? {
      RunStepsOkThen(steps);
    } else if AllRead(steps) && SameNames(steps) && NamesGiven(steps) {
      RunStepsOkWhen(steps);
    }
  }

  lemma {:induction false} RunStepsOkThen(steps: seq<FileStep>)
    requires forall i :: 0 <= i < |steps| ==> StepValid(steps[i])
    requires RunSteps(steps).Ok?
    ensures AllRead(steps) && SameNames(steps) && NamesGiven(steps)
  {
    if |steps| > 0 {
      var n := |steps| - 1;
      var init := steps[..n];
      assert RunSteps(steps) == StepFile(RunSteps(init).value, steps[n]);
      RunStepsOkThen(init);
      StepAfterOk(init, steps[n]);
      StepsSnoc(steps);
    }
  }

  lemma {:induction false} RunStepsOkWhen(steps: seq<FileStep>)
    requires forall i :: 0 <= i < |steps| ==> StepValid(steps[i])
    requires AllRead(steps) && SameNames(steps) && NamesGiven(steps)
    ensures RunSteps(steps).Ok?
  {
    if |steps| > 0 {
      var n := |steps| - 1;
      var init := steps[..n];
      StepsSnoc(steps);
      RunStepsOkWhen(init);
      StepAfterOk(init, steps[n]);
    }
  }

  /** The three conditions on the steps, one file at a time. */
  lemma StepsSnoc(steps: seq<FileStep>)
    requires |steps| > 0
    ensures var n := |steps| - 1;
      (AllRead(steps) <==> AllRead(steps[..n]) && steps[n].read.Ok?) &&
      (NamesGiven(steps) <==> NamesGiven(steps[..n]) && (steps[n].name.Some? || |steps[n].groups| == 0)) &&
      (AllRead(steps) ==>
        (SameNames(steps) <==>
          SameNames(steps[..n]) && (n > 0 ==> (steps[..n][0].read.value.Keys == steps[0].read.value.Keys &&
                                               steps[n].read.value.Keys == steps[..n][0].read.value.Keys))))
  {
    var n := |steps| - 1;
    var init := steps[..n];
    assert forall i :: 0 <= i < n ==> init[i] == steps[i];
  }

  /** The step after a successful prefix succeeds exactly when the file is
      read, has the first file's names and has a "name" if it has a label. */
  lemma StepAfterOk(init: seq<FileStep>, step: FileStep)
    requires forall i :: 0 <= i < |init| ==> StepValid(init[i])
    requires StepValid(step)
    requires RunSteps(init).Ok?
    ensures StepFile(RunSteps(init).value, step).Ok? <==>
      (step.read.Ok? && (|init| > 0 ==> init[0].read.Ok? && step.read.value.Keys == init[0].read.value.Keys) &&
       (step.name.Some? || |step.groups| == 0))
  {
    RunStepsExpected(init);
    if |init| > 0 {
      assert StepValid(init[0]);
    }
  }

  /** After a successful loop the expected names are the first file's. */
  lemma {:induction false} RunStepsExpected(steps: seq<FileStep>)
    requires forall i :: 0 <= i < |steps| ==> StepValid(steps[i])
    ensures RunSteps(steps).Ok? && |steps| == 0 ==> RunSteps(steps).value.expected.None?
    ensures RunSteps(steps).Ok? && |steps| > 0 ==>
      steps[0].read.Ok? && RunSteps(steps).value.expected == Some(steps[0].read.value.Keys)
  {
    if |steps| > 1 {
      var n := |steps| - 1;
      var init := steps[..n];
      RunStepsExpected(init);
      assert StepValid(steps[0]);
      assert init[0] == steps[0];
    }
  }

  /** After a successful loop `end` is the sum of the file lengths. */
  lemma {:induction false} RunStepsEnd(steps: seq<FileStep>)
    requires forall i :: 0 <= i < |steps| ==> StepValid(steps[i])
    requires RunSteps(steps).Ok?
    ensures AllRead(steps) && RunSteps(steps).value.end == Sum(StepLengths(steps))
  {
    if |steps| > 0 {
      var n := |steps| - 1;
      var init := steps[..n];
      assert RunSteps(steps) == StepFile(RunSteps(init).value, steps[n]);
      RunStepsEnd(init);
      StepsSnoc(steps);
      var lengths := StepLengths(steps);
      assert lengths == StepLengths(init) + [SequenceLength(steps[n].read.value)];
      assert lengths[..n] == StepLengths(init);
    }
  }

  /** What the loop raises: a read error, NodeError, or KeyError. */
  lemma {:induction false} RunStepsErrors(steps: seq<FileStep>)
    requires forall i :: 0 <= i < |steps| ==> StepValid(steps[i])
    ensures RunSteps(steps).Err? ==>
      var e := RunSteps(steps).error;
      e == NodeError || e == KeyError || exists i :: 0 <= i < |steps| && steps[i].read == Err(e)
  {
    if |steps| > 0 {
      var n := |steps| - 1;
      var init := steps[..n];
      RunStepsErrors(init);
      var prev := RunSteps(init);
      if prev.Err? && prev.error != NodeError && prev.error != KeyError {
        var i :| 0 <= i < |init| && init[i].read == Err(prev.error);
        assert steps[i] == init[i];
      }
    }
  }

  /** The body of the loop for one file: `_read_sequences` yields it, then
      its range and parts are added. */
  method ProcessFile(st: Progress, step: FileStep) returns (r: Result<Progress>)
    requires StepValid(step)
    ensures r == StepFile(st, step)
  {
    if step.read.Err? {
      return Err(step.read.error);
    }
    var msa := step.read.value;
    var expected := st.expected;
    var first := expected.None? || expected.value == {};
    if !first && msa.Keys != expected.value {
      return Err(NodeError);
    }
    if first {
      expected := Some(msa.Keys);
    }
    var length := SequenceLength(msa);
    var start, end := st.end + 1, st.end + length;
    var added := AddFileParts(st.partitions, step.name, start, end, step.groups);
    if added.Err? {
      return Err(added.error);
    }
    return Ok(Progress(end, expected, added.value));
  }

  /** The loop of `FastaToPartitionsNode._run` over the files in the given
      order, with `_read_sequences` folded into it as the generator runs
      in step with the loop. */
  method ProcessFiles(files: seq<string>, infiles: map<string, Infile>, defaultBy: string,
                      contents: map<string, Result<Msa.Alignment>>) returns (r: Result<Progress>)
    requires forall i :: 0 <= i < |files| ==> files[i] in infiles
    requires ContentsValid(contents)
    ensures r == RunSteps(FileSteps(files, infiles, defaultBy, contents))
  {
    ghost var steps := FileSteps(files, infiles, defaultBy, contents);
    var st := Progress(0, None, map[]);
    var i := 0;
    while i < |files|
      invariant 0 <= i <= |files|
      invariant RunSteps(steps[..i]) == Ok(st)
    {
      assert steps[..i + 1][..i] == steps[..i];
      var filename := files[i];
      var step := StepOf(filename, infiles, defaultBy, contents);
      var next := ProcessFile(st, step);
      if next.Err? {
        RunStepsErrStays(steps, i + 1);
        return next;
      }
      st := next.value;
      i := i + 1;
    }
    assert steps[..i] == steps;
    return Ok(st);
  }

  /** `FastaToPartitionsNode._run`: the files in sorted order, then the
      partition file's lines. */
  method FastaToPartitions(infiles: map<string, Infile>, defaultBy: string,
                           contents: map<string, Result<Msa.Alignment>>) returns (r: Result<seq<string>>)
    requires ContentsValid(contents)
    ensures r == PartitionsOutput(infiles, defaultBy, contents)
  {
    var files := PyText.SortedSet(infiles.Keys);
    var run := ProcessFiles(files, infiles, defaultBy, contents);
    if run.Err? {
      return Err(run.error);
    }
    return Ok(PartitionLines(run.value.partitions));
  }

  // ---------------------------------------------------------------------
  // FastaToPartitionedInterleavedPhyNode._run

  /** One entry of `msas`: "<name>_<key>" and the alignment of that key. */
  type Entry = (string, Msa.Alignment)

  /** The groups listed in `excluded`. */
  function Excluded(excluded: seq<string>): set<string>
  {
    set g | g in excluded
  }

  /** `msa.pop(group)` for each excluded group in turn: KeyError once a
      group is not, or no longer, in the alignment. */
  function RemoveGroups(msa: Msa.Alignment, excluded: seq<string>): (r: Result<Msa.Alignment>)
    ensures r.Ok? <==> (forall i :: 0 <= i < |excluded| ==> excluded[i] in msa) && Distinct(excluded)
    ensures r.Err? ==> r.error == KeyError
    ensures r.Ok? ==> r.value == msa - Excluded(excluded)
  {
    if |excluded| == 0 then Ok(msa)
    else
      var init := excluded[..|excluded| - 1];
      var group := excluded[|excluded| - 1];
      var prev := RemoveGroups(msa, init);
      assert forall i :: 0 <= i < |init| ==> init[i] == excluded[i];
      assert Excluded(excluded) == Excluded(init) + {group};
      if prev.Err? then prev
      else if group !in prev.value then Err(KeyError)
      else Ok(prev.value - {group})
  }

  /** `split_msa`'s result with each key formatted by "%s" into a
      one-character string. */
  function Tagged(split: map<char, Msa.Alignment>): (r: map<string, Msa.Alignment>)
    ensures forall c :: c in split ==> [c] in r && r[[c]] == split[c]
    ensures forall k :: k in r ==> |k| == 1 && k[0] in split && r[k] == split[k[0]]
  {
    map c | c in split :: [c] := split[c]
  }

  /** The entries one file adds to `msas`: for each key of its split, in
      the given order, the excluded groups are popped and the entry is
      named "<name>_<key>"; a missing "name" raises KeyError. */
  function FileEntries(name: Option<string>, tagged: map<string, Msa.Alignment>, excluded: seq<string>,
                       keys: seq<string>): (r: Result<seq<Entry>>)
    requires forall i :: 0 <= i < |keys| ==> keys[i] in tagged
    ensures r.Err? ==> r.error == KeyError
    ensures r.Ok? <==> (|keys| == 0 ||
      (name.Some? && forall i :: 0 <= i < |keys| ==> RemoveGroups(tagged[keys[i]], excluded).Ok?))
    ensures r.Ok? ==> |r.value| == |keys|
    ensures r.Ok? ==> forall i :: 0 <= i < |keys| ==>
      name.Some? && r.value[i] == (name.value + "_" + keys[i], tagged[keys[i]] - Excluded(excluded))
  {
    if |keys| == 0 then Ok([])
    else
      var init := keys[..|keys| - 1];
      var key := keys[|keys| - 1];
      var prev := FileEntries(name, tagged, excluded, init);
      assert forall i :: 0 <= i < |init| ==> init[i] == keys[i];
      if prev.Err? then prev
      else
        var removed := RemoveGroups(tagged[key], excluded);
        if removed.Err? then Err(KeyError)
        else if name.None? then Err(KeyError)
        else Ok(prev.value + [(name.value + "_" + key, removed.value)])
  }

  /** `split_msa(msa, split_by)` as its contract describes it. */
  function SplitOf(msa: Msa.Alignment, splitBy: string): map<char, Msa.Alignment>
    requires |splitBy| > 0
  {
    map key | key in Msa.Labels(splitBy) :: map name | name in msa :: Msa.Columns(msa[name], splitBy, key)
  }

  /** What one file adds to `msas`, or what it raises: the read error,
      TypeError for an empty `partition_by`, or KeyError. */
  function FileResult(filename: string, infiles: map<string, Infile>, defaultBy: string, excluded: seq<string>,
                      contents: map<string, Result<Msa.Alignment>>): Result<seq<Entry>>
    requires filename in infiles
  {
    var read := ReadOf(contents, filename);
    var splitBy := GroupsOf(infiles[filename], defaultBy);
    if read.Err? then Err(read.error)
    else if |splitBy| == 0 then Err(TypeError)
    else
      var tagged := Tagged(SplitOf(read.value, splitBy));
      FileEntries(infiles[filename].name, tagged, excluded, PyText.SortedSet(tagged.Keys))
  }

  /** The files' contributions, in loop order. */
  function FileResults(files: seq<string>, infiles: map<string, Infile>, defaultBy: string, excluded: seq<string>,
                       contents: map<string, Result<Msa.Alignment>>): (r: seq<Result<seq<Entry>>>)
    requires forall i :: 0 <= i < |files| ==> files[i] in infiles
    ensures |r| == |files|
    ensures forall i :: 0 <= i < |files| ==> r[i] == FileResult(files[i], infiles, defaultBy, excluded, contents)
  {
    seq(|files|, i requires 0 <= i < |files| => FileResult(files[i], infiles, defaultBy, excluded, contents))
  }

  /** The loop appending to `msas`: the first error raised, or all the
      entries in order. */
  function Collect(results: seq<Result<seq<Entry>>>): (r: Result<seq<Entry>>)
  {
    if |results| == 0 then Ok([])
    else
      var prev := Collect(results[..|results| - 1]);
      var last := results[|results| - 1];
      if prev.Err? then prev
      else if last.Err? then Err(last.error)
      else Ok(prev.value + last.value)
  }

  /** The loop succeeds exactly when every file does, and then `msas` is
      the files' entries one after the other; otherwise it raises the
      first file's error. */
  lemma {:induction false} CollectMeaning(results: seq<Result<seq<Entry>>>)
    ensures Collect(results).Ok? <==> forall i :: 0 <= i < |results| ==> results[i].Ok?
    ensures Collect(results).Ok? ==>
      Collect(results).value == Flatten(seq(|results|, i requires 0 <= i < |results| && results[i].Ok? => results[i].value))
    ensures Collect(results).Err? ==> exists i :: (0 <= i < |results| && results[i] == Err(Collect(results).error) &&
      forall j :: 0 <= j < i ==> results[j].Ok?)
  {
    if |results| > 0 {
      var n := |results| - 1;
      var init := results[..n];
      CollectMeaning(init);
      assert forall i :: 0 <= i < n ==> init[i] == results[i];
      if Collect(results).Ok? {
        var values := seq(|results|, i requires 0 <= i < |results| && results[i].Ok? => results[i].value);
        var initValues := seq(|init|, i requires 0 <= i < |init| && init[i].Ok? => init[i].value);
        assert values == initValues + [results[n].value];
        FlattenSnoc(initValues, results[n].value);
      }
    }
  }

  /** The sequence length of each entry's alignment. */
  function EntryLengths(entries: seq<Entry>): (r: seq<nat>)
    requires forall i :: 0 <= i < |entries| ==> Msa.WellFormed(entries[i].1)
    ensures |r| == |entries|
    ensures forall i :: 0 <= i < |entries| ==> r[i] == SequenceLength(entries[i].1)
  {
    seq(|entries|, i requires 0 <= i < |entries| => SequenceLength(entries[i].1))
  }

  /** One line of the partition file: an entry's name and its 1-based,
      inclusive column range. */
  datatype RangeLine = RangeLine(name: string, first: int, last: int)

  /** "DNA, <name> = <first>-<last>". */
  function RenderRange(line: RangeLine): string
  {
    "DNA, " + line.name + " = " + PyText.IntToString(line.first) + "-" + PyText.IntToString(line.last)
  }

  function RenderRanges(lines: seq<RangeLine>): (r: seq<string>)
    ensures |r| == |lines|
  {
    seq(|lines|, i requires 0 <= i < |lines| => RenderRange(lines[i]))
  }

  /** The partition file: one line per entry, in the order the entries
      were collected; entry `i` runs from just after the columns of the
      entries before it to the end of its own. */
  function RangeLines(entries: seq<Entry>): (r: seq<RangeLine>)
    requires forall i :: 0 <= i < |entries| ==> Msa.WellFormed(entries[i].1)
    ensures |r| == |entries|
  {
    var lengths := EntryLengths(entries);
    seq(|entries|, i requires 0 <= i < |entries| =>
      RangeLine(entries[i].0, Sum(lengths[..i]) + 1, Sum(lengths[..i + 1])))
  }

  /** The lines carry the consecutive ranges `Ranges` describes. */
  lemma RangeLinesMeaning(entries: seq<Entry>)
    requires forall i :: 0 <= i < |entries| ==> Msa.WellFormed(entries[i].1)
    ensures forall i :: 0 <= i < |entries| ==>
      var ranges := Ranges(EntryLengths(entries));
      RangeLines(entries)[i] == RangeLine(entries[i].0, ranges[i].0, ranges[i].1)
  {
    RangesSums(EntryLengths(entries));
  }

  /** The joined alignment `join_msa` returns for valid arguments. */
  function JoinedOf(msas: seq<Msa.Alignment>): (r: Msa.Alignment)
    requires Msa.ValidMsas(msas)
    ensures Msa.WellFormed(r)
    ensures r.Keys == msas[0].Keys
  {
    var r := map name | name in msas[0] :: Msa.Joined(msas, name);
    Msa.JoinedIsValid(msas, r);
    r
  }

  /** The alignments of the entries, in order. */
  function EntryMsas(entries: seq<Entry>): (r: seq<Msa.Alignment>)
    ensures |r| == |entries|
    ensures forall i :: 0 <= i < |entries| ==> r[i] == entries[i].1
  {
    seq(|entries|, i requires 0 <= i < |entries| => entries[i].1)
  }

  /** The second half of `_run`: `join_msa` of the collected alignments,
      `interleaved_phy` of the result, and the partition lines. */
  function EntriesOutput(entries: seq<Entry>, addFlag: bool): (r: Result<(string, seq<string>)>)
    ensures r.Ok? <==> Msa.ValidMsas(EntryMsas(entries))
    ensures r.Err? ==> r.error == (if |entries| == 0 then TypeError else MSAError)
  {
    var msas := EntryMsas(entries);
    if !Msa.ValidMsas(msas) then Err(Msa.ValidateMsa(msas).error)
    else
      var joined := JoinedOf(msas);
      Ok((PyText.Join("\n", Phylip.InterleavedLines(joined, addFlag, Phylip.MAX_NAME_LENGTH)),
          RenderRanges(RangeLines(entries))))
  }

  /** A name's joined sequence is as long as the alignments' lengths
      together. */
  lemma {:induction false} TotalLengthSum(msas: seq<Msa.Alignment>, name: string, lengths: seq<nat>)
    requires |lengths| == |msas|
    requires forall i :: 0 <= i < |msas| ==> name in msas[i] && |msas[i][name]| == lengths[i]
    ensures Msa.TotalLength(msas, name) == Sum(lengths)
  {
    if |msas| > 0 {
      var n := |msas| - 1;
      assert forall i :: 0 <= i < n ==> msas[..n][i] == msas[i] && lengths[..n][i] == lengths[i];
      TotalLengthSum(msas[..n], name, lengths[..n]);
    }
  }

  /** The joined alignment is as long as its parts together. */
  lemma JoinedOfLength(msas: seq<Msa.Alignment>, lengths: seq<nat>)
    requires Msa.ValidMsas(msas)
    requires |lengths| == |msas|
    requires forall i :: 0 <= i < |msas| ==> lengths[i] == SequenceLength(msas[i])
    ensures SequenceLength(JoinedOf(msas)) == Sum(lengths)
  {
    var name :| name in msas[0];
    assert forall i :: 0 <= i < |msas| ==> name in msas[i] && |msas[i][name]| == lengths[i];
    TotalLengthSum(msas, name, lengths);
    Msa.JoinedLength(msas, name);
  }

  /** The partition ranges cover exactly the columns of the joined
      alignment that is written to the PHYLIP file: the first starts at
      column 1 and the last ends at its length. */
  lemma RangesCoverJoined(entries: seq<Entry>)
    requires Msa.ValidMsas(EntryMsas(entries))
    ensures forall i :: 0 <= i < |entries| ==> Msa.WellFormed(entries[i].1)
    ensures Ranges(EntryLengths(entries))[0].0 == 1
    ensures Ranges(EntryLengths(entries))[|entries| - 1].1 == SequenceLength(JoinedOf(EntryMsas(entries)))
  {
    var msas := EntryMsas(entries);
    assert forall i :: 0 <= i < |entries| ==> Msa.WellFormed(msas[i]);
    var lengths := EntryLengths(entries);
    JoinedOfLength(msas, lengths);
    RangesConsecutive(lengths);
    RangesSums(lengths);
    assert lengths[..|entries|] == lengths;
  }

  /** A file contributes entries exactly when it is read, its
      `partition_by` is not empty, it has a "name", and the excluded
      groups are distinct names of its alignment. */
  lemma FileResultOk(filename: string, infiles: map<string, Infile>, defaultBy: string, excluded: seq<string>,
                     contents: map<string, Result<Msa.Alignment>>)
    requires filename in infiles
    ensures FileResult(filename, infiles, defaultBy, excluded, contents).Ok? <==>
      (ReadOf(contents, filename).Ok? && |GroupsOf(infiles[filename], defaultBy)| > 0 &&
       infiles[filename].name.Some? && Distinct(excluded) &&
       forall i :: 0 <= i < |excluded| ==> excluded[i] in ReadOf(contents, filename).value)
  {
    var read := ReadOf(contents, filename);
    var splitBy := GroupsOf(infiles[filename], defaultBy);
    if read.Ok? && |splitBy| > 0 {
      var split := SplitOf(read.value, splitBy);
      var tagged := Tagged(split);
      var keys := PyText.SortedSet(tagged.Keys);
      assert splitBy[0] in Msa.Labels(splitBy);
      assert [splitBy[0]] in tagged;
      assert |keys| > 0;
      assert forall i :: 0 <= i < |keys| ==> tagged[keys[i]].Keys == read.value.Keys;
    }
  }

  /** `FastaToPartitionedInterleavedPhyNode._run`: the PHYLIP text of the
      joined alignment and the partition file's lines, or the error
      raised on the way. */
  function InterleavedOutput(infiles: map<string, Infile>, defaultBy: string, excluded: seq<string>, addFlag: bool,
                             contents: map<string, Result<Msa.Alignment>>): Result<(string, seq<string>)>
  {
    var files := PyText.SortedSet(infiles.Keys);
    var collected := Collect(FileResults(files, infiles, defaultBy, excluded, contents));
    if collected.Err? then Err(collected.error) else EntriesOutput(collected.value, addFlag)
  }

  /** `for excluded_group in self._excluded: msa.pop(excluded_group)`. */
  method PopGroups(msa: Msa.Alignment, excluded: seq<string>) returns (r: Result<Msa.Alignment>)
    ensures r == RemoveGroups(msa, excluded)
  {
    var current := msa;
    var i := 0;
    while i < |excluded|
      invariant 0 <= i <= |excluded|
      invariant RemoveGroups(msa, excluded[..i]) == Ok(current)
    {
      assert excluded[..i + 1][..i] == excluded[..i];
      var group := excluded[i];
      if group !in current {
        assert RemoveGroups(msa, excluded[..i + 1]).Err?;
        assert excluded[..i + 1] == excluded[..i] + [group];
        return Err(KeyError);
      }
      current := current - {group};
      i := i + 1;
    }
    assert excluded[..i] == excluded;
    return Ok(current);
  }

  /** The loop over one file's split in key order, appending an entry
      per key. */
  method AddEntries(name: Option<string>, tagged: map<string, Msa.Alignment>, excluded: seq<string>,
                    keys: seq<string>) returns (r: Result<seq<Entry>>)
    requires forall i :: 0 <= i < |keys| ==> keys[i] in tagged
    ensures r == FileEntries(name, tagged, excluded, keys)
  {
    var entries: seq<Entry> := [];
    var i := 0;
    while i < |keys|
      invariant 0 <= i <= |keys|
      invariant FileEntries(name, tagged, excluded, keys[..i]) == Ok(entries)
    {
      assert keys[..i + 1][..i] == keys[..i];
      var removed := PopGroups(tagged[keys[i]], excluded);
      if removed.Err? || name.None? {
        assert FileEntries(name, tagged, excluded, keys).Err?;
        return Err(KeyError);
      }
      entries := entries + [(name.value + "_" + keys[i], removed.value)];
      i := i + 1;
    }
    assert keys[..i] == keys;
    return Ok(entries);
  }

  /** `split_msa` gives the split its contract describes. */
  lemma SplitMsaIsSplitOf(split: map<char, Msa.Alignment>, msa: Msa.Alignment, splitBy: string)
    requires |splitBy| > 0
    requires split.Keys == Msa.Labels(splitBy)
    requires forall key :: key in split ==>
      split[key].Keys == msa.Keys &&
      forall name :: name in msa ==> split[key][name] == Msa.Columns(msa[name], splitBy, key)
    ensures split == SplitOf(msa, splitBy)
  {
    var expected := SplitOf(msa, splitBy);
    forall key | key in split
      ensures split[key] == expected[key]
    {
      SplitPartIs(split[key], msa, splitBy, key);
    }
  }

  lemma SplitPartIs(part: Msa.Alignment, msa: Msa.Alignment, splitBy: string, key: char)
    requires |splitBy| > 0
    requires part.Keys == msa.Keys
    requires forall name :: name in msa ==> part[name] == Msa.Columns(msa[name], splitBy, key)
    ensures part == map name | name in msa :: Msa.Columns(msa[name], splitBy, key)
  {
  }

  /** `split_msa(msa, split_by)` with its keys formatted as strings. */
  method SplitTagged(msa: Msa.Alignment, splitBy: string) returns (r: Result<map<string, Msa.Alignment>>)
    requires Msa.WellFormed(msa)
    ensures r.Err? <==> |splitBy| == 0
    ensures r.Err? ==> r.error == TypeError
    ensures r.Ok? ==> |splitBy| > 0 && r.value == Tagged(SplitOf(msa, splitBy))
  {
    var split := Msa.SplitMsa(msa, splitBy);
    if split.Err? {
      return Err(split.error);
    }
    SplitMsaIsSplitOf(split.value, msa, splitBy);
    return Ok(Tagged(split.value));
  }

  /** One file of the loop: read it, split it by its `partition_by`, and
      collect its entries. */
  method ReadEntries(filename: string, infiles: map<string, Infile>, defaultBy: string, excluded: seq<string>,
                     contents: map<string, Result<Msa.Alignment>>) returns (r: Result<seq<Entry>>)
    requires filename in infiles
    requires ContentsValid(contents)
    ensures r == FileResult(filename, infiles, defaultBy, excluded, contents)
  {
    var read := ReadOf(contents, filename);
    if read.Err? {
      return Err(read.error);
    }
    var splitBy := GroupsOf(infiles[filename], defaultBy);
    var tagged := SplitTagged(read.value, splitBy);
    if tagged.Err? {
      return Err(tagged.error);
    }
    r := AddEntries(infiles[filename].name, tagged.value, excluded, PyText.SortedSet(tagged.value.Keys));
  }

  /** Once a prefix of the files has raised, the loop raises the same. */
  lemma {:induction false} CollectErrStays(results: seq<Result<seq<Entry>>>, k: nat)
    requires k <= |results|
    requires Collect(results[..k]).Err?
    ensures Collect(results) == Collect(results[..k])
  {
    if k < |results| {
      var init := results[..|results| - 1];
      assert init[..k] == results[..k];
      CollectErrStays(init, k);
    } else {
      assert results[..k] == results;
    }
  }

  /** The loop over the files in the given order, building `msas`. */
  method CollectFiles(files: seq<string>, infiles: map<string, Infile>, defaultBy: string, excluded: seq<string>,
                      contents: map<string, Result<Msa.Alignment>>) returns (r: Result<seq<Entry>>)
    requires forall i :: 0 <= i < |files| ==> files[i] in infiles
    requires ContentsValid(contents)
    ensures r == Collect(FileResults(files, infiles, defaultBy, excluded, contents))
  {
    ghost var results := FileResults(files, infiles, defaultBy, excluded, contents);
    var entries: seq<Entry> := [];
    var i := 0;
    while i < |files|
      invariant 0 <= i <= |files|
      invariant Collect(results[..i]) == Ok(entries)
    {
      assert results[..i + 1][..i] == results[..i];
      var added := ReadEntries(files[i], infiles, defaultBy, excluded, contents);
      if added.Err? {
        CollectErrStays(results, i + 1);
        return Err(added.error);
      }
      entries := entries + added.value;
      i := i + 1;
    }
    assert results[..i] == results;
    return Ok(entries);
  }

  /** The partition file's loop with its running `end`. */
  method WriteRanges(entries: seq<Entry>) returns (lines: seq<RangeLine>)
    requires forall i :: 0 <= i < |entries| ==> Msa.WellFormed(entries[i].1)
    ensures lines == RangeLines(entries)
  {
    ghost var lengths := EntryLengths(entries);
    var end := 0;
    lines := [];
    var i := 0;
    while i < |entries|
      invariant 0 <= i <= |entries|
      invariant end == Sum(lengths[..i])
      invariant lines == RangeLines(entries)[..i]
    {
      var (name, msa) := entries[i];
      var length := SequenceLength(msa);
      RangeLinesSnoc(entries, i);
      SumSnoc(lengths, i);
      assert RangeLine(name, end + 1, end + length) == RangeLines(entries)[i];
      lines := lines + [RangeLine(name, end + 1, end + length)];
      end := end + length;
      i := i + 1;
    }
    assert RangeLines(entries)[..i] == RangeLines(entries);
  }

  /** The line for entry `i` starts right after the lengths before it. */
  lemma RangeLinesSnoc(entries: seq<Entry>, i: nat)
    requires forall k :: 0 <= k < |entries| ==> Msa.WellFormed(entries[k].1)
    requires i < |entries|
    ensures RangeLines(entries)[..i + 1] == RangeLines(entries)[..i] + [RangeLines(entries)[i]]
    ensures RangeLines(entries)[i]
      == RangeLine(entries[i].0, Sum(EntryLengths(entries)[..i]) + 1, Sum(EntryLengths(entries)[..i + 1]))
  {
  }

  /** `join_msa` gives the alignment `JoinedOf` describes. */
  lemma JoinMsaIsJoinedOf(msas: seq<Msa.Alignment>, joined: Msa.Alignment)
    requires Msa.ValidMsas(msas)
    requires joined.Keys == msas[0].Keys
    requires forall name :: name in joined ==> joined[name] == Msa.Joined(msas, name)
    ensures joined == JoinedOf(msas)
  {
  }

  /** The second half of `_run`: join, write the PHYLIP text, write the
      partition lines. */
  method WriteOutputs(entries: seq<Entry>, addFlag: bool) returns (r: Result<(string, seq<string>)>)
    ensures r == EntriesOutput(entries, addFlag)
  {
    var msas := EntryMsas(entries);
    var joined := Msa.JoinMsa(msas);
    if joined.Err? {
      return Err(joined.error);
    }
    JoinMsaIsJoinedOf(msas, joined.value);
    var phy := Phylip.InterleavedPhy(joined.value, addFlag, Phylip.MAX_NAME_LENGTH);
    var lines := WriteRanges(entries);
    return Ok((phy.value, RenderRanges(lines)));
  }

  /** `FastaToPartitionedInterleavedPhyNode._run`. */
  method PartitionedInterleaved(infiles: map<string, Infile>, defaultBy: string, excluded: seq<string>, addFlag: bool,
                                contents: map<string, Result<Msa.Alignment>>) returns (r: Result<(string, seq<string>)>)
    requires ContentsValid(contents)
    ensures r == InterleavedOutput(infiles, defaultBy, excluded, addFlag, contents)
  {
    var files := PyText.SortedSet(infiles.Keys);
    var collected := CollectFiles(files, infiles, defaultBy, excluded, contents);
    if collected.Err? {
      return Err(collected.error);
    }
    r := WriteOutputs(collected.value, addFlag);
  }
}
