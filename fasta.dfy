// FASTA records as read by `parse_fasta` and written by `wrap_fasta` /
// `print_fasta` (pypeline.common.formats.fasta). That module is not part of
// this model's sources; its behaviour is taken from its unit tests: a header
// line ">name meta", then one or more sequence lines, concatenated; text is
// written in lines of 60 characters.
module Fasta {
  import opened PyErrors
  import opened Seqs
  import Utilities

  /** `((name, meta), sequence)` as yielded by `parse_fasta`. */
  datatype FastaRecord = FastaRecord(name: string, meta: Option<string>, sequence: string)

  /** Characters per sequence line written by `wrap_fasta`. */
  const LineWidth: nat := 60

  function StripNewline(line: string): (r: string)
    ensures |line| > 0 && line[|line| - 1] == '\n' ==> line == r + "\n"
    ensures !(|line| > 0 && line[|line| - 1] == '\n') ==> r == line
  {
    if |line| > 0 && line[|line| - 1] == '\n' then line[..|line| - 1] else line
  }

  predicate IsHeader(line: string)
  {
    |line| > 0 && line[0] == '>'
  }

  function FirstSpace(s: string): (i: nat)
    ensures i <= |s|
    ensures i < |s| ==> s[i] == ' '
    ensures forall j :: 0 <= j < i ==> s[j] != ' '
  {
    if |s| == 0 || s[0] == ' ' then 0 else 1 + FirstSpace(s[1..])
  }

  /** The text after '>' is split at the first space into name and meta. */
  function ParseHeader(text: string): (r: (string, Option<string>))
    ensures ' ' !in r.0
    ensures r.1.None? ==> r.0 == text
    ensures r.1.Some? ==> text == r.0 + " " + r.1.value
  {
    var i := FirstSpace(text);
    if i == |text| then (text, None)
    else
      assert text == text[..i] + " " + text[i + 1..];
      (text[..i], Some(text[i + 1..]))
  }

  /** The number of sequence lines before the next header. */
  function SequenceLineCount(lines: seq<string>): (n: nat)
    ensures n <= |lines|
    ensures forall j :: 0 <= j < n ==> !IsHeader(StripNewline(lines[j]))
    ensures n < |lines| ==> IsHeader(StripNewline(lines[n]))
  {
    if |lines| == 0 || IsHeader(StripNewline(lines[0])) then 0
    else
      var m := SequenceLineCount(lines[1..]);
      assert forall j :: 1 <= j <= m ==> lines[j] == lines[1..][j - 1];
      1 + m
  }

  function StripAll(lines: seq<string>): (r: seq<string>)
    ensures |r| == |lines| && forall i :: 0 <= i < |lines| ==> r[i] == StripNewline(lines[i])
  {
    if |lines| == 0 then [] else [StripNewline(lines[0])] + StripAll(lines[1..])
  }

  /** The record whose header is `lines[0]`, and the number of lines it
      takes. */
  function ReadRecord(lines: seq<string>): (r: Result<(FastaRecord, nat)>)
    requires |lines| > 0
    ensures r.Err? ==> r.error == FASTAError
    ensures r.Err? <==> (!IsHeader(StripNewline(lines[0])) || ParseHeader(StripNewline(lines[0])[1..]).0 == []
                          || SequenceLineCount(lines[1..]) == 0)
    ensures r.Ok? ==> 1 < r.value.1 <= |lines| && r.value.0.name != [] && ' ' !in r.value.0.name
  {
    var first := StripNewline(lines[0]);
    if !IsHeader(first) then Err(FASTAError)
    else
      var header := ParseHeader(first[1..]);
      var n := SequenceLineCount(lines[1..]);
      if header.0 == [] || n == 0 then Err(FASTAError)
      else Ok((FastaRecord(header.0, header.1, Flatten(StripAll(lines[1..1 + n]))), 1 + n))
  }

  /** `parse_fasta(lines)`: the records in file order. A line before the
      first header, a header with no sequence lines, or an empty name raises
      FASTAError. */
  function ParseFasta(lines: seq<string>): (r: Result<seq<FastaRecord>>)
    ensures r.Err? ==> r.error == FASTAError
    ensures r.Ok? ==> forall x :: x in r.value ==> x.name != [] && ' ' !in x.name
    ensures r.Ok? && |lines| > 0 ==> IsHeader(StripNewline(lines[0])) && |r.value| > 0
    ensures |lines| == 0 ==> r == Ok([])
    decreases |lines|
  {
    if |lines| == 0 then Ok([])
    else
      var first := ReadRecord(lines);
      if first.Err? then Err(first.error)
      else
        var rest := ParseFasta(lines[first.value.1..]);
        if rest.Err? then Err(rest.error)
        else
          Ok([first.value.0] + rest.value)
  }

  /** What the generator `parse_fasta(lines)` yields before it raises:
      the records in file order up to the first malformed one, and
      whether one followed. */
  datatype FastaStream = FastaStream(records: seq<FastaRecord>, failed: bool)

  /** `parse_fasta(lines)` read lazily, record by record: it raises
      exactly when a malformed record follows, and otherwise the records
      read are all there are. */
  function ReadStream(lines: seq<string>): (r: FastaStream)
    ensures ParseFasta(lines) == if r.failed then Err(FASTAError) else Ok(r.records)
    decreases |lines|
  {
    if |lines| == 0 then FastaStream([], false)
    else
      var first := ReadRecord(lines);
      if first.Err? then FastaStream([], true)
      else
        var rest := ReadStream(lines[first.value.1..]);
        FastaStream([first.value.0] + rest.records, rest.failed)
  }

  /** The lines of a record as `wrap_fasta` lays them out, without their
      line ends. */
  function FastaLines(name: string, sequence: string): (r: seq<string>)
    ensures |r| >= 1 && r[0] == ">" + name
    ensures Flatten(r[1..]) == sequence
    ensures forall i :: 1 <= i < |r| ==> 0 < |r[i]| <= LineWidth
    ensures forall i :: 1 <= i < |r| - 1 ==> |r[i]| == LineWidth
  {
    var chunks := Utilities.Fragment(LineWidth, sequence).value;
    assert ([">" + name] + chunks)[1..] == chunks;
    [">" + name] + chunks
  }

  function WithNewlines(lines: seq<string>): (r: seq<string>)
    ensures |r| == |lines| && forall i :: 0 <= i < |lines| ==> r[i] == lines[i] + "\n"
  {
    if |lines| == 0 then [] else [lines[0] + "\n"] + WithNewlines(lines[1..])
  }

  /** `wrap_fasta(name, sequence)`: the header and the sequence lines, each
      ended by a newline. */
  function WrapFasta(name: string, sequence: string): string
  {
    Flatten(WithNewlines(FastaLines(name, sequence)))
  }

  /** A record `print_fasta` writes and `parse_fasta` reads back unchanged. */
  predicate Writable(r: FastaRecord)
  {
    r.name != [] && ' ' !in r.name && r.meta.None? && |r.sequence| > 0 && '>' !in r.sequence
  }

  function RecordLines(r: FastaRecord): seq<string>
  {
    WithNewlines(FastaLines(r.name, r.sequence))
  }

  function RecordsLines(rs: seq<FastaRecord>): seq<string>
  {
    if |rs| == 0 then [] else RecordLines(rs[0]) + RecordsLines(rs[1..])
  }

  lemma {:induction false} FlattenHas(ss: seq<string>, i: nat, j: nat)
    requires i < |ss| && j < |ss[i]|
    ensures ss[i][j] in Flatten(ss)
  {
    if i > 0 {
      FlattenHas(ss[1..], i - 1, j);
    }
  }

  lemma StripAllNewlines(lines: seq<string>)
    ensures StripAll(WithNewlines(lines)) == lines
  {
  }

  /** The wrapped record is one header and its sequence lines, and a header
      or the end of input follows. */
  lemma {:induction false} ParseRecordLines(r: FastaRecord, rest: seq<string>)
    requires Writable(r)
    requires |rest| > 0 ==> IsHeader(StripNewline(rest[0]))
    ensures ParseFasta(RecordLines(r) + rest) ==
      (var tail := ParseFasta(rest); if tail.Ok? then Ok([r] + tail.value) else tail)
  {
    var lines := RecordLines(r) + rest;
    ReadRecordLines(r, rest);
    assert lines[|RecordLines(r)|..] == rest;
  }

  /** `ReadRecord` takes back exactly the record's own lines. */
  lemma {:induction false} ReadRecordLines(r: FastaRecord, rest: seq<string>)
    requires Writable(r)
    requires |rest| > 0 ==> IsHeader(StripNewline(rest[0]))
    ensures ReadRecord(RecordLines(r) + rest) == Ok((r, |RecordLines(r)|))
  {
    var fl := FastaLines(r.name, r.sequence);
    var lines := RecordLines(r) + rest;
    var body := WithNewlines(fl[1..]);
    assert lines == [lines[0]] + body + rest;
    assert StripNewline(lines[0]) == ">" + r.name;
    assert (">" + r.name)[1..] == r.name;
    assert ParseHeader(r.name) == (r.name, None);
    BodyHasNoHeader(r, fl, body);
    assert lines[1..] == body + rest;
    SequenceLineCountPrefix(body, rest);
    assert lines[1..1 + |body|] == body;
    StripAllNewlines(fl[1..]);
  }

  lemma {:induction false} BodyHasNoHeader(r: FastaRecord, fl: seq<string>, body: seq<string>)
    requires Writable(r) && fl == FastaLines(r.name, r.sequence) && body == WithNewlines(fl[1..])
    ensures forall j :: 0 <= j < |body| ==> !IsHeader(StripNewline(body[j]))
  {
    forall j | 0 <= j < |body|
      ensures !IsHeader(StripNewline(body[j]))
    {
      assert StripNewline(body[j]) == fl[1..][j];
      FlattenHas(fl[1..], j, 0);
    }
  }

  lemma {:induction false} SequenceLineCountPrefix(body: seq<string>, rest: seq<string>)
    requires forall j :: 0 <= j < |body| ==> !IsHeader(StripNewline(body[j]))
    requires |rest| > 0 ==> IsHeader(StripNewline(rest[0]))
    ensures SequenceLineCount(body + rest) == |body|
  {
    if |body| > 0 {
      assert (body + rest)[1..] == body[1..] + rest;
      SequenceLineCountPrefix(body[1..], rest);
    } else {
      assert body + rest == rest;
    }
  }

  /** `parse_fasta` reads back what `print_fasta` wrote, record by record. */
  lemma {:induction false} ParseFastaRoundTrip(rs: seq<FastaRecord>)
    requires forall i :: 0 <= i < |rs| ==> Writable(rs[i])
    ensures ParseFasta(RecordsLines(rs)) == Ok(rs)
  {
    if |rs| > 0 {
      ParseFastaRoundTrip(rs[1..]);
      var rest := RecordsLines(rs[1..]);
      assert RecordsLines(rs) == RecordLines(rs[0]) + rest;
      RecordsLinesStartWithHeader(rs[1..]);
      ParseRecordLines(rs[0], rest);
      assert [rs[0]] + rs[1..] == rs;
    }
  }

  lemma RecordsLinesStartWithHeader(rs: seq<FastaRecord>)
    ensures |RecordsLines(rs)| > 0 ==> IsHeader(StripNewline(RecordsLines(rs)[0]))
  {
    if |rs| > 0 {
      var first := RecordLines(rs[0]);
      assert RecordsLines(rs) == first + RecordsLines(rs[1..]);
      assert first[0] == ">" + rs[0].name + "\n";
      assert StripNewline(first[0]) == ">" + rs[0].name;
    }
  }

  /** A record whose sequence is empty is written as a lone header, which
      `parse_fasta` refuses. */
  lemma EmptySequenceNotReadBack(name: string)
    requires name != []
    ensures ParseFasta(RecordLines(FastaRecord(name, None, []))) == Err(FASTAError)
  {
    var lines := RecordLines(FastaRecord(name, None, []));
    assert Utilities.Fragment<char>(LineWidth, []).value == [];
    assert lines == [">" + name + "\n"];
    assert SequenceLineCount(lines[1..]) == 0;
  }
}
