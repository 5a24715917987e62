// PHYLIP writers (pypeline/common/formats/phylip.py): the sequential and
// the interleaved layout of a validated alignment.
module Phylip {
  import opened PyErrors
  import opened Seqs
  import PyText
  import Msa
  import Utilities

  const NUM_BLOCKS: nat := 6
  const BLOCK_SIZE: nat := 10
  const BLOCK_SPACING: nat := 2
  const MAX_NAME_LENGTH: int := 30
  const LINE_SIZE: nat := NUM_BLOCKS * BLOCK_SIZE + (NUM_BLOCKS - 1) * BLOCK_SPACING
  const SPACING: string := "  "

  // ---------------------------------------------------------------------
  // Blocks

  /** Consecutive pieces of `n` elements holding `xs` in order; only the
      last may be shorter. */
  function Chunks<T>(n: nat, xs: seq<T>): (r: seq<seq<T>>)
    requires n > 0
    ensures Flatten(r) == xs
    ensures forall i :: 0 <= i < |r| ==> 0 < |r[i]| <= n
    ensures forall i :: 0 <= i < |r| - 1 ==> |r[i]| == n
    ensures |xs| == 0 <==> |r| == 0
    decreases |xs|
  {
    if |xs| == 0 then []
    else if |xs| <= n then
      var r := [xs];
      assert r[1..] == [];
      r
    else
      var rest := Chunks(n, xs[n..]);
      var r := [xs[..n]] + rest;
      assert r[1..] == rest;
      assert xs == xs[..n] + xs[n..];
      r
  }

  /** `grouper(n, xs, fill)` is the chunks of `xs`, each padded to `n`
      elements with `fill`; joining a padded block of characters with ""
      padding therefore gives back the chunk. */
  lemma {:induction false} GrouperIsPaddedChunks<T>(n: nat, xs: seq<T>, fill: T)
    requires n > 0
    ensures |Utilities.Grouper(n, xs, fill)| == |Chunks(n, xs)|
    ensures forall i :: 0 <= i < |Chunks(n, xs)| ==>
      Utilities.Grouper(n, xs, fill)[i] == Chunks(n, xs)[i] + Utilities.Padding(fill, n - |Chunks(n, xs)[i]|)
    decreases |xs|
  {
    if |xs| > n {
      GrouperIsPaddedChunks(n, xs[n..], fill);
      var g, c := Utilities.Grouper(n, xs, fill), Chunks(n, xs);
      assert g == [xs[..n]] + Utilities.Grouper(n, xs[n..], fill);
      assert c == [xs[..n]] + Chunks(n, xs[n..]);
      assert xs[..n] + Utilities.Padding(fill, 0) == xs[..n];
    }
  }

  /** Chunks of equally long inputs have the same lengths. */
  lemma {:induction false} ChunksShape<T>(n: nat, xs: seq<T>, ys: seq<T>)
    requires n > 0 && |xs| == |ys|
    ensures |Chunks(n, xs)| == |Chunks(n, ys)|
    ensures forall i :: 0 <= i < |Chunks(n, xs)| ==> |Chunks(n, xs)[i]| == |Chunks(n, ys)[i]|
    decreases |xs|
  {
    if |xs| > n {
      ChunksShape(n, xs[n..], ys[n..]);
      assert Chunks(n, xs) == [xs[..n]] + Chunks(n, xs[n..]);
      assert Chunks(n, ys) == [ys[..n]] + Chunks(n, ys[n..]);
    }
  }

  /** Every element of a piece occurs in the flattened list. */
  lemma {:induction false} InFlatten<T>(ss: seq<seq<T>>, i: nat)
    requires i < |ss|
    ensures forall j :: 0 <= j < |ss[i]| ==> ss[i][j] in Flatten(ss)
    decreases i
  {
    if i > 0 {
      InFlatten(ss[1..], i - 1);
      assert ss[1..][i - 1] == ss[i];
    }
  }

  lemma {:induction false} FlattenPair<T>(a: seq<T>, b: seq<T>)
    ensures Flatten([a, b]) == a + b
  {
    var ss := [a, b];
    var tail := [b];
    assert Flatten(tail) == b by {
      assert tail[1..] == [];
      assert Flatten(tail) == b + Flatten(tail[1..]);
    }
    assert ss[1..] == tail;
  }

  lemma {:induction false} FlattenBound<T>(ss: seq<seq<T>>, n: nat)
    requires forall i :: 0 <= i < |ss| ==> |ss[i]| <= n
    ensures |Flatten(ss)| <= n * |ss|
    decreases |ss|
  {
    if |ss| > 0 {
      FlattenBound(ss[1..], n);
    }
  }

  function FlattenEach<T>(ss: seq<seq<seq<T>>>): (r: seq<seq<T>>)
    ensures |r| == |ss| && forall i :: 0 <= i < |ss| ==> r[i] == Flatten(ss[i])
  {
    seq(|ss|, i requires 0 <= i < |ss| => Flatten(ss[i]))
  }

  /** Flattening twice is flattening each piece and then the results. */
  lemma {:induction false} FlattenOfFlattened<T>(ss: seq<seq<seq<T>>>)
    ensures Flatten(FlattenEach(ss)) == Flatten(Flatten(ss))
    decreases |ss|
  {
    if |ss| > 0 {
      var rest := ss[1..];
      FlattenOfFlattened(rest);
      assert FlattenEach(ss)[1..] == FlattenEach(rest);
      FlattenAppend(ss[0], Flatten(rest));
    }
  }

  // ---------------------------------------------------------------------
  // Text helpers

  /** `s` with every space removed: how a reader of the file recovers the
      sequence from its blocks. */
  function Unspaced(s: string): (r: string)
    ensures ' ' !in r
  {
    if |s| == 0 then "" else (if s[0] == ' ' then "" else [s[0]]) + Unspaced(s[1..])
  }

  function UnspacedEach(rows: seq<string>): (r: seq<string>)
    ensures |r| == |rows| && forall i :: 0 <= i < |rows| ==> r[i] == Unspaced(rows[i])
  {
    seq(|rows|, i requires 0 <= i < |rows| => Unspaced(rows[i]))
  }

  lemma {:induction false} UnspacedAppend(a: string, b: string)
    ensures Unspaced(a + b) == Unspaced(a) + Unspaced(b)
    decreases |a|
  {
    if |a| > 0 {
      assert (a + b)[1..] == a[1..] + b;
      UnspacedAppend(a[1..], b);
    } else {
      assert a + b == b;
    }
  }

  lemma {:induction false} UnspacedNoSpace(s: string)
    requires ' ' !in s
    ensures Unspaced(s) == s
    decreases |s|
  {
    if |s| > 0 {
      UnspacedNoSpace(s[1..]);
      assert s == [s[0]] + s[1..];
    }
  }

  /** `" " * n`, which is "" for n <= 0. */
  function Spaces(n: int): (r: string)
    ensures |r| == (if n <= 0 then 0 else n)
    ensures Unspaced(r) == ""
  {
    if n <= 0 then ""
    else
      var r := Spaces(n - 1) + " ";
      UnspacedAppend(Spaces(n - 1), " ");
      r
  }

  lemma {:induction false} JoinLength(sep: string, parts: seq<string>)
    requires |parts| > 0
    ensures |PyText.Join(sep, parts)| == |Flatten(parts)| + |sep| * (|parts| - 1)
    decreases |parts|
  {
    if |parts| > 1 {
      JoinLength(sep, parts[1..]);
    } else {
      assert parts[1..] == [];
    }
  }

  /** Joining blocks free of spaces with spaces and removing the spaces
      again gives the blocks run together. */
  lemma {:induction false} UnspacedJoin(parts: seq<string>)
    requires forall i :: 0 <= i < |parts| ==> ' ' !in parts[i]
    ensures Unspaced(PyText.Join(SPACING, parts)) == Flatten(parts)
    decreases |parts|
  {
    if |parts| == 1 {
      UnspacedNoSpace(parts[0]);
      assert parts[1..] == [];
    } else if |parts| > 1 {
      UnspacedJoin(parts[1..]);
      UnspacedNoSpace(parts[0]);
      UnspacedAppend(parts[0] + SPACING, PyText.Join(SPACING, parts[1..]));
      UnspacedAppend(parts[0], SPACING);
    }
  }

  /** `name[:n]`, a negative `n` counting from the end as in Python. */
  function Truncate(name: string, n: int): (r: string)
    ensures |r| <= |name| && r == name[..|r|]
    ensures n >= 0 ==> |r| <= n && (|name| <= n ==> r == name)
  {
    if n >= 0 then (if |name| <= n then name else name[..n])
    else if |name| + n <= 0 then "" else name[..|name| + n]
  }

  // ---------------------------------------------------------------------
  // Header

  /** `len(list(msa.values())[0])`, read here from the first name in
      order; once the alignment is valid every entry gives the same. */
  function AlignmentLength(msa: Msa.Alignment): nat
    requires msa != map[]
  {
    var names := PyText.SortedSet(msa.Keys);
    assert names[0] in msa by {
      var k :| k in msa;
      assert k in names;
    }
    |msa[names[0]]|
  }

  lemma {:induction false} AlignmentLengthOfAny(msa: Msa.Alignment, name: string)
    requires Msa.WellFormed(msa) && name in msa
    ensures AlignmentLength(msa) == |msa[name]|
  {
    var names := PyText.SortedSet(msa.Keys);
    assert names[0] in msa by {
      assert name in names;
    }
  }

  /** `"%i %i" % (count, length)`, with `" " + flag` when `add_flag`. */
  function Header(msa: Msa.Alignment, flag: string, addFlag: bool): string
    requires msa != map[]
  {
    PyText.IntToString(|msa|) + " " + PyText.IntToString(AlignmentLength(msa)) + (if addFlag then " " + flag else "")
  }

  // ---------------------------------------------------------------------
  // sequential_phy

  /** The lines of one sequence in the sequential layout: blocks of
      BLOCK_SIZE characters, NUM_BLOCKS to a line, joined by SPACING. */
  function SequentialRows(sequence: string): seq<string>
  {
    var lines := Chunks(NUM_BLOCKS, Chunks(BLOCK_SIZE, sequence));
    seq(|lines|, i requires 0 <= i < |lines| => PyText.Join(SPACING, lines[i]))
  }

  /** Every line holds at most LINE_SIZE characters, and every line but the
      last exactly that many; a sequence needs one line per NUM_BLOCKS
      blocks. */
  lemma {:induction false} SequentialRowWidths(sequence: string)
    ensures forall i :: 0 <= i < |SequentialRows(sequence)| ==> 0 < |SequentialRows(sequence)[i]| <= LINE_SIZE
    ensures forall i :: 0 <= i < |SequentialRows(sequence)| - 1 ==> |SequentialRows(sequence)[i]| == LINE_SIZE
    ensures |sequence| == 0 <==> |SequentialRows(sequence)| == 0
  {
    var blocks := Chunks(BLOCK_SIZE, sequence);
    var lines := Chunks(NUM_BLOCKS, blocks);
    var rows := SequentialRows(sequence);
    forall i | 0 <= i < |rows|
      ensures 0 < |rows[i]| <= LINE_SIZE
      ensures i < |rows| - 1 ==> |rows[i]| == LINE_SIZE
    {
      var line := lines[i];
      JoinLength(SPACING, line);
      InFlatten(lines, i);
      assert forall j :: 0 <= j < |line| ==> 0 < |line[j]| <= BLOCK_SIZE by {
        forall j | 0 <= j < |line| ensures 0 < |line[j]| <= BLOCK_SIZE {
          assert line[j] in blocks;
        }
      }
      FlattenBound(line, BLOCK_SIZE);
      assert |Flatten(line)| > 0 by {
        assert Flatten(line) == line[0] + Flatten(line[1..]);
      }
      if i < |rows| - 1 {
        assert |line| == NUM_BLOCKS;
        assert forall j :: 0 <= j < |line| ==> |line[j]| == BLOCK_SIZE by {
          FullBlocks(blocks, lines, i);
        }
        FlattenUniformLength(line, BLOCK_SIZE);
      }
    }
  }

  /** The blocks on any line but the last are full, since only the very
      last block of the sequence may be short. */
  lemma {:induction false} FullBlocks(blocks: seq<string>, lines: seq<seq<string>>, i: nat)
    requires lines == Chunks(NUM_BLOCKS, blocks)
    requires forall k :: 0 <= k < |blocks| - 1 ==> |blocks[k]| == BLOCK_SIZE
    requires i < |lines| - 1
    ensures forall j :: 0 <= j < |lines[i]| ==> |lines[i][j]| == BLOCK_SIZE
  {
    var before := Flatten(lines[..i]);
    assert lines == lines[..i] + [lines[i]] + lines[i + 1..];
    FlattenAppend(lines[..i] + [lines[i]], lines[i + 1..]);
    FlattenAppend(lines[..i], [lines[i]]);
    assert Flatten([lines[i]]) == lines[i] by {
      assert [lines[i]][1..] == [];
    }
    assert |Flatten(lines[i + 1..])| > 0 by {
      var rest := lines[i + 1..];
      assert Flatten(rest) == rest[0] + Flatten(rest[1..]);
    }
    forall j | 0 <= j < |lines[i]|
      ensures |lines[i][j]| == BLOCK_SIZE
    {
      assert blocks[|before| + j] == lines[i][j];
    }
  }

  /** The sequence is recovered by reading a sequence's lines in order and
      dropping the spaces. */
  lemma {:induction false} SequentialRowsReadBack(sequence: string)
    requires ' ' !in sequence
    ensures Flatten(UnspacedEach(SequentialRows(sequence))) == sequence
  {
    var blocks := Chunks(BLOCK_SIZE, sequence);
    var lines := Chunks(NUM_BLOCKS, blocks);
    var rows := SequentialRows(sequence);
    forall i | 0 <= i < |lines|
      ensures UnspacedEach(rows)[i] == FlattenEach(lines)[i]
    {
      InFlatten(lines, i);
      forall j | 0 <= j < |lines[i]|
        ensures ' ' !in lines[i][j]
      {
        var k :| 0 <= k < |blocks| && blocks[k] == lines[i][j];
        InFlatten(blocks, k);
      }
      UnspacedJoin(lines[i]);
    }
    assert UnspacedEach(rows) == FlattenEach(lines);
    FlattenOfFlattened(lines);
  }

  /** The lines for one entry: the truncated name, then the sequence. */
  function SequentialEntry(name: string, sequence: string, maxNameLength: int): seq<string>
  {
    [Truncate(name, maxNameLength)] + SequentialRows(sequence)
  }

  function SequentialEntries(msa: Msa.Alignment, names: seq<string>, maxNameLength: int): seq<string>
    requires forall k :: 0 <= k < |names| ==> names[k] in msa
  {
    if |names| == 0 then []
    else
      var n := |names| - 1;
      SequentialEntries(msa, names[..n], maxNameLength) + SequentialEntry(names[n], msa[names[n]], maxNameLength)
  }

  lemma {:induction false} SequentialEntriesStep(msa: Msa.Alignment, names: seq<string>, i: nat, maxNameLength: int)
    requires i < |names| && forall k :: 0 <= k < |names| ==> names[k] in msa
    ensures SequentialEntries(msa, names[..i + 1], maxNameLength) ==
      SequentialEntries(msa, names[..i], maxNameLength) + [Truncate(names[i], maxNameLength)] + SequentialRows(msa[names[i]])
  {
    assert names[..i + 1][..i] == names[..i];
  }

  lemma {:induction false} SortedNamesIn(msa: Msa.Alignment)
    ensures forall k :: 0 <= k < |PyText.SortedSet(msa.Keys)| ==> PyText.SortedSet(msa.Keys)[k] in msa
  {
  }

  /** The lines `sequential_phy` writes for a valid alignment: the header
      flagged "S", an empty line, then each entry in name order. */
  function SequentialLines(msa: Msa.Alignment, addFlag: bool, maxNameLength: int): seq<string>
    requires Msa.WellFormed(msa)
  {
    var names := PyText.SortedSet(msa.Keys);
    [Header(msa, "S", addFlag), ""] + SequentialEntries(msa, names, maxNameLength)
  }

  /** `sequential_phy(msa, add_flag, max_name_length)`: MSAError for an
      invalid alignment, else the lines joined by newlines. */
  method SequentialPhy(msa: Msa.Alignment, addFlag: bool, maxNameLength: int) returns (r: Result<string>)
    ensures r.Err? <==> !Msa.WellFormed(msa)
    ensures r.Err? ==> r.error == MSAError
    ensures r.Ok? ==> r.value == PyText.Join("\n", SequentialLines(msa, addFlag, maxNameLength))
  {
    var check := Msa.ValidateMsa([msa]);
    Msa.ValidSingle(msa);
    if check.Fail? {
      return Err(check.error);
    }
    var names := PyText.SortedSet(msa.Keys);
    SortedNamesIn(msa);
    var entries := WriteEntries(msa, names, maxNameLength);
    var result := [Header(msa, "S", addFlag), ""] + entries;
    return Ok(PyText.Join("\n", result));
  }

  /** The loop of `sequential_phy` over the entries in name order. */
  method WriteEntries(msa: Msa.Alignment, names: seq<string>, maxNameLength: int) returns (result: seq<string>)
    requires forall k :: 0 <= k < |names| ==> names[k] in msa
    ensures result == SequentialEntries(msa, names, maxNameLength)
  {
    result := [];
    var i := 0;
    while i < |names|
      invariant 0 <= i <= |names|
      invariant result == SequentialEntries(msa, names[..i], maxNameLength)
    {
      var name := names[i];
      SequentialEntriesStep(msa, names, i, maxNameLength);
      result := result + [Truncate(name, maxNameLength)];
      result := result + SequentialRows(msa[name]);
      i := i + 1;
    }
    assert names[..i] == names;
  }

  // ---------------------------------------------------------------------
  // interleaved_phy: the name column

  /** Python's `a % -b`: the remainder takes the divisor's sign. */
  function ModNeg(a: int, b: nat): (r: int)
    requires b > 0
    ensures -(b as int) < r <= 0
  {
    -((-a) % b)
  }

  function LongestName(names: seq<string>): (r: nat)
    ensures forall k :: 0 <= k < |names| ==> |names[k]| <= r
    ensures |names| > 0 ==> exists k :: 0 <= k < |names| && |names[k]| == r
  {
    if |names| == 0 then 0
    else
      var n := |names| - 1;
      var m := LongestName(names[..n]);
      assert forall k :: 0 <= k < n ==> names[..n][k] == names[k];
      if |names[n]| > m then |names[n]| else m
  }

  function Min(a: int, b: int): int { if a <= b then a else b }

  /** `padded_len`: the name column, shorter by BLOCK_SPACING than the
      column at which the first block starts. */
  function PaddedLength(msa: Msa.Alignment, maxNameLength: int): int
  {
    var x := Min(maxNameLength, LongestName(PyText.SortedSet(msa.Keys))) + 2;
    x - (ModNeg(x, BLOCK_SIZE + BLOCK_SPACING) + BLOCK_SPACING)
  }

  /** The first block starts at the smallest multiple of 12 that is at
      least the (capped) longest name plus two. */
  lemma {:induction false} ColumnStart(msa: Msa.Alignment, maxNameLength: int)
    ensures var x := Min(maxNameLength, LongestName(PyText.SortedSet(msa.Keys))) + 2;
      var c := PaddedLength(msa, maxNameLength) + BLOCK_SPACING;
      c % (BLOCK_SIZE + BLOCK_SPACING) == 0 && x <= c < x + BLOCK_SIZE + BLOCK_SPACING
  {
    var x := Min(maxNameLength, LongestName(PyText.SortedSet(msa.Keys))) + 2;
    var q := (-x) / 12;
    assert -x == 12 * q + (-x) % 12;
    assert PaddedLength(msa, maxNameLength) + BLOCK_SPACING == x + (-x) % 12;
    assert x + (-x) % 12 == -12 * q;
  }

  /** Every truncated name fits in the name column. */
  lemma {:induction false} NamesFitColumn(msa: Msa.Alignment, maxNameLength: int, name: string)
    requires maxNameLength >= 0 && name in msa
    ensures |Truncate(name, maxNameLength)| <= PaddedLength(msa, maxNameLength)
  {
    var names := PyText.SortedSet(msa.Keys);
    assert name in names;
    ColumnStart(msa, maxNameLength);
  }

  // ---------------------------------------------------------------------
  // interleaved_phy: the lines of one sequence

  /** The loop state: the lines closed so far and the line being built. */
  datatype StreamState = StreamState(closed: seq<string>, line: string)

  /** One block: close the line once it has reached LINE_SIZE, otherwise
      add SPACING and the block to it. */
  function StreamStep(st: StreamState, block: string): StreamState
  {
    if |st.line| >= LINE_SIZE then StreamState(st.closed + [st.line], block)
    else StreamState(st.closed, st.line + SPACING + block)
  }

  function StreamAfter(head: string, blocks: seq<string>): StreamState
  {
    if |blocks| == 0 then StreamState([], head)
    else StreamStep(StreamAfter(head, blocks[..|blocks| - 1]), blocks[|blocks| - 1])
  }

  /** The lines written for one sequence: the name padded to `padded`
      columns, then its blocks. */
  function StreamLines(name: string, padded: int, sequence: string): seq<string>
  {
    var st := StreamAfter(name + Spaces(padded - |name|), Chunks(BLOCK_SIZE, sequence));
    st.closed + [st.line]
  }

  /** The text of a state, its lines run together. */
  function StreamText(st: StreamState): string
  {
    Flatten(st.closed) + st.line
  }

  lemma {:induction false} StreamStepText(st: StreamState, block: string)
    requires ' ' !in block
    ensures Unspaced(StreamText(StreamStep(st, block))) == Unspaced(StreamText(st)) + block
  {
    UnspacedNoSpace(block);
    if |st.line| >= LINE_SIZE {
      assert StreamText(StreamStep(st, block)) == StreamText(st) + block by {
        FlattenSnoc(st.closed, st.line);
      }
      UnspacedAppend(StreamText(st), block);
    } else {
      assert StreamText(StreamStep(st, block)) == StreamText(st) + SPACING + block;
      UnspacedAppend(StreamText(st) + SPACING, block);
      UnspacedAppend(StreamText(st), SPACING);
    }
  }

  lemma {:induction false} StreamAfterText(head: string, blocks: seq<string>)
    requires forall i :: 0 <= i < |blocks| ==> ' ' !in blocks[i]
    ensures Unspaced(StreamText(StreamAfter(head, blocks))) == Unspaced(head) + Flatten(blocks)
    decreases |blocks|
  {
    if |blocks| == 0 {
      assert StreamText(StreamAfter(head, blocks)) == head;
    } else {
      var n := |blocks| - 1;
      var init := blocks[..n];
      assert forall i :: 0 <= i < |init| ==> ' ' !in init[i] by {
        assert forall i :: 0 <= i < n ==> init[i] == blocks[i];
      }
      var st := StreamAfter(head, init);
      calc {
        Unspaced(StreamText(StreamAfter(head, blocks)));
        Unspaced(StreamText(StreamStep(st, blocks[n])));
        { StreamStepText(st, blocks[n]); }
        Unspaced(StreamText(st)) + blocks[n];
        { StreamAfterText(head, init); }
        (Unspaced(head) + Flatten(init)) + blocks[n];
        { assert init + [blocks[n]] == blocks;
          FlattenSnoc(init, blocks[n]); }
        Unspaced(head) + Flatten(blocks);
      }
    }
  }

  /** Read in order with the spaces dropped, the lines of one sequence give
      back its name and then the sequence. */
  lemma {:induction false} StreamReadBack(name: string, padded: int, sequence: string)
    requires ' ' !in name && ' ' !in sequence
    ensures Unspaced(Flatten(StreamLines(name, padded, sequence))) == name + sequence
  {
    var head := name + Spaces(padded - |name|);
    var blocks := Chunks(BLOCK_SIZE, sequence);
    forall i | 0 <= i < |blocks|
      ensures ' ' !in blocks[i]
    {
      InFlatten(blocks, i);
    }
    StreamAfterText(head, blocks);
    var st := StreamAfter(head, blocks);
    FlattenSnoc(st.closed, st.line);
    UnspacedAppend(name, Spaces(padded - |name|));
    UnspacedNoSpace(name);
  }

  /** Every closed line has reached LINE_SIZE, and every line after the
      first is shorter than LINE_SIZE plus one more spaced block. */
  predicate StreamWidths(st: StreamState)
  {
    && (forall k :: 0 <= k < |st.closed| ==> |st.closed[k]| >= LINE_SIZE)
    && (forall k :: 1 <= k < |st.closed| ==> |st.closed[k]| < LINE_SIZE + BLOCK_SPACING + BLOCK_SIZE)
    && (|st.closed| > 0 ==> |st.line| < LINE_SIZE + BLOCK_SPACING + BLOCK_SIZE)
  }

  lemma {:induction false} StreamAfterWidths(head: string, blocks: seq<string>)
    requires forall i :: 0 <= i < |blocks| ==> |blocks[i]| <= BLOCK_SIZE
    ensures StreamWidths(StreamAfter(head, blocks))
    decreases |blocks|
  {
    if |blocks| > 0 {
      var n := |blocks| - 1;
      assert forall i :: 0 <= i < n ==> blocks[..n][i] == blocks[i];
      StreamAfterWidths(head, blocks[..n]);
      var st := StreamAfter(head, blocks[..n]);
      if |st.line| >= LINE_SIZE {
        var closed := st.closed + [st.line];
        assert forall k :: 0 <= k < |st.closed| ==> closed[k] == st.closed[k];
      }
    }
  }

  /** The lines of one sequence: closed lines reach LINE_SIZE, and no line
      after the first holds more than LINE_SIZE plus one spaced block. */
  lemma {:induction false} StreamLineWidths(name: string, padded: int, sequence: string)
    ensures var lines := StreamLines(name, padded, sequence);
      (forall k :: 0 <= k < |lines| - 1 ==> |lines[k]| >= LINE_SIZE) &&
      (forall k :: 1 <= k < |lines| ==> |lines[k]| < LINE_SIZE + BLOCK_SPACING + BLOCK_SIZE)
  {
    var head := name + Spaces(padded - |name|);
    StreamAfterWidths(head, Chunks(BLOCK_SIZE, sequence));
    var st := StreamAfter(head, Chunks(BLOCK_SIZE, sequence));
    var lines := st.closed + [st.line];
    assert forall k :: 0 <= k < |st.closed| ==> lines[k] == st.closed[k];
  }

  /** Heads and blocks of equal lengths give lines of equal lengths: the
      layout depends on lengths only. */
  lemma {:induction false} StreamAfterShape(h1: string, b1: seq<string>, h2: string, b2: seq<string>)
    requires |h1| == |h2| && |b1| == |b2|
    requires forall i :: 0 <= i < |b1| ==> |b1[i]| == |b2[i]|
    ensures var s1, s2 := StreamAfter(h1, b1), StreamAfter(h2, b2);
      |s1.closed| == |s2.closed| && |s1.line| == |s2.line| &&
      forall k :: 0 <= k < |s1.closed| ==> |s1.closed[k]| == |s2.closed[k]|
    decreases |b1|
  {
    if |b1| > 0 {
      var n := |b1| - 1;
      assert forall i :: 0 <= i < n ==> b1[..n][i] == b1[i] && b2[..n][i] == b2[i];
      StreamAfterShape(h1, b1[..n], h2, b2[..n]);
    }
  }

  /** Two names that fit the column and two sequences of one length give
      lines of equal lengths, so the rows of the interleaved layout line up
      and zipping them drops nothing. */
  lemma {:induction false} StreamLinesAligned(n1: string, s1: string, n2: string, s2: string, padded: int)
    requires |n1| <= padded && |n2| <= padded && |s1| == |s2|
    ensures var l1, l2 := StreamLines(n1, padded, s1), StreamLines(n2, padded, s2);
      |l1| == |l2| && forall k :: 0 <= k < |l1| ==> |l1[k]| == |l2[k]|
  {
    ChunksShape(BLOCK_SIZE, s1, s2);
    StreamAfterShape(n1 + Spaces(padded - |n1|), Chunks(BLOCK_SIZE, s1),
                     n2 + Spaces(padded - |n2|), Chunks(BLOCK_SIZE, s2));
  }

  /** The first line starts with the name padded to `padded` columns, and,
      when the column is narrower than LINE_SIZE, its first block follows
      after SPACING. */
  lemma {:induction false} StreamFirstLine(name: string, padded: int, sequence: string)
    requires |name| <= padded < LINE_SIZE && |sequence| > 0
    ensures var l := StreamLines(name, padded, sequence)[0];
      var b := Chunks(BLOCK_SIZE, sequence)[0];
      |l| >= padded + BLOCK_SPACING + |b| && l[..padded + BLOCK_SPACING + |b|] == name + Spaces(padded - |name|) + SPACING + b
  {
    var head := name + Spaces(padded - |name|);
    var blocks := Chunks(BLOCK_SIZE, sequence);
    var p := head + SPACING + blocks[0];
    FirstLineKept(head, blocks, p, |blocks|);
    assert blocks[..|blocks|] == blocks;
  }

  function FirstLine(st: StreamState): string
  {
    if |st.closed| > 0 then st.closed[0] else st.line
  }

  lemma {:induction false} FirstLineKept(head: string, blocks: seq<string>, p: string, m: nat)
    requires 0 < m <= |blocks| && |head| < LINE_SIZE && p == head + SPACING + blocks[0]
    ensures |FirstLine(StreamAfter(head, blocks[..m]))| >= |p|
    ensures FirstLine(StreamAfter(head, blocks[..m]))[..|p|] == p
    decreases m
  {
    if m == 1 {
      assert blocks[..1][..0] == [];
      assert blocks[..1][0] == blocks[0];
    } else {
      FirstLineKept(head, blocks, p, m - 1);
      assert blocks[..m][..m - 1] == blocks[..m - 1];
      var st := StreamAfter(head, blocks[..m - 1]);
      var line := FirstLine(st);
      if |st.closed| == 0 && |st.line| < LINE_SIZE {
        var next := st.line + SPACING + blocks[m - 1];
        assert next[..|p|] == line[..|p|];
      }
    }
  }

  /** The inner loop of `interleaved_phy` for one sequence. */
  method BuildStream(name: string, padded: int, sequence: string) returns (lines: seq<string>)
    ensures lines == StreamLines(name, padded, sequence)
  {
    var head := name + Spaces(padded - |name|);
    var blocks := Chunks(BLOCK_SIZE, sequence);
    lines := [];
    var line: seq<string> := [name, Spaces(padded - |name|)];
    FlattenPair(name, Spaces(padded - |name|));
    var i := 0;
    while i < |blocks|
      invariant 0 <= i <= |blocks|
      invariant StreamAfter(head, blocks[..i]) == StreamState(lines, Flatten(line))
    {
      var block := blocks[i];
      assert blocks[..i + 1][..i] == blocks[..i];
      if |Flatten(line)| >= LINE_SIZE {
        lines := lines + [Flatten(line)];
        line := [block];
        assert Flatten(line) == block by {
          assert line[1..] == [];
        }
      } else {
        var extra := [SPACING, block];
        FlattenAppend(line, extra);
        FlattenPair(SPACING, block);
        line := line + extra;
      }
      i := i + 1;
    }
    assert blocks[..i] == blocks;
    lines := lines + [Flatten(line)];
  }

  // ---------------------------------------------------------------------
  // interleaved_phy: the rows

  /** The lines of every sequence, in name order. */
  function Streams(msa: Msa.Alignment, names: seq<string>, padded: int, maxNameLength: int): (r: seq<seq<string>>)
    requires forall k :: 0 <= k < |names| ==> names[k] in msa
    ensures |r| == |names|
  {
    seq(|names|, k requires 0 <= k < |names| => StreamLines(Truncate(names[k], maxNameLength), padded, msa[names[k]]))
  }

  /** The number of rows `zip(*streams)` yields: the shortest stream. */
  function RowCount(streams: seq<seq<string>>): (r: nat)
    ensures forall k :: 0 <= k < |streams| ==> r <= |streams[k]|
    ensures |streams| > 0 ==> exists k :: 0 <= k < |streams| && |streams[k]| == r
  {
    if |streams| == 0 then 0
    else
      var n := |streams| - 1;
      assert forall k :: 0 <= k < n ==> streams[..n][k] == streams[k];
      if n == 0 || |streams[n]| < RowCount(streams[..n]) then |streams[n]| else RowCount(streams[..n])
  }

  /** Row `r`: line `r` of every sequence. */
  function Row(streams: seq<seq<string>>, r: nat): (row: seq<string>)
    requires r < RowCount(streams)
    ensures |row| == |streams|
  {
    seq(|streams|, k requires 0 <= k < |streams| => streams[k][r])
  }

  /** Where row `r` starts when every row takes `width` lines: `r * width`. */
  function GroupStart(r: nat, width: nat): nat
  {
    if r == 0 then 0 else GroupStart(r - 1, width) + width
  }

  lemma {:induction false} GroupStartIsProduct(r: nat, width: nat)
    ensures GroupStart(r, width) == r * width
    decreases r
  {
    if r > 0 {
      GroupStartIsProduct(r - 1, width);
      assert (r - 1) * width + width == r * width;
    }
  }

  /** The first `m` rows, each followed by an empty line. */
  function Interleave(streams: seq<seq<string>>, m: nat): (r: seq<string>)
    requires m <= RowCount(streams)
    ensures |r| == GroupStart(m, |streams| + 1)
  {
    if m == 0 then [] else Interleave(streams, m - 1) + Row(streams, m - 1) + [""]
  }

  /** Line `k` of row `r` is line `r` of sequence `k`, and every row is
      followed by an empty line. */
  lemma {:induction false} InterleaveIndex(streams: seq<seq<string>>, m: nat, r: nat, k: nat)
    requires m <= RowCount(streams) && r < m && k < |streams|
    ensures GroupStart(r, |streams| + 1) + |streams| < |Interleave(streams, m)|
    ensures Interleave(streams, m)[GroupStart(r, |streams| + 1) + k] == streams[k][r]
    ensures Interleave(streams, m)[GroupStart(r, |streams| + 1) + |streams|] == ""
    decreases m
  {
    var w := |streams| + 1;
    var prev := Interleave(streams, m - 1);
    assert Interleave(streams, m) == prev + Row(streams, m - 1) + [""];
    if r < m - 1 {
      InterleaveIndex(streams, m - 1, r, k);
    } else {
      assert GroupStart(r, w) == |prev|;
    }
  }

  /** The lines `interleaved_phy` writes for a valid alignment: the header
      flagged "I", an empty line, then the rows separated by empty lines
      (the empty line after the last row is popped). */
  function InterleavedLines(msa: Msa.Alignment, addFlag: bool, maxNameLength: int): (r: seq<string>)
    requires Msa.WellFormed(msa)
  {
    var names := PyText.SortedSet(msa.Keys);
    Frame(Header(msa, "I", addFlag), Streams(msa, names, PaddedLength(msa, maxNameLength), maxNameLength))
  }

  /** The header, an empty line, then every row followed by an empty line,
      less the very last line (`result.pop()`). */
  function Frame(header: string, streams: seq<seq<string>>): seq<string>
  {
    var all := [header, ""] + Interleave(streams, RowCount(streams));
    all[..|all| - 1]
  }

  /** The streams of a valid alignment, for a non-negative name limit,
      all have the same number of lines, so `zip` writes every line of every
      sequence. */
  lemma {:induction false} InterleavedKeepsEveryLine(msa: Msa.Alignment, maxNameLength: int)
    requires Msa.WellFormed(msa) && maxNameLength >= 0
    ensures var names := PyText.SortedSet(msa.Keys);
      var streams := Streams(msa, names, PaddedLength(msa, maxNameLength), maxNameLength);
      |streams| > 0 && RowCount(streams) > 0 &&
      forall k :: 0 <= k < |streams| ==> |streams[k]| == RowCount(streams)
  {
    var names := PyText.SortedSet(msa.Keys);
    SortedNamesIn(msa);
    var padded := PaddedLength(msa, maxNameLength);
    var streams := Streams(msa, names, padded, maxNameLength);
    assert |names| > 0 by {
      var x :| x in msa;
      assert x in names;
    }
    forall k | 0 <= k < |names|
      ensures |streams[k]| == |streams[0]|
    {
      NamesFitColumn(msa, maxNameLength, names[k]);
      NamesFitColumn(msa, maxNameLength, names[0]);
      StreamLinesAligned(Truncate(names[k], maxNameLength), msa[names[k]],
                         Truncate(names[0], maxNameLength), msa[names[0]], padded);
    }
  }

  /** The text starts with the header and an empty line, then the rows;
      only the empty line after the last row is dropped, so the text ends
      with the last line of the last sequence. */
  lemma {:induction false} FrameMeaning(header: string, streams: seq<seq<string>>)
    requires |streams| > 0 && RowCount(streams) > 0
    ensures var body := Interleave(streams, RowCount(streams));
      var lines := Frame(header, streams);
      && |lines| == |body| + 1 && |body| >= 2
      && lines[0] == header && lines[1] == ""
      && (forall i :: 0 <= i < |body| - 1 ==> lines[i + 2] == body[i])
      && lines[|lines| - 1] == streams[|streams| - 1][RowCount(streams) - 1]
  {
    var rows := RowCount(streams);
    var body := Interleave(streams, rows);
    assert body == Interleave(streams, rows - 1) + Row(streams, rows - 1) + [""];
    assert body[|body| - 2] == streams[|streams| - 1][rows - 1];
  }

  /** `interleaved_phy(msa, add_flag, max_name_length)`: MSAError for an
      invalid alignment, else the lines joined by newlines. */
  method InterleavedPhy(msa: Msa.Alignment, addFlag: bool, maxNameLength: int) returns (r: Result<string>)
    ensures r.Err? <==> !Msa.WellFormed(msa)
    ensures r.Err? ==> r.error == MSAError
    ensures r.Ok? ==> r.value == PyText.Join("\n", InterleavedLines(msa, addFlag, maxNameLength))
  {
    var check := Msa.ValidateMsa([msa]);
    Msa.ValidSingle(msa);
    if check.Fail? {
      return Err(check.error);
    }
    var padded := PaddedLength(msa, maxNameLength);
    var names := PyText.SortedSet(msa.Keys);
    SortedNamesIn(msa);
    var streams := BuildStreams(msa, names, padded, maxNameLength);
    var rows := WriteRows(streams);
    var result := [Header(msa, "I", addFlag), ""] + rows;
    result := result[..|result| - 1];
    return Ok(PyText.Join("\n", result));
  }

  /** The loop of `interleaved_phy` building each sequence's lines. */
  method BuildStreams(msa: Msa.Alignment, names: seq<string>, padded: int, maxNameLength: int) returns (streams: seq<seq<string>>)
    requires forall k :: 0 <= k < |names| ==> names[k] in msa
    ensures streams == Streams(msa, names, padded, maxNameLength)
  {
    streams := [];
    var i := 0;
    while i < |names|
      invariant 0 <= i <= |names|
      invariant streams == Streams(msa, names[..i], padded, maxNameLength)
    {
      var lines := BuildStream(Truncate(names[i], maxNameLength), padded, msa[names[i]]);
      streams := streams + [lines];
      i := i + 1;
    }
    assert names[..i] == names;
  }

  /** The `zip(*streams)` loop: each row, then an empty line. */
  method WriteRows(streams: seq<seq<string>>) returns (result: seq<string>)
    ensures result == Interleave(streams, RowCount(streams))
  {
    var rows := RowCount(streams);
    result := [];
    var row := 0;
    while row < rows
      invariant 0 <= row <= rows
      invariant result == Interleave(streams, row)
    {
      result := result + Row(streams, row);
      result := result + [""];
      row := row + 1;
    }
  }
}
