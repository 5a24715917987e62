// `VCFWindow.populate_window`: numbering each variant of a VCF file by the
// window of `win_size` bases that reaches its position, starting again at
// window 1 whenever the chromosome changes.  Reading the file and splitting
// its lines are abstracted into a sequence of `Line` values.
module VcfWindow {
  import opened PyErrors

  /** `self.win_size`. */
  const WinSize := 50000

  /** A line of the VCF file as `populate_window` sees it: a '#' line, a
      variant with its first field (the chromosome) and its second field
      read by `int()`, or a line whose split or `int()` raises. */
  datatype Line = Comment | Variant(chrom: string, pos: int) | Malformed(error: ErrorKind)

  /** The variants read before the first line that raises, and that line's
      exception, if any. */
  function Parsed(lines: seq<Line>): (seq<(string, int)>, Outcome)
    decreases |lines|
  {
    if |lines| == 0 then ([], Pass)
    else
      var (vs, o) := Parsed(lines[..|lines| - 1]);
      if o.Fail? then (vs, o)
      else
        match lines[|lines| - 1]
        case Comment => (vs, Pass)
        case Variant(c, p) => (vs + [(c, p)], Pass)
        case Malformed(e) => (vs, Fail(e))
  }

  /** Reading stops at the first line that raises, with that line's
      exception; every variant before it is read, in order. */
  lemma {:induction false} ParsedMeaning(lines: seq<Line>)
    ensures Parsed(lines).1.Fail? <==> exists i :: 0 <= i < |lines| && lines[i].Malformed?
    ensures Parsed(lines).1.Fail? ==>
              exists i :: 0 <= i < |lines| && lines[i] == Malformed(Parsed(lines).1.error)
                && (forall j :: 0 <= j < i ==> !lines[j].Malformed?)
    ensures Parsed(lines).1.Pass? ==> |Parsed(lines).0| == CountVariants(lines)
    decreases |lines|
  {
    if |lines| > 0 {
      var prefix := lines[..|lines| - 1];
      ParsedMeaning(prefix);
      if Parsed(prefix).1.Fail? {
        var i :| 0 <= i < |prefix| && prefix[i] == Malformed(Parsed(prefix).1.error)
                 && (forall j :: 0 <= j < i ==> !prefix[j].Malformed?);
        assert lines[i] == prefix[i];
        assert forall j :: 0 <= j < i ==> lines[j] == prefix[j];
      } else {
        assert forall j :: 0 <= j < |prefix| ==> lines[j] == prefix[j];
        if !lines[|lines| - 1].Malformed? {
          assert !exists i :: 0 <= i < |lines| && lines[i].Malformed?;
        }
      }
    }
  }

  /** The number of variant lines. */
  function CountVariants(lines: seq<Line>): nat
    decreases |lines|
  {
    if |lines| == 0 then 0
    else CountVariants(lines[..|lines| - 1]) + (if lines[|lines| - 1].Variant? then 1 else 0)
  }

  /** Once a line has raised, the lines after it are not read. */
  lemma {:induction false} ParsedFailStays(lines: seq<Line>, i: nat)
    requires i <= |lines| && Parsed(lines[..i]).1.Fail?
    ensures Parsed(lines) == Parsed(lines[..i])
    decreases |lines|
  {
    if i < |lines| {
      var prefix := lines[..|lines| - 1];
      assert prefix[..i] == lines[..i];
      ParsedFailStays(prefix, i);
    } else {
      assert lines[..i] == lines;
    }
  }

  /** Reading one more line after the lines read so far. */
  lemma ParsedStep(lines: seq<Line>, i: nat)
    requires i < |lines| && Parsed(lines[..i]).1.Pass?
    ensures Parsed(lines[..i + 1])
            == match lines[i]
               case Comment => Parsed(lines[..i])
               case Variant(c, p) => (Parsed(lines[..i]).0 + [(c, p)], Pass)
               case Malformed(e) => (Parsed(lines[..i]).0, Fail(e))
  {
    assert lines[..i + 1][..i] == lines[..i];
  }

  /** The `while` loop: the least window from `start` on whose end reaches
      `pos`. */
  function WindowFor(start: int, pos: int): (w: int)
    requires start >= 1
    ensures w >= start && pos <= w * WinSize
    ensures w > start ==> (w - 1) * WinSize < pos
  {
    if pos <= start * WinSize then start else (pos + WinSize - 1) / WinSize
  }

  /** What one call of `populate_window` adds: a window and a chromosome
      per variant, and the number of window increments. */
  datatype Scan = Scan(windows: seq<int>, chroms: seq<string>, increments: int)

  /** The entries for the variants `vs`, placed with `cur_win` starting at
      1 and `cur_chrom` at None. */
  function Assign(vs: seq<(string, int)>): (r: Scan)
    ensures |r.windows| == |vs| && |r.chroms| == |vs|
    ensures |vs| > 0 ==> r.windows[|vs| - 1] >= 1
    decreases |vs|
  {
    if |vs| == 0 then Scan([], [], 0)
    else
      var t := Assign(vs[..|vs| - 1]);
      var (chrom, pos) := vs[|vs| - 1];
      var start := if |vs| > 1 && vs[|vs| - 2].0 == chrom then t.windows[|vs| - 2] else 1;
      var w := WindowFor(start, pos);
      Scan(t.windows + [w], t.chroms + [chrom], t.increments + (w - start))
  }

  /** The window the `k`-th entry starts counting from, read off the lists
      alone: the previous entry's window when it is on the same chromosome,
      and 1 at the first entry and on a new chromosome. */
  function StartOf(windows: seq<int>, chroms: seq<string>, k: nat): int
    requires k < |windows| && |chroms| == |windows|
  {
    if k > 0 && chroms[k - 1] == chroms[k] then windows[k - 1] else 1
  }

  /** Each variant gets its chromosome and the least window, counting from
      its start, that reaches its position. */
  lemma {:induction false} AssignMeaning(vs: seq<(string, int)>)
    ensures forall k :: 0 <= k < |vs| ==> Assign(vs).chroms[k] == vs[k].0
    ensures forall k :: 0 <= k < |vs| ==>
              StartOf(Assign(vs).windows, Assign(vs).chroms, k) >= 1
              && Assign(vs).windows[k] == WindowFor(StartOf(Assign(vs).windows, Assign(vs).chroms, k), vs[k].1)
    decreases |vs|
  {
    if |vs| > 0 {
      var n := |vs| - 1;
      var prefix := vs[..n];
      AssignMeaning(prefix);
      var t := Assign(prefix);
      var r := Assign(vs);
      assert r.windows[..n] == t.windows && r.chroms[..n] == t.chroms;
      forall k | 0 <= k < |vs|
        ensures r.chroms[k] == vs[k].0
        ensures StartOf(r.windows, r.chroms, k) >= 1
        ensures r.windows[k] == WindowFor(StartOf(r.windows, r.chroms, k), vs[k].1)
      {
        if k < n {
          assert vs[k] == prefix[k];
          assert r.windows[k] == t.windows[k] && r.chroms[k] == t.chroms[k];
          if k > 0 {
            assert r.windows[k - 1] == t.windows[k - 1] && r.chroms[k - 1] == t.chroms[k - 1];
          }
        } else if k > 0 {
          assert r.chroms[k - 1] == t.chroms[k - 1] == prefix[k - 1].0 == vs[k - 1].0;
          assert r.windows[k - 1] == t.windows[k - 1];
        }
      }
    }
  }

  /** Within a chromosome the window number never decreases, a new
      chromosome starts again from window 1, and every variant lies at or
      below the end of its window. */
  lemma WindowsOrdered(vs: seq<(string, int)>)
    ensures forall k :: 0 <= k < |vs| ==> 1 <= Assign(vs).windows[k] && vs[k].1 <= Assign(vs).windows[k] * WinSize
    ensures forall k :: 0 < k < |vs| && vs[k - 1].0 == vs[k].0 ==> Assign(vs).windows[k - 1] <= Assign(vs).windows[k]
    ensures forall k :: 0 <= k < |vs| && (k == 0 || vs[k - 1].0 != vs[k].0) ==> Assign(vs).windows[k] == WindowFor(1, vs[k].1)
  {
    AssignMeaning(vs);
    var r := Assign(vs);
    forall k | 0 <= k < |vs|
      ensures 1 <= r.windows[k] && vs[k].1 <= r.windows[k] * WinSize
      ensures k > 0 && vs[k - 1].0 == vs[k].0 ==> r.windows[k - 1] <= r.windows[k]
      ensures (k == 0 || vs[k - 1].0 != vs[k].0) ==> r.windows[k] == WindowFor(1, vs[k].1)
    {
      if k > 0 {
        assert r.chroms[k - 1] == vs[k - 1].0 && r.chroms[k] == vs[k].0;
      }
    }
  }

  /** The window increments made while placing the entries, read off the
      lists alone. */
  function Increments(windows: seq<int>, chroms: seq<string>): int
    requires |windows| == |chroms|
    decreases |windows|
  {
    if |windows| == 0 then 0
    else
      var k := |windows| - 1;
      Increments(windows[..k], chroms[..k]) + (windows[k] - StartOf(windows, chroms, k))
  }

  /** `num_windows` grows by the window increments and by nothing else: a
      change of chromosome does not count. */
  lemma {:induction false} AssignCounts(vs: seq<(string, int)>)
    ensures Assign(vs).increments == Increments(Assign(vs).windows, Assign(vs).chroms)
    ensures Assign(vs).increments >= 0
    decreases |vs|
  {
    if |vs| > 0 {
      var n := |vs| - 1;
      AssignCounts(vs[..n]);
      AssignMeaning(vs);
      var t := Assign(vs[..n]);
      var r := Assign(vs);
      assert r.windows[..n] == t.windows && r.chroms[..n] == t.chroms;
      if n > 0 {
        assert r.chroms[n - 1] == vs[n - 1].0 && r.chroms[n] == vs[n].0;
      }
    }
  }

  /** One more variant, placed from the previous entry's window when it is
      on the same chromosome and from 1 otherwise. */
  lemma AssignSnoc(vs: seq<(string, int)>, chrom: string, pos: int)
    ensures var t := Assign(vs);
            var start := if |vs| > 0 && vs[|vs| - 1].0 == chrom then t.windows[|vs| - 1] else 1;
            start >= 1
            && Assign(vs + [(chrom, pos)])
               == Scan(t.windows + [WindowFor(start, pos)], t.chroms + [chrom], t.increments + (WindowFor(start, pos) - start))
  {
    assert (vs + [(chrom, pos)])[..|vs|] == vs;
  }

  /** `VCFWindow`: the windows and chromosomes of the variants placed so
      far, and the number of window increments. */
  class VCFWindow {
    var windows: seq<int>
    var winChroms: seq<string>
    var numWindows: int

    constructor()
      ensures windows == [] && winChroms == [] && numWindows == 0
    {
      windows := [];
      winChroms := [];
      numWindows := 0;
    }

    /** `populate_window`: places every variant of the file, stopping at
        the first line that raises; what was placed before it stays. */
    method PopulateWindow(lines: seq<Line>) returns (o: Outcome)
      modifies this
      ensures o == Parsed(lines).1
      ensures windows == old(windows) + Assign(Parsed(lines).0).windows
      ensures winChroms == old(winChroms) + Assign(Parsed(lines).0).chroms
      ensures numWindows == old(numWindows) + Assign(Parsed(lines).0).increments
    {
      var curWin := 1;
      var curChrom: Option<string> := None;
      ghost var vs: seq<(string, int)> := [];
      for i := 0 to |lines|
        invariant Parsed(lines[..i]) == (vs, Pass)
        invariant windows == old(windows) + Assign(vs).windows
        invariant winChroms == old(winChroms) + Assign(vs).chroms
        invariant numWindows == old(numWindows) + Assign(vs).increments
        invariant curChrom == if vs == [] then None else Some(vs[|vs| - 1].0)
        invariant vs == [] ==> curWin == 1
        invariant vs != [] ==> curWin == Assign(vs).windows[|vs| - 1]
      {
        ParsedStep(lines, i);
        match lines[i]
        case Comment =>
        case Malformed(e) =>
          ParsedFailStays(lines, i + 1);
          return Fail(e);
        case Variant(chrom, pos) =>
          if curChrom != Some(chrom) {
            curWin := 1;
            curChrom := Some(chrom);
          }
          ghost var before := vs;
          var from := curWin;
          curWin := AdvanceWindow(from, pos);
          AssignSnoc(before, chrom, pos);
          windows := windows + [curWin];
          winChroms := winChroms + [chrom];
          vs := vs + [(chrom, pos)];
      }
      assert lines[..|lines|] == lines;
      o := Pass;
    }

    /** The `while` loop of `populate_window`: counts windows up from
        `from` until one reaches `pos`, adding each increment to
        `num_windows`. */
    method AdvanceWindow(from: int, pos: int) returns (w: int)
      requires from >= 1
      modifies this
      ensures w == WindowFor(from, pos)
      ensures numWindows == old(numWindows) + (w - from)
      ensures windows == old(windows) && winChroms == old(winChroms)
    {
      w := from;
      while pos > w * WinSize
        invariant from <= w <= WindowFor(from, pos)
        invariant numWindows == old(numWindows) + (w - from)
        invariant windows == old(windows) && winChroms == old(winChroms)
        decreases WindowFor(from, pos) - w
      {
        w := w + 1;
        numWindows := numWindows + 1;
      }
    }
  }
}
