// `VCFBuffer`: a window over the variants of a VCF file, kept in a list
// `buffer` with a cursor `current`, one variant read ahead in `staged`, and
// the '#' lines met on the way collected in `header_buffer`.  The buffer is
// sized by `max_size`.  The file is the sequence of its remaining lines,
// each already stripped; a variant keeps its line, whose split into fields
// is not modelled.
module VcfBuffer {
  import opened PyErrors
  import PyText

  /** What `nextvar` returns: `[]` at the end of the file or at an empty
      line, or a `Variant` of the line. */
  datatype Entry = NoVariant | Variant(line: string)

  predicate IsHeader(line: string)
  {
    |line| > 0 && line[0] == '#'
  }

  /** `nextvar` on the remaining lines `file`: the '#' lines it moves to the
      header, the entry it returns, and the lines left.  `readline` at the
      end of the file gives the empty line. */
  function NextVarOf(file: seq<string>): (seq<string>, Entry, seq<string>)
    decreases |file|
  {
    if |file| == 0 then ([], NoVariant, [])
    else if IsHeader(file[0]) then
      var (headers, entry, rest) := NextVarOf(file[1..]);
      ([file[0]] + headers, entry, rest)
    else if file[0] == "" then ([], NoVariant, file[1..])
    else ([], Variant(file[0]), file[1..])
  }

  /** A '#' line read by `nextvar` goes to the header. */
  lemma NextVarHeader(line: string, file: seq<string>)
    requires IsHeader(line)
    ensures NextVarOf([line] + file) == ([line] + NextVarOf(file).0, NextVarOf(file).1, NextVarOf(file).2)
  {
    assert ([line] + file)[1..] == file;
  }

  /** Any other line read by `nextvar` ends it. */
  lemma NextVarBody(line: string, file: seq<string>)
    requires !IsHeader(line)
    ensures NextVarOf([line] + file) == ([], if line == "" then NoVariant else Variant(line), file)
  {
    assert ([line] + file)[1..] == file;
  }

  /** `nextvar` takes the leading '#' lines as header lines, then reads one
      more line: the end of the file or an empty line gives `[]`, any other
      line a variant. */
  lemma {:induction false} NextVarMeaning(file: seq<string>)
    ensures var (headers, entry, rest) := NextVarOf(file);
            |headers| <= |file| && headers == file[..|headers|]
            && (forall i :: 0 <= i < |headers| ==> IsHeader(headers[i]))
            && (if |headers| == |file| then entry == NoVariant && rest == []
                else !IsHeader(file[|headers|]) && rest == file[|headers| + 1..]
                     && entry == (if file[|headers|] == "" then NoVariant else Variant(file[|headers|])))
    decreases |file|
  {
    if |file| > 0 && IsHeader(file[0]) {
      NextVarMeaning(file[1..]);
      var (headers, entry, rest) := NextVarOf(file[1..]);
      assert NextVarOf(file) == ([file[0]] + headers, entry, rest);
      assert file[1..][..|headers|] == file[1..|headers| + 1];
      if |headers| < |file[1..]| {
        assert file[1..][|headers|] == file[|headers| + 1];
        assert file[1..][|headers| + 1..] == file[|headers| + 2..];
      }
    }
  }

  /** The two arguments `max_size` is called with. */
  datatype Stream = Downstream | Upstream

  /** The state of a `VCFBuffer`. */
  datatype Buf = Buf(file: seq<string>, header: seq<string>, buffer: seq<Entry>, current: int,
                     staged: Entry, maxSize: nat)

  /** The cursor points into the buffer, or the buffer is still empty. */
  predicate Valid(b: Buf)
  {
    if b.buffer == [] then b.current == 0 else 0 <= b.current < |b.buffer|
  }

  /** `max_size(stream)`. */
  predicate MaxSize(b: Buf, stream: Stream)
  {
    match stream
    case Downstream => |b.buffer| - b.current > b.maxSize
    case Upstream => b.current <= b.maxSize
  }

  /** `nextvar` on a state: the header lines are collected and the file
      advances. */
  function NextVar(b: Buf): (Buf, Entry)
  {
    var (headers, entry, rest) := NextVarOf(b.file);
    (b.(file := rest, header := b.header + headers), entry)
  }

  /** The first loop of `rebuffer`: stage variants into the buffer until
      the downstream side is full. */
  function Fill(b: Buf): (r: Buf)
    requires Valid(b)
    ensures Valid(r) && r.current == b.current && |r.buffer| >= |b.buffer| && r.buffer[..|b.buffer|] == b.buffer
    decreases b.maxSize + b.current + 1 - |b.buffer|
  {
    if MaxSize(b, Downstream) then b
    else
      var (next, entry) := NextVar(b);
      var r := Fill(next.(buffer := b.buffer + [b.staged], staged := entry));
      assert r.buffer[..|b.buffer|] == (b.buffer + [b.staged])[..|b.buffer|];
      r
  }

  /** The second loop of `rebuffer`: drop the front entry, moving the
      cursor with it, until the upstream side is full. */
  function Trim(b: Buf): (r: Buf)
    requires Valid(b)
    ensures Valid(r)
    decreases b.current
  {
    if MaxSize(b, Upstream) then b
    else Trim(b.(buffer := b.buffer[1..], current := b.current - 1))
  }

  /** `rebuffer`. */
  function Rebuffer(b: Buf): Buf
    requires Valid(b)
  {
    if b.buffer == [] then b else Trim(Fill(b))
  }

  /** Dropping from the front keeps the entry under the cursor, and leaves
      the upstream side full; the downstream side stays as it was. */
  lemma {:induction false} TrimMeaning(b: Buf)
    requires Valid(b) && b.buffer != []
    ensures var r := Trim(b);
            r.buffer != [] && 0 <= r.current <= b.current && r.buffer[r.current] == b.buffer[b.current]
            && MaxSize(r, Upstream) && |r.buffer| - r.current == |b.buffer| - b.current
            && r.buffer == b.buffer[b.current - r.current..]
            && r.file == b.file && r.header == b.header && r.staged == b.staged && r.maxSize == b.maxSize
    decreases b.current
  {
    if !MaxSize(b, Upstream) {
      var next := b.(buffer := b.buffer[1..], current := b.current - 1);
      TrimMeaning(next);
      assert b.buffer[1..][b.current - 1 - Trim(next).current..] == b.buffer[b.current - Trim(next).current..];
    }
  }

  /** `rebuffer` does nothing on an empty buffer; otherwise it leaves both
      sides full, keeps the entry under the cursor, and keeps the entries
      after it, adding staged variants behind them. */
  lemma RebufferMeaning(b: Buf)
    requires Valid(b)
    ensures Valid(Rebuffer(b))
    ensures b.buffer == [] ==> Rebuffer(b) == b
    ensures b.buffer != [] ==>
              var r := Rebuffer(b);
              r.buffer != [] && MaxSize(r, Downstream) && MaxSize(r, Upstream)
              && r.buffer[r.current] == b.buffer[b.current]
              && |r.buffer| - r.current >= |b.buffer| - b.current
              && r.buffer[r.current..][..|b.buffer| - b.current] == b.buffer[b.current..]
  {
    if b.buffer != [] {
      var f := Fill(b);
      FillFull(b);
      TrimMeaning(f);
      var r := Trim(f);
      assert f.buffer[b.current] == b.buffer[b.current];
      assert r.buffer[r.current..] == f.buffer[b.current..];
      assert f.buffer[b.current..][..|b.buffer| - b.current] == b.buffer[b.current..];
    }
  }

  lemma {:induction false} FillFull(b: Buf)
    requires Valid(b)
    ensures MaxSize(Fill(b), Downstream)
    decreases b.maxSize + b.current + 1 - |b.buffer|
  {
    if !MaxSize(b, Downstream) {
      var (next, entry) := NextVar(b);
      FillFull(next.(buffer := b.buffer + [b.staged], staged := entry));
    }
  }

  /** `readline`: the state after it and the entry it returns. */
  function Readline(b: Buf): (Buf, Entry)
    requires Valid(b)
  {
    if b.buffer == [] then
      var (next, entry) := NextVar(b);
      var r := Rebuffer(next.(buffer := [b.staged], staged := entry));
      RebufferMeaning(next.(buffer := [b.staged], staged := entry));
      (r, r.buffer[r.current])
    else if b.current == |b.buffer| - 1 && b.staged == NoVariant then
      (b, NoVariant)
    else
      var advanced :=
        if b.current == |b.buffer| - 1 then
          var (next, entry) := NextVar(b);
          next.(buffer := b.buffer + [b.staged], staged := entry, current := b.current + 1)
        else b.(current := b.current + 1);
      var r := Rebuffer(advanced);
      RebufferMeaning(advanced);
      (r, r.buffer[r.current])
  }

  /** The first `readline` returns the staged variant; at the last entry
      with nothing staged it returns `[]` and changes nothing; otherwise it
      returns the entry after the cursor, the staged one when the cursor is
      at the end. */
  lemma ReadlineMeaning(b: Buf)
    requires Valid(b)
    ensures Valid(Readline(b).0)
    ensures b.buffer == [] ==> Readline(b).1 == b.staged
    ensures b.buffer != [] && b.current == |b.buffer| - 1 && b.staged == NoVariant ==> Readline(b) == (b, NoVariant)
    ensures b.buffer != [] && !(b.current == |b.buffer| - 1 && b.staged == NoVariant) ==>
              Readline(b).1 == (b.buffer + [b.staged])[b.current + 1]
    ensures Readline(b).0.buffer != []
    ensures !(b.buffer != [] && b.current == |b.buffer| - 1 && b.staged == NoVariant) ==>
              Readline(b).1 == Readline(b).0.buffer[Readline(b).0.current]
  {
    if b.buffer == [] {
      var (next, entry) := NextVar(b);
      RebufferMeaning(next.(buffer := [b.staged], staged := entry));
    } else if !(b.current == |b.buffer| - 1 && b.staged == NoVariant) {
      if b.current == |b.buffer| - 1 {
        var (next, entry) := NextVar(b);
        var advanced := next.(buffer := b.buffer + [b.staged], staged := entry, current := b.current + 1);
        RebufferMeaning(advanced);
        assert advanced.buffer[advanced.current] == b.staged;
      } else {
        var advanced := b.(current := b.current + 1);
        RebufferMeaning(advanced);
        assert advanced.buffer[advanced.current] == (b.buffer + [b.staged])[b.current + 1];
      }
    }
  }

  /** `next`: the entry `readline` returns, or StopIteration when that is
      `[]`. */
  function Next(b: Buf): (r: (Buf, Result<Entry>))
    requires Valid(b)
    ensures r.1 == Err(StopIteration) <==> Readline(b).1 == NoVariant
    ensures r.1.Ok? ==> r.1.value == Readline(b).1 && r.0 == Readline(b).0
  {
    var (after, entry) := Readline(b);
    if entry == NoVariant then (after, Err(StopIteration)) else (after, Ok(entry))
  }

  /** `header()`: the header lines joined by newlines. */
  function HeaderText(b: Buf): string
  {
    PyText.Join("\n", b.header)
  }

  /** The header lines come back from `header()` by splitting on newlines,
      as lines read from a file hold none. */
  lemma HeaderRoundTrip(b: Buf)
    requires |b.header| >= 1
    requires forall i :: 0 <= i < |b.header| ==> '\n' !in b.header[i]
    ensures PyText.SplitOn(HeaderText(b), '\n') == b.header
  {
    PyText.SplitOnJoin(b.header, '\n');
  }

  /** `VCFBuffer` with `max_size` as its buffer function. */
  class VCFBuffer {
    var file: seq<string>
    var headerBuffer: seq<string>
    var buffer: seq<Entry>
    var current: int
    var staged: Entry
    var maxBufferSize: nat

    function State(): Buf
      reads this
    {
      Buf(file, headerBuffer, buffer, current, staged, maxBufferSize)
    }

    /** Opens the file, stages its first variant and leaves the buffer
        empty. */
    constructor(lines: seq<string>)
      ensures State() == NextVar(Buf(lines, [], [], 0, NoVariant, 0)).0.(staged := NextVar(Buf(lines, [], [], 0, NoVariant, 0)).1)
    {
      maxBufferSize := 0;
      headerBuffer := [];
      buffer := [];
      current := 0;
      file := lines;
      staged := NoVariant;
      new;
      staged := NextVarMethod();
      RebufferMethod();
    }

    /** `nextvar`. */
    method NextVarMethod() returns (entry: Entry)
      modifies this
      ensures (State(), entry) == NextVar(old(State()))
    {
      ghost var headers: seq<string> := [];
      var line := ReadLine();
      assert headers + NextVarOf([line] + file).0 == NextVarOf([line] + file).0;
      while IsHeader(line)
        invariant headerBuffer == old(headerBuffer) + headers
        invariant NextVarOf(old(file)) == (headers + NextVarOf([line] + file).0, NextVarOf([line] + file).1, NextVarOf([line] + file).2)
        invariant buffer == old(buffer) && current == old(current) && staged == old(staged) && maxBufferSize == old(maxBufferSize)
        decreases |file| + if IsHeader(line) then 1 else 0
      {
        NextVarHeader(line, file);
        ghost var before := file;
        ghost var taken := headers;
        ghost var header := line;
        headerBuffer := headerBuffer + [line];
        headers := headers + [line];
        line := ReadLine();
        assert headers + NextVarOf([line] + file).0 == taken + ([header] + NextVarOf(before).0);
      }
      NextVarBody(line, file);
      if line == "" {
        entry := NoVariant;
      } else {
        entry := Variant(line);
      }
      assert headers + [] == headers;
    }

    /** `self.file.readline().strip()`: the next line, or the empty line at
        the end of the file. */
    method ReadLine() returns (line: string)
      modifies this
      ensures NextVarOf(old(file)) == NextVarOf([line] + file)
      ensures |file| < |old(file)| || (file == old(file) == [] && line == "")
      ensures headerBuffer == old(headerBuffer) && buffer == old(buffer) && current == old(current)
      ensures staged == old(staged) && maxBufferSize == old(maxBufferSize)
    {
      if file == [] {
        line := "";
        assert NextVarOf([line] + file) == ([], NoVariant, []);
      } else {
        line := file[0];
        file := file[1..];
        assert [line] + file == old(file);
      }
    }

    /** `rebuffer`. */
    method RebufferMethod()
      requires Valid(State())
      modifies this
      ensures Valid(old(State())) && State() == Rebuffer(old(State()))
    {
      if |buffer| == 0 {
        return;
      }
      while !MaxSize(State(), Downstream)
        invariant Valid(State()) && Fill(State()) == Fill(old(State()))
        decreases maxBufferSize + current + 1 - |buffer|
      {
        buffer := buffer + [staged];
        staged := NextVarMethod();
      }
      while !MaxSize(State(), Upstream)
        invariant Valid(State()) && Trim(State()) == Trim(Fill(old(State())))
        decreases current
      {
        buffer := buffer[1..];
        current := current - 1;
      }
    }

    /** `readline`. */
    method ReadlineMethod() returns (entry: Entry)
      requires Valid(State())
      modifies this
      ensures Valid(old(State())) && (State(), entry) == Readline(old(State()))
    {
      if |buffer| == 0 {
        buffer := buffer + [staged];
        staged := NextVarMethod();
      } else if current == |buffer| - 1 {
        if staged == NoVariant {
          return staged;
        }
        buffer := buffer + [staged];
        staged := NextVarMethod();
        current := current + 1;
      } else {
        current := current + 1;
      }
      ghost var advanced := State();
      RebufferMethod();
      RebufferMeaning(advanced);
      entry := buffer[current];
    }

    /** `next`. */
    method NextMethod() returns (r: Result<Entry>)
      requires Valid(State())
      modifies this
      ensures Valid(old(State())) && (State(), r) == Next(old(State()))
    {
      var entry := ReadlineMethod();
      ReadlineMeaning(old(State()));
      if entry == NoVariant {
        return Err(StopIteration);
      }
      r := Ok(buffer[current]);
    }

    /** `header()`. */
    method Header() returns (text: string)
      ensures text == HeaderText(State())
    {
      text := PyText.Join("\n", headerBuffer);
    }
  }
}
