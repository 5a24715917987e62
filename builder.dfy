// AtomicCmdBuilder of pypeline/atomiccmd/builder.py: a command line built up
// from a base call, an ordered list of option records and positional values,
// frozen into an AtomicCmd by `finalize`; plus the Java and MPI builders and
// `apply_options`.
module Builders {
  import opened PyErrors
  import opened PyValues
  import opened PyCompare
  import Utilities
  import PyText

  // ---------------------------------------------------------------------
  // Option records and their invariant

  /** One entry of the `_options` list. `value` and `sep` are `PNone` when
      they were not given. */
  datatype OptionRec = OptionRec(key: string, value: Value, sep: Value, fixed: bool, singleton: bool)

  /** What the option list looks like between any two calls: keys are
      non-empty, and two records with the same key are both non-singletons
      (so a singleton key occurs once, and a key is never mixed). */
  predicate WellFormed(options: seq<OptionRec>)
  {
    (forall i :: 0 <= i < |options| ==> options[i].key != "") &&
    (forall i, j :: 0 <= i < j < |options| && options[i].key == options[j].key ==>
       !options[i].singleton && !options[j].singleton)
  }

  /** The index of the last record with the given key, as the reversed
      scan of `_get_option_for_editing` finds it. */
  function LastIndex(options: seq<OptionRec>, key: string): (r: Option<nat>)
    ensures r.Some? ==> r.value < |options| && options[r.value].key == key &&
                        forall j :: r.value < j < |options| ==> options[j].key != key
    ensures r.None? ==> forall j :: 0 <= j < |options| ==> options[j].key != key
  {
    if |options| == 0 then None
    else if options[|options| - 1].key == key then Some(|options| - 1)
    else LastIndex(options[..|options| - 1], key)
  }

  /** `_get_option_for_editing`: the latch, the key checks, then the last
      record with that key, whose kind must match `singleton` when given. */
  function GetOptionForEditing(finalized: bool, options: seq<OptionRec>, key: Value, singleton: Option<bool>): (r: Result<Option<nat>>)
    ensures r.Ok? ==> !finalized && key.PStr? && key.s != "" && r.value == LastIndex(options, key.s)
    ensures r.Ok? && r.value.Some? && singleton.Some? ==> options[r.value.value].singleton == singleton.value
  {
    if finalized then Err(AtomicCmdBuilderError)
    else if !key.PStr? then Err(TypeError)
    else if key.s == "" then Err(KeyError)
    else
      match LastIndex(options, key.s)
      case None => Ok(None)
      case Some(i) =>
        if singleton.Some? && options[i].singleton != singleton.value then Err(AtomicCmdBuilderError)
        else Ok(Some(i))
  }

  // ---------------------------------------------------------------------
  // The mutators, as functions of the option list

  /** `set_option`: overwrite the existing singleton in place, or append a
      new one. */
  function SetOptionOn(finalized: bool, options: seq<OptionRec>, key: Value, value: Value, sep: Value, fixed: bool): Result<seq<OptionRec>>
  {
    var found :- GetOptionForEditing(finalized, options, key, Some(true));
    var rec := OptionRec(key.s, value, sep, fixed, true);
    match found
    case None => Ok(options + [rec])
    case Some(i) => if options[i].fixed then Err(AtomicCmdBuilderError) else Ok(options[i := rec])
  }

  /** `add_option`: the checks, then always an append. */
  function AddOptionOn(finalized: bool, options: seq<OptionRec>, key: Value, value: Value, sep: Value, fixed: bool): Result<seq<OptionRec>>
  {
    var _ :- GetOptionForEditing(finalized, options, key, Some(false));
    Ok(options + [OptionRec(key.s, value, sep, fixed, false)])
  }

  /** `pop_option` as evidently intended: remove the most recently added
      record with that key. */
  function PopOptionOn(finalized: bool, options: seq<OptionRec>, key: Value): Result<seq<OptionRec>>
  {
    var found :- GetOptionForEditing(finalized, options, key, None);
    match found
    case None => Err(KeyError)
    case Some(i) => if options[i].fixed then Err(AtomicCmdBuilderError) else Ok(options[..i] + options[i + 1..])
  }

  /** The result of a mutator seen from the caller: raised or not. */
  function OutcomeOf(r: Result<seq<OptionRec>>): (o: Outcome)
    ensures o.Pass? <==> r.Ok?
    ensures o.Fail? ==> o.error == r.error
  {
    if r.Ok? then Pass else Fail(r.error)
  }

  /** The option list after a mutator: unchanged when it raised. */
  function After(r: Result<seq<OptionRec>>, options: seq<OptionRec>): (o: seq<OptionRec>)
    ensures r.Err? ==> o == options
    ensures r.Ok? ==> o == r.value
  {
    if r.Ok? then r.value else options
  }

  // ---------------------------------------------------------------------
  // What the mutators promise

  /** Every mutator raises AtomicCmdBuilderError once the builder is
      finalized. */
  lemma {:induction false} FinalizedRejectsEdits(options: seq<OptionRec>, key: Value, value: Value, sep: Value, fixed: bool)
    ensures SetOptionOn(true, options, key, value, sep, fixed) == Err(AtomicCmdBuilderError)
    ensures AddOptionOn(true, options, key, value, sep, fixed) == Err(AtomicCmdBuilderError)
    ensures PopOptionOn(true, options, key) == Err(AtomicCmdBuilderError)
  {
  }

  /** A key that is not a string raises TypeError, and "" raises KeyError,
      whichever mutator is called. */
  lemma {:induction false} BadKeysRejected(options: seq<OptionRec>, key: Value, value: Value, sep: Value, fixed: bool)
    requires !key.PStr? || key.s == ""
    ensures var e := if key.PStr? then KeyError else TypeError;
      SetOptionOn(false, options, key, value, sep, fixed) == Err(e) &&
      AddOptionOn(false, options, key, value, sep, fixed) == Err(e) &&
      PopOptionOn(false, options, key) == Err(e)
  {
  }

  /** `set_option` on a key not yet present appends one singleton record;
      on a non-fixed singleton it replaces that record where it stands; on
      a fixed one it raises. */
  lemma {:induction false} SetOptionMeaning(options: seq<OptionRec>, key: string, value: Value, sep: Value, fixed: bool)
    requires WellFormed(options) && key != ""
    ensures var r := SetOptionOn(false, options, PStr(key), value, sep, fixed);
            var rec := OptionRec(key, value, sep, fixed, true);
      && ((forall j :: 0 <= j < |options| ==> options[j].key != key) ==> r == Ok(options + [rec]))
      && (forall i :: 0 <= i < |options| && options[i].key == key ==>
            (options[i].singleton && !options[i].fixed ==> r == Ok(options[i := rec])) &&
            (options[i].singleton && options[i].fixed ==> r == Err(AtomicCmdBuilderError)) &&
            (!options[i].singleton ==> r == Err(AtomicCmdBuilderError)))
  {
    var found := LastIndex(options, key);
    if found.Some? && options[found.value].singleton {
      SingletonAlone(options, found.value);
    }
  }

  /** `add_option` always appends, unless the key was set with
      `set_option`, in which case it raises. */
  lemma {:induction false} AddOptionMeaning(options: seq<OptionRec>, key: string, value: Value, sep: Value, fixed: bool)
    requires WellFormed(options) && key != ""
    ensures var r := AddOptionOn(false, options, PStr(key), value, sep, fixed);
      && ((forall j :: 0 <= j < |options| ==> options[j].key != key || !options[j].singleton) ==>
            r == Ok(options + [OptionRec(key, value, sep, fixed, false)]))
      && (forall i :: 0 <= i < |options| && options[i].key == key && options[i].singleton ==>
            r == Err(AtomicCmdBuilderError))
  {
    forall i | 0 <= i < |options| && options[i].key == key && options[i].singleton
      ensures LastIndex(options, key) == Some(i)
    {
      SingletonAlone(options, i);
    }
  }

  /** `pop_option` removes the most recently added record with the key and
      keeps the others in order; a missing key raises KeyError and a fixed
      record AtomicCmdBuilderError. */
  lemma {:induction false} PopOptionMeaning(options: seq<OptionRec>, key: string)
    requires key != ""
    ensures var r := PopOptionOn(false, options, PStr(key));
      && ((forall j :: 0 <= j < |options| ==> options[j].key != key) ==> r == Err(KeyError))
      && (forall i :: 0 <= i < |options| && options[i].key == key &&
                      (forall j :: i < j < |options| ==> options[j].key != key) ==>
            (options[i].fixed ==> r == Err(AtomicCmdBuilderError)) &&
            (!options[i].fixed ==> r == Ok(options[..i] + options[i + 1..])))
  {
    forall i | 0 <= i < |options| && options[i].key == key &&
               (forall j :: i < j < |options| ==> options[j].key != key)
      ensures LastIndex(options, key) == Some(i)
    {
      var found := LastIndex(options, key);
      assert found.Some?;
    }
  }

  /** A singleton record is the only one with its key. */
  lemma {:induction false} SingletonAlone(options: seq<OptionRec>, i: nat)
    requires WellFormed(options) && i < |options| && options[i].singleton
    ensures forall j :: 0 <= j < |options| && j != i ==> options[j].key != options[i].key
  {
    forall j | 0 <= j < |options| && j != i
      ensures options[j].key != options[i].key
    {
    }
  }

  /** Removing one record keeps the option list well formed. */
  lemma {:induction false} WellFormedRemove(options: seq<OptionRec>, i: nat)
    requires WellFormed(options) && i < |options|
    ensures WellFormed(options[..i] + options[i + 1..])
  {
    var rest := options[..i] + options[i + 1..];
    forall a, b | 0 <= a < b < |rest| && rest[a].key == rest[b].key
      ensures !rest[a].singleton && !rest[b].singleton
    {
      var a' := if a < i then a else a + 1;
      var b' := if b < i then b else b + 1;
      assert rest[a] == options[a'] && rest[b] == options[b'];
    }
  }

  /** No record with this key is a singleton. */
  predicate NoSingleton(options: seq<OptionRec>, key: string)
  {
    forall j :: 0 <= j < |options| && options[j].key == key ==> !options[j].singleton
  }

  /** Appending a record keeps the list well formed when its key is new, or
      when neither it nor the records sharing its key are singletons. */
  lemma {:induction false} WellFormedAppend(options: seq<OptionRec>, rec: OptionRec)
    requires WellFormed(options) && rec.key != ""
    requires rec.singleton ==> forall j :: 0 <= j < |options| ==> options[j].key != rec.key
    requires !rec.singleton ==> NoSingleton(options, rec.key)
    ensures WellFormed(options + [rec])
  {
    var next := options + [rec];
    forall a, b | 0 <= a < b < |next| && next[a].key == next[b].key
      ensures !next[a].singleton && !next[b].singleton
    {
      if b == |options| {
        assert next[a] == options[a];
      } else {
        assert next[a] == options[a] && next[b] == options[b];
      }
    }
  }

  /** Replacing the only record with a key by another singleton of that key
      keeps the list well formed. */
  lemma {:induction false} WellFormedReplace(options: seq<OptionRec>, i: nat, rec: OptionRec)
    requires WellFormed(options) && i < |options| && rec.key == options[i].key
    requires forall j :: 0 <= j < |options| && j != i ==> options[j].key != rec.key
    ensures WellFormed(options[i := rec])
  {
    var next := options[i := rec];
    forall a, b | 0 <= a < b < |next| && next[a].key == next[b].key
      ensures !next[a].singleton && !next[b].singleton
    {
      assert a != i && b != i;
      assert next[a] == options[a] && next[b] == options[b];
    }
  }

  /** `set_option` keeps the option list well formed. */
  lemma {:induction false} SetKeepsWellFormed(finalized: bool, options: seq<OptionRec>, key: Value, value: Value, sep: Value, fixed: bool)
    requires WellFormed(options)
    ensures WellFormed(After(SetOptionOn(finalized, options, key, value, sep, fixed), options))
  {
    var s := SetOptionOn(finalized, options, key, value, sep, fixed);
    if s.Ok? {
      var found := GetOptionForEditing(finalized, options, key, Some(true));
      var rec := OptionRec(key.s, value, sep, fixed, true);
      if found.value.Some? {
        var i := found.value.value;
        SingletonAlone(options, i);
        WellFormedReplace(options, i, rec);
      } else {
        WellFormedAppend(options, rec);
      }
    }
  }

  /** `add_option` keeps the option list well formed. */
  lemma {:induction false} AddKeepsWellFormed(finalized: bool, options: seq<OptionRec>, key: Value, value: Value, sep: Value, fixed: bool)
    requires WellFormed(options)
    ensures WellFormed(After(AddOptionOn(finalized, options, key, value, sep, fixed), options))
  {
    var a := AddOptionOn(finalized, options, key, value, sep, fixed);
    if a.Ok? {
      var found := GetOptionForEditing(finalized, options, key, Some(false));
      var rec := OptionRec(key.s, value, sep, fixed, false);
      if found.value.Some? {
        NonSingletonLast(options, found.value.value);
      }
      WellFormedAppend(options, rec);
    }
  }

  /** When the last record with a key is not a singleton, none with that
      key is. */
  lemma {:induction false} NonSingletonLast(options: seq<OptionRec>, i: nat)
    requires WellFormed(options) && i < |options| && !options[i].singleton
    requires forall j :: i < j < |options| ==> options[j].key != options[i].key
    ensures NoSingleton(options, options[i].key)
  {
    forall j | 0 <= j < |options| && options[j].key == options[i].key
      ensures !options[j].singleton
    {
      if j < i {
        assert options[j].key == options[i].key ==> !options[j].singleton;
      }
    }
  }

  /** `pop_option` keeps the option list well formed. */
  lemma {:induction false} PopKeepsWellFormed(finalized: bool, options: seq<OptionRec>, key: Value)
    requires WellFormed(options)
    ensures WellFormed(After(PopOptionOn(finalized, options, key), options))
  {
    var p := PopOptionOn(finalized, options, key);
    if p.Ok? {
      var found := GetOptionForEditing(finalized, options, key, None);
      WellFormedRemove(options, found.value.value);
    }
  }

  // ---------------------------------------------------------------------
  // pop_option as written

  /** Python's `==` on two option dicts: equal keys and flags, and values
      and separators equal as Python compares them. */
  predicate SameRecord(a: OptionRec, b: OptionRec)
  {
    a.key == b.key && PyEq(a.value, b.value) && PyEq(a.sep, b.sep) &&
    a.fixed == b.fixed && a.singleton == b.singleton
  }

  /** `list.remove(x)`: drop the first element equal to `x`. */
  function RemoveFirst(options: seq<OptionRec>, x: OptionRec): (r: seq<OptionRec>)
    ensures |r| == |options| || |r| == |options| - 1
  {
    if |options| == 0 then []
    else if SameRecord(options[0], x) then options[1..]
    else [options[0]] + RemoveFirst(options[1..], x)
  }

  /** What `list.remove` removes: the first element equal to `x`, keeping
      the rest in order. */
  lemma {:induction false} RemoveFirstAt(options: seq<OptionRec>, x: OptionRec, j: nat)
    requires j < |options| && SameRecord(options[j], x)
    requires forall k :: 0 <= k < j ==> !SameRecord(options[k], x)
    ensures RemoveFirst(options, x) == options[..j] + options[j + 1..]
    decreases j
  {
    if j > 0 {
      var tail := options[1..];
      RemoveFirstAt(tail, x, j - 1);
      assert tail[..j - 1] + tail[j..] == options[1..j] + options[j + 1..];
      assert options[..j] == [options[0]] + options[1..j];
    }
  }

  /** `pop_option` as written: it finds the last record with the key but
      then calls `self._options.remove(old_option)`, which drops the first
      record EQUAL to it, possibly an earlier one. */
  function PopOptionAsWritten(finalized: bool, options: seq<OptionRec>, key: Value): Result<seq<OptionRec>>
  {
    var found :- GetOptionForEditing(finalized, options, key, None);
    match found
    case None => Err(KeyError)
    case Some(i) => if options[i].fixed then Err(AtomicCmdBuilderError) else Ok(RemoveFirst(options, options[i]))
  }

  /** The two agree when no earlier record equals the last one with the
      key, as in every unit test of `pop_option`. */
  lemma {:induction false} PopAsWrittenAgrees(options: seq<OptionRec>, key: string)
    requires key != ""
    requires forall i, j :: 0 <= i < j < |options| && options[j].key == key ==> !SameRecord(options[i], options[j])
    ensures PopOptionAsWritten(false, options, PStr(key)) == PopOptionOn(false, options, PStr(key))
  {
    var found := LastIndex(options, key);
    if found.Some? {
      var i := found.value;
      forall k | 0 <= k < i
        ensures !SameRecord(options[k], options[i])
      {
      }
      assert SameRecord(options[i], options[i]);
      RemoveFirstAt(options, options[i], i);
    }
  }

  /** With `-a 1`, `-b`, `-a 1` added non-fixed, popping `-a` as written
      removes the FIRST `-a 1`, where the evidently intended pop removes
      the last one. */
  lemma {:induction false} PopAsWrittenRemovesEarlier()
    ensures var a := OptionRec("-a", PStr("1"), PNone, false, false);
            var b := OptionRec("-b", PNone, PNone, false, false);
      && PopOptionAsWritten(false, [a, b, a], PStr("-a")) == Ok([b, a])
      && PopOptionOn(false, [a, b, a], PStr("-a")) == Ok([a, b])
  {
    var a := OptionRec("-a", PStr("1"), PNone, false, false);
    var b := OptionRec("-b", PNone, PNone, false, false);
    var options := [a, b, a];
    assert LastIndex(options, "-a") == Some(2);
    assert GetOptionForEditing(false, options, PStr("-a"), None) == Ok(Some(2));
    assert SameRecord(a, a);
    RemoveFirstAt(options, a, 0);
    assert options[..0] + options[1..] == [b, a];
    assert options[..2] + options[3..] == [a, b];
  }

  /** That option list is one the builder can reach: `add_option` three
      times, never mixing kinds. */
  lemma {:induction false} PopCounterexampleReachable()
    ensures var a := OptionRec("-a", PStr("1"), PNone, false, false);
            var b := OptionRec("-b", PNone, PNone, false, false);
      && AddOptionOn(false, [], PStr("-a"), PStr("1"), PNone, false) == Ok([a])
      && AddOptionOn(false, [a], PStr("-b"), PNone, PNone, false) == Ok([a, b])
      && AddOptionOn(false, [a, b], PStr("-a"), PStr("1"), PNone, false) == Ok([a, b, a])
      && WellFormed([a, b, a])
  {
    var a := OptionRec("-a", PStr("1"), PNone, false, false);
    var b := OptionRec("-b", PNone, PNone, false, false);
    assert AddOptionOn(false, [], PStr("-a"), PStr("1"), PNone, false) == Ok([a]) by {
      assert GetOptionForEditing(false, [], PStr("-a"), Some(false)) == Ok(None);
      assert [] + [a] == [a];
    }
    assert AddOptionOn(false, [a], PStr("-b"), PNone, PNone, false) == Ok([a, b]) by {
      assert LastIndex([a], "-b") == None;
      assert [a] + [b] == [a, b];
    }
    assert AddOptionOn(false, [a, b], PStr("-a"), PStr("1"), PNone, false) == Ok([a, b, a]) by {
      assert [a, b][..1] == [a];
      assert LastIndex([a, b], "-a") == Some(0);
      assert [a, b] + [a] == [a, b, a];
    }
  }

  /** The two results render differently: `-b -a 1` against `-a 1 -b`. */
  lemma {:induction false} PopAsWrittenRendersDifferently()
    ensures var a := OptionRec("-a", PStr("1"), PNone, false, false);
            var b := OptionRec("-b", PNone, PNone, false, false);
      RenderOptions([b, a]) != RenderOptions([a, b])
  {
    var a := OptionRec("-a", PStr("1"), PNone, false, false);
    var b := OptionRec("-b", PNone, PNone, false, false);
    RenderOptionsFirst([b, a]);
    RenderOptionsFirst([a, b]);
  }

  // ---------------------------------------------------------------------
  // Rendering the call

  /** A token of the rendered call: a value as given, or the single string
      "%s%s%s" % (key, sep, value). */
  datatype Token = Plain(v: Value) | Joined(key: string, sep: Value, value: Value)

  /** How one option renders: just the key without a value, one joined
      token with a separator, or the key then the value. */
  function RenderOption(o: OptionRec): (r: seq<Token>)
    ensures 1 <= |r| <= 2
  {
    if o.value.PNone? then [Plain(PStr(o.key))]
    else if !o.sep.PNone? then [Joined(o.key, o.sep, o.value)]
    else [Plain(PStr(o.key)), Plain(o.value)]
  }

  function RenderOptions(options: seq<OptionRec>): seq<Token>
  {
    if |options| == 0 then []
    else RenderOptions(options[..|options| - 1]) + RenderOption(options[|options| - 1])
  }

  /** The values as tokens, unchanged and in order. */
  function Plains(vs: seq<Value>): (r: seq<Token>)
    ensures |r| == |vs| && forall i :: 0 <= i < |vs| ==> r[i] == Plain(vs[i])
  {
    seq(|vs|, i requires 0 <= i < |vs| => Plain(vs[i]))
  }

  /** The `call` property: base call, options in list order, values. */
  function Render(call: seq<Value>, options: seq<OptionRec>, values: seq<Value>): seq<Token>
  {
    Plains(call) + RenderOptions(options) + Plains(values)
  }

  /** Rendering distributes over concatenation of option lists. */
  lemma {:induction false} RenderOptionsAppend(a: seq<OptionRec>, b: seq<OptionRec>)
    ensures RenderOptions(a + b) == RenderOptions(a) + RenderOptions(b)
    decreases |b|
  {
    if |b| == 0 {
      assert a + b == a;
    } else {
      var n := |b| - 1;
      assert (a + b)[..|a + b| - 1] == a + b[..n];
      RenderOptionsAppend(a, b[..n]);
    }
  }

  /** The rendered call starts with the base call and ends with the
      positional values, each option contributing one or two tokens in
      between. */
  lemma {:induction false} RenderShape(call: seq<Value>, options: seq<OptionRec>, values: seq<Value>)
    ensures var r := Render(call, options, values);
      && |call| + |options| + |values| <= |r| <= |call| + 2 * |options| + |values|
      && r[..|call|] == Plains(call)
      && r[|r| - |values|..] == Plains(values)
    decreases |options|
  {
    if |options| > 0 {
      RenderShape(call, options[..|options| - 1], values);
    }
  }

  /** The first token of a non-empty option list is its first option's
      key (or joined key and value). */
  lemma {:induction false} RenderOptionsFirst(options: seq<OptionRec>)
    requires |options| > 0
    ensures RenderOptions(options)[0] == RenderOption(options[0])[0]
  {
    assert options == [options[0]] + options[1..];
    RenderOptionsAppend([options[0]], options[1..]);
    assert RenderOptions([options[0]]) == RenderOptions([]) + RenderOption(options[0]);
  }

  /** A record appended to the list renders right before the values. */
  lemma {:induction false} RenderAppended(options: seq<OptionRec>, rec: OptionRec)
    ensures RenderOptions(options + [rec]) == RenderOptions(options) + RenderOption(rec)
  {
    assert (options + [rec])[..|options|] == options;
  }

  /** The tokens of the record at `i` sit between those of the records
      before and after it. */
  lemma {:induction false} RenderAround(options: seq<OptionRec>, i: nat)
    requires i < |options|
    ensures RenderOptions(options) ==
            RenderOptions(options[..i]) + RenderOption(options[i]) + RenderOptions(options[i + 1..])
  {
    assert options == (options[..i] + [options[i]]) + options[i + 1..];
    RenderOptionsAppend(options[..i] + [options[i]], options[i + 1..]);
    RenderAppended(options[..i], options[i]);
  }

  /** A record replaced in place renders where the old one did. */
  lemma {:induction false} RenderReplaced(options: seq<OptionRec>, i: nat, rec: OptionRec)
    requires i < |options|
    ensures RenderOptions(options[i := rec]) ==
            RenderOptions(options[..i]) + RenderOption(rec) + RenderOptions(options[i + 1..])
  {
    var updated := options[i := rec];
    RenderAround(updated, i);
    assert updated[..i] == options[..i] && updated[i + 1..] == options[i + 1..];
  }

  /** A removed record's tokens disappear and the others stay in order. */
  lemma {:induction false} RenderRemoved(options: seq<OptionRec>, i: nat)
    requires i < |options|
    ensures RenderOptions(options) ==
            RenderOptions(options[..i]) + RenderOption(options[i]) + RenderOptions(options[i + 1..])
    ensures RenderOptions(options[..i] + options[i + 1..]) ==
            RenderOptions(options[..i]) + RenderOptions(options[i + 1..])
  {
    RenderAround(options, i);
    RenderOptionsAppend(options[..i], options[i + 1..]);
  }

  // ---------------------------------------------------------------------
  // The AtomicCmd a builder produces

  /** The command `finalize` creates; its own validation of the call and
      keyword arguments is not part of this model. */
  class AtomicCmd {
    const call: seq<Token>
    const kwargs: map<string, Value>

    constructor(call: seq<Token>, kwargs: map<string, Value>)
      ensures this.call == call && this.kwargs == kwargs
    {
      this.call := call;
      this.kwargs := kwargs;
    }
  }

  // ---------------------------------------------------------------------
  // The builder

  class CmdBuilder {
    var call: seq<Value>
    var options: seq<OptionRec>
    var values: seq<Value>
    var kwargs: map<string, Value>
    var obj: AtomicCmd?

    ghost predicate Valid()
      reads this
    {
      WellFormed(options)
    }

    /** `AtomicCmdBuilder(call, **kwargs)`: the call is coerced to a
        tuple; `set_kwargs` cannot fail on a fresh builder. */
    constructor(call: Value, kwargs: map<string, Value>)
      ensures this.call == Utilities.SafeCoerceToTuple(call)
      ensures options == [] && values == [] && this.kwargs == kwargs && obj == null
      ensures Valid()
    {
      this.call := Utilities.SafeCoerceToTuple(call);
      options := [];
      values := [];
      this.kwargs := map[];
      obj := null;
      new;
      this.kwargs := this.kwargs + kwargs;
    }

    /** `set_option(key, value, sep, fixed)`. */
    method SetOption(key: Value, value: Value, sep: Value, fixed: bool) returns (r: Outcome)
      requires Valid()
      modifies this
      ensures var s := SetOptionOn(old(obj) != null, old(options), key, value, sep, fixed);
        r == OutcomeOf(s) && options == After(s, old(options))
      ensures call == old(call) && values == old(values) && kwargs == old(kwargs) && obj == old(obj)
      ensures Valid()
    {
      SetKeepsWellFormed(obj != null, options, key, value, sep, fixed);
      var found := GetOptionForEditing(obj != null, options, key, Some(true));
      if found.Err? {
        return Fail(found.error);
      }
      var rec := OptionRec(key.s, value, sep, fixed, true);
      match found.value
      case None =>
        options := options + [rec];
        r := Pass;
      case Some(i) =>
        if options[i].fixed {
          return Fail(AtomicCmdBuilderError);
        }
        options := options[i := rec];
        r := Pass;
    }

    /** `add_option(key, value, sep, fixed)`. */
    method AddOption(key: Value, value: Value, sep: Value, fixed: bool) returns (r: Outcome)
      requires Valid()
      modifies this
      ensures var s := AddOptionOn(old(obj) != null, old(options), key, value, sep, fixed);
        r == OutcomeOf(s) && options == After(s, old(options))
      ensures call == old(call) && values == old(values) && kwargs == old(kwargs) && obj == old(obj)
      ensures Valid()
    {
      AddKeepsWellFormed(obj != null, options, key, value, sep, fixed);
      var found := GetOptionForEditing(obj != null, options, key, Some(false));
      if found.Err? {
        return Fail(found.error);
      }
      options := options + [OptionRec(key.s, value, sep, fixed, false)];
      r := Pass;
    }

    /** `pop_option(key)`, removing the record `_get_option_for_editing`
        found. */
    method PopOption(key: Value) returns (r: Outcome)
      requires Valid()
      modifies this
      ensures var s := PopOptionOn(old(obj) != null, old(options), key);
        r == OutcomeOf(s) && options == After(s, old(options))
      ensures call == old(call) && values == old(values) && kwargs == old(kwargs) && obj == old(obj)
      ensures Valid()
    {
      PopKeepsWellFormed(obj != null, options, key);
      var found := GetOptionForEditing(obj != null, options, key, None);
      if found.Err? {
        return Fail(found.error);
      }
      match found.value
      case None =>
        r := Fail(KeyError);
      case Some(i) =>
        if options[i].fixed {
          return Fail(AtomicCmdBuilderError);
        }
        options := options[..i] + options[i + 1..];
        r := Pass;
    }

    /** `add_value(value)`; the source does not consult the latch here. */
    method AddValue(value: Value)
      modifies this
      ensures values == old(values) + [value]
      ensures call == old(call) && options == old(options) && kwargs == old(kwargs) && obj == old(obj)
    {
      values := values + [value];
    }

    /** `set_kwargs(**kw)`: refused once finalized or when any key is
        already present, and then nothing changes. */
    method SetKwargs(kw: map<string, Value>) returns (r: Outcome)
      modifies this
      ensures r.Pass? <==> old(obj) == null && kw.Keys !! old(kwargs).Keys
      ensures r.Fail? ==> r.error == AtomicCmdBuilderError && kwargs == old(kwargs)
      ensures r.Pass? ==> kwargs == old(kwargs) + kw
      ensures call == old(call) && options == old(options) && values == old(values) && obj == old(obj)
    {
      if obj != null {
        return Fail(AtomicCmdBuilderError);
      }
      if !(kw.Keys !! kwargs.Keys) {
        return Fail(AtomicCmdBuilderError);
      }
      kwargs := kwargs + kw;
      r := Pass;
    }

    /** The `call` property, built as the source builds it. */
    method Call() returns (command: seq<Token>)
      ensures command == Render(call, options, values)
    {
      command := Plains(call);
      var i := 0;
      while i < |options|
        invariant 0 <= i <= |options|
        invariant command == Plains(call) + RenderOptions(options[..i])
      {
        assert options[..i + 1][..i] == options[..i];
        command := command + RenderOption(options[i]);
        i := i + 1;
      }
      assert options[..i] == options;
      command := command + Plains(values);
    }

    /** `finalize()`: the first call creates the AtomicCmd from the current
        call and kwargs; every later call returns that same object. */
    method Finalize() returns (cmd: AtomicCmd)
      modifies this
      ensures old(obj) != null ==> cmd == old(obj)
      ensures old(obj) == null ==> fresh(cmd) && cmd.call == Render(call, options, values) && cmd.kwargs == kwargs
      ensures obj == cmd
      ensures call == old(call) && options == old(options) && values == old(values) && kwargs == old(kwargs)
    {
      if obj == null {
        var command := Call();
        obj := new AtomicCmd(command, kwargs);
      }
      cmd := obj;
    }
  }

  /** `finalize` is a latch: afterwards every option mutator and
      `set_kwargs` raises, and `finalize` hands back the same object. */
  method FinalizeIsLatch(b: CmdBuilder, key: Value, kw: map<string, Value>) returns (first: AtomicCmd, second: AtomicCmd, r1: Outcome, r2: Outcome, r3: Outcome, r4: Outcome)
    requires b.Valid()
    modifies b
    ensures first == second
    ensures r1 == Fail(AtomicCmdBuilderError) && r2 == Fail(AtomicCmdBuilderError)
    ensures r3 == Fail(AtomicCmdBuilderError) && r4 == Fail(AtomicCmdBuilderError)
  {
    first := b.Finalize();
    r1 := b.SetOption(key, PNone, PNone, true);
    r2 := b.AddOption(key, PNone, PNone, true);
    r3 := b.PopOption(key);
    r4 := b.SetKwargs(kw);
    second := b.Finalize();
  }

  // ---------------------------------------------------------------------
  // The Java and MPI builders

  /** The number an int (or bool) stands for. */
  function IntOf(v: Value): int
    requires IsInt(v)
  {
    if v.PBool? then (if v.b then 1 else 0) else v.i
  }

  /** The base call and keyword arguments `AtomicJavaCmdBuilder` passes to
      the plain builder. */
  function JavaBuilderArgs(tempRoot: string, jar: Value, gcThreads: Value, kwargs: map<string, Value>): (r: Result<(seq<Value>, map<string, Value>)>)
    ensures !IsInt(gcThreads) ==> r == Err(TypeError)
    ensures IsInt(gcThreads) && IntOf(gcThreads) < 1 ==> r == Err(ValueError)
    ensures IsInt(gcThreads) && IntOf(gcThreads) >= 1 && "AUX_JAR" in kwargs ==> r == Err(TypeError)
    ensures r.Ok? ==> var call := r.value.0;
      && |call| == 8
      && call[..5] == [PStr("java"), PStr("-server"), PStr("-Xmx4g"),
                       PStr("-Djava.io.tmpdir=" + tempRoot), PStr("-Djava.awt.headless=true")]
      && call[5] == (if IntOf(gcThreads) == 1 then PStr("-XX:+UseSerialGC")
                     else PStr("-XX:ParallelGCThreads=" + PyText.IntToString(IntOf(gcThreads))))
      && call[6..] == [PStr("-jar"), PStr("%(AUX_JAR)s")]
      && r.value.1 == kwargs["AUX_JAR" := jar]
  {
    var base := [PStr("java"), PStr("-server"), PStr("-Xmx4g"),
                 PStr("-Djava.io.tmpdir=" + tempRoot), PStr("-Djava.awt.headless=true")];
    if !IsInt(gcThreads) then Err(TypeError)
    else
      var gc :- if IntOf(gcThreads) > 1 then Ok(PStr("-XX:ParallelGCThreads=" + PyText.IntToString(IntOf(gcThreads))))
                else if IntOf(gcThreads) == 1 then Ok(PStr("-XX:+UseSerialGC"))
                else Err(ValueError);
      // AUX_JAR given twice is a TypeError of the call itself
      if "AUX_JAR" in kwargs then Err(TypeError)
      else Ok((base + [gc, PStr("-jar"), PStr("%(AUX_JAR)s")], kwargs["AUX_JAR" := jar]))
  }

  /** The call and keyword arguments `AtomicMPICmdBuilder` passes to the
      plain builder. */
  function MpiBuilderArgs(call: Value, threads: Value, kwargs: map<string, Value>): (r: Result<(Value, map<string, Value>)>)
    ensures !IsInt(threads) ==> r == Err(TypeError)
    ensures IsInt(threads) && IntOf(threads) < 1 ==> r == Err(ValueError)
    ensures IsInt(threads) && IntOf(threads) == 1 ==> r == Ok((call, kwargs))
    ensures IsInt(threads) && IntOf(threads) > 1 ==>
      var tokens := Utilities.SafeCoerceToTuple(call);
      && (|tokens| == 0 ==> r == Err(IndexError))
      && (|tokens| > 0 && "EXEC_MAIN" in kwargs ==> r == Err(TypeError))
      && (|tokens| > 0 && "EXEC_MAIN" !in kwargs ==>
            r == Ok((PList([PStr("mpirun"), PStr("-n"), threads] + tokens), kwargs["EXEC_MAIN" := tokens[0]])))
  {
    if !IsInt(threads) then Err(TypeError)
    else if IntOf(threads) < 1 then Err(ValueError)
    else if IntOf(threads) == 1 then Ok((call, kwargs))
    else
      var tokens := Utilities.SafeCoerceToTuple(call);
      if |tokens| == 0 then Err(IndexError)
      else if "EXEC_MAIN" in kwargs then Err(TypeError)
      else Ok((PList([PStr("mpirun"), PStr("-n"), threads] + tokens), kwargs["EXEC_MAIN" := tokens[0]]))
  }

  /** `AtomicJavaCmdBuilder(config, jar, gc_threads, **kwargs)`, with
      `config.temp_root` passed as `tempRoot`. */
  method NewJavaBuilder(tempRoot: string, jar: Value, gcThreads: Value, kwargs: map<string, Value>) returns (r: Outcome, b: CmdBuilder?)
    ensures var args := JavaBuilderArgs(tempRoot, jar, gcThreads, kwargs);
      && (r.Fail? <==> args.Err?) && (r.Fail? ==> r.error == args.error)
      && (b != null <==> r.Pass?)
      && (b != null ==> fresh(b) && b.Valid() && b.call == args.value.0 && b.kwargs == args.value.1 &&
                        b.options == [] && b.values == [] && b.obj == null)
  {
    var args := JavaBuilderArgs(tempRoot, jar, gcThreads, kwargs);
    if args.Err? {
      return Fail(args.error), null;
    }
    b := new CmdBuilder(PList(args.value.0), args.value.1);
    r := Pass;
  }

  /** `AtomicMPICmdBuilder(call, threads, **kwargs)`. */
  method NewMpiBuilder(call: Value, threads: Value, kwargs: map<string, Value>) returns (r: Outcome, b: CmdBuilder?)
    ensures var args := MpiBuilderArgs(call, threads, kwargs);
      && (r.Fail? <==> args.Err?) && (r.Fail? ==> r.error == args.error)
      && (b != null <==> r.Pass?)
      && (b != null ==> fresh(b) && b.Valid() && b.call == Utilities.SafeCoerceToTuple(args.value.0) &&
                        b.kwargs == args.value.1 && b.options == [] && b.values == [] && b.obj == null)
  {
    var args := MpiBuilderArgs(call, threads, kwargs);
    if args.Err? {
      return Fail(args.error), null;
    }
    b := new CmdBuilder(args.value.0, args.value.1);
    r := Pass;
  }

  /** With more than one thread, the MPI builder's call renders as
      `mpirun -n <threads>` followed by the original call. */
  lemma {:induction false} MpiCallRenders(call: Value, threads: Value, kwargs: map<string, Value>)
    requires IsInt(threads) && IntOf(threads) > 1
    requires |Utilities.SafeCoerceToTuple(call)| > 0 && "EXEC_MAIN" !in kwargs
    ensures var args := MpiBuilderArgs(call, threads, kwargs);
      && args.Ok?
      && Render(Utilities.SafeCoerceToTuple(args.value.0), [], []) ==
         [Plain(PStr("mpirun")), Plain(PStr("-n")), Plain(threads)] + Plains(Utilities.SafeCoerceToTuple(call))
      && args.value.1["EXEC_MAIN"] == Utilities.SafeCoerceToTuple(call)[0]
  {
    var tokens := Utilities.SafeCoerceToTuple(call);
    var all := [PStr("mpirun"), PStr("-n"), threads] + tokens;
    assert Utilities.SafeCoerceToTuple(PList(all)) == all;
    assert Plains(all) == [Plain(PStr("mpirun")), Plain(PStr("-n")), Plain(threads)] + Plains(tokens);
  }

  // ---------------------------------------------------------------------
  // apply_options

  /** `_ADDABLE_TYPES` without the bools that `_SETABLE_ONLY_TYPES` then
      excludes: the values a list of options may hold. */
  predicate Addable(v: Value)
  {
    v.PInt? || v.PFloat? || v.PStr?
  }

  /** `isinstance(v, _SETABLE_TYPES)`. */
  predicate Setable(v: Value)
  {
    v.PInt? || v.PFloat? || v.PStr? || v.PBool? || v.PNone?
  }

  /** The default `pred`: keys starting with "-". */
  predicate IsDashed(s: string)
  {
    |s| > 0 && s[0] == '-'
  }

  /** How far a call of `apply_options` got: its outcome and the option
      list it left behind (earlier edits stay when a later one raises). */
  datatype Applied = Applied(outcome: Outcome, options: seq<OptionRec>)

  /** The inner loop over a list of values: `add_option(key, v)` for each,
      stopping at the first value of the wrong type or the first raise. */
  function AddAll(finalized: bool, options: seq<OptionRec>, key: Value, vals: seq<Value>): Applied
    decreases |vals|
  {
    if |vals| == 0 then Applied(Pass, options)
    else if !Addable(vals[0]) then Applied(Fail(TypeError), options)
    else
      match AddOptionOn(finalized, options, key, vals[0], PNone, true)
      case Err(e) => Applied(Fail(e), options)
      case Ok(next) => AddAll(finalized, next, key, vals[1..])
  }

  /** One (key, values) item of `apply_options`. */
  function ApplyOne(finalized: bool, options: seq<OptionRec>, key: Value, values: Value, pred: string -> bool): Applied
  {
    if !key.PStr? then Applied(Fail(TypeError), options)
    else if !pred(key.s) then Applied(Pass, options)
    else if values.PList? || values.PTuple? then AddAll(finalized, options, key, values.items)
    else if !Setable(values) then Applied(Fail(TypeError), options)
    else
      var r := if values == PBool(true) || values.PNone? then SetOptionOn(finalized, options, key, PNone, PNone, true)
               else if values.PBool? then PopOptionOn(finalized, options, key)
               else SetOptionOn(finalized, options, key, values, PNone, true);
      Applied(OutcomeOf(r), After(r, options))
  }

  /** All items, in the dictionary's iteration order, stopping at the first
      raise. */
  function ApplyAll(finalized: bool, options: seq<OptionRec>, items: seq<(Value, Value)>, pred: string -> bool): Applied
    decreases |items|
  {
    if |items| == 0 then Applied(Pass, options)
    else
      var a := ApplyOne(finalized, options, items[0].0, items[0].1, pred);
      if a.outcome.Fail? then a else ApplyAll(finalized, a.options, items[1..], pred)
  }

  /** The records a list of addable values appends, one per value. */
  function AddedRecords(key: string, vals: seq<Value>): (r: seq<OptionRec>)
    ensures |r| == |vals|
    ensures forall i :: 0 <= i < |vals| ==> r[i] == OptionRec(key, vals[i], PNone, true, false)
  {
    if |vals| == 0 then [] else [OptionRec(key, vals[0], PNone, true, false)] + AddedRecords(key, vals[1..])
  }

  /** One `add_option(key, v)` on a key without singletons appends and
      leaves the key without singletons. */
  lemma {:induction false} AddOneAppends(options: seq<OptionRec>, key: string, v: Value)
    requires key != "" && NoSingleton(options, key)
    ensures var rec := OptionRec(key, v, PNone, true, false);
      AddOptionOn(false, options, PStr(key), v, PNone, true) == Ok(options + [rec]) &&
      NoSingleton(options + [rec], key)
  {
    var rec := OptionRec(key, v, PNone, true, false);
    var found := LastIndex(options, key);
    assert found.Some? ==> !options[found.value].singleton;
    forall j | 0 <= j < |options + [rec]| && (options + [rec])[j].key == key
      ensures !(options + [rec])[j].singleton
    {
      if j < |options| {
        assert (options + [rec])[j] == options[j];
      }
    }
  }

  /** A list of addable values under a key that was never set with
      `set_option` appends one fixed non-singleton record per value, in
      order. */
  lemma {:induction false} AddAllAppends(options: seq<OptionRec>, key: string, vals: seq<Value>)
    requires key != ""
    requires forall i :: 0 <= i < |vals| ==> Addable(vals[i])
    requires NoSingleton(options, key)
    ensures AddAll(false, options, PStr(key), vals) == Applied(Pass, options + AddedRecords(key, vals))
    decreases |vals|
  {
    if |vals| > 0 {
      var rec := OptionRec(key, vals[0], PNone, true, false);
      AddOneAppends(options, key, vals[0]);
      AddAllAppends(options + [rec], key, vals[1..]);
      assert (options + [rec]) + AddedRecords(key, vals[1..]) == options + ([rec] + AddedRecords(key, vals[1..]));
    }
  }

  /** A list holding a value that is not addable (a bool, None, a nested
      list...) raises TypeError, after the values before it were added. */
  lemma {:induction false} AddAllRejects(options: seq<OptionRec>, key: string, vals: seq<Value>, k: nat)
    requires key != ""
    requires k < |vals| && !Addable(vals[k]) && forall i :: 0 <= i < k ==> Addable(vals[i])
    requires NoSingleton(options, key)
    ensures AddAll(false, options, PStr(key), vals) == Applied(Fail(TypeError), options + AddedRecords(key, vals[..k]))
    decreases k
  {
    if k == 0 {
      assert vals[..0] == [];
    } else {
      var rec := OptionRec(key, vals[0], PNone, true, false);
      AddOneAppends(options, key, vals[0]);
      AddAllRejects(options + [rec], key, vals[1..], k - 1);
      assert vals[..k][1..] == vals[1..][..k - 1];
      assert (options + [rec]) + AddedRecords(key, vals[1..][..k - 1]) == options + ([rec] + AddedRecords(key, vals[1..][..k - 1]));
    }
  }

  /** The scalar rules of `apply_options` for a key `pred` accepts: True
      and None set the bare option, False pops it, another scalar sets it
      with that value, and anything else raises TypeError; a key `pred`
      refuses is skipped. */
  lemma {:induction false} ApplyOneScalars(options: seq<OptionRec>, key: string, values: Value, pred: string -> bool)
    ensures !pred(key) ==> ApplyOne(false, options, PStr(key), values, pred) == Applied(Pass, options)
    ensures pred(key) && (values == PBool(true) || values == PNone) ==>
      var s := SetOptionOn(false, options, PStr(key), PNone, PNone, true);
      ApplyOne(false, options, PStr(key), values, pred) == Applied(OutcomeOf(s), After(s, options))
    ensures pred(key) && values == PBool(false) ==>
      var p := PopOptionOn(false, options, PStr(key));
      ApplyOne(false, options, PStr(key), values, pred) == Applied(OutcomeOf(p), After(p, options))
    ensures pred(key) && (values.PInt? || values.PFloat? || values.PStr?) ==>
      var s := SetOptionOn(false, options, PStr(key), values, PNone, true);
      ApplyOne(false, options, PStr(key), values, pred) == Applied(OutcomeOf(s), After(s, options))
    ensures pred(key) && (values.PDict? || values.PObject?) ==>
      ApplyOne(false, options, PStr(key), values, pred) == Applied(Fail(TypeError), options)
  {
  }

  /** The list of options stays well formed whatever `apply_options` does. */
  lemma {:induction false} ApplyAllKeepsWellFormed(finalized: bool, options: seq<OptionRec>, items: seq<(Value, Value)>, pred: string -> bool)
    requires WellFormed(options)
    ensures WellFormed(ApplyAll(finalized, options, items, pred).options)
    decreases |items|
  {
    if |items| > 0 {
      ApplyOneKeepsWellFormed(finalized, options, items[0].0, items[0].1, pred);
      var a := ApplyOne(finalized, options, items[0].0, items[0].1, pred);
      if a.outcome.Pass? {
        ApplyAllKeepsWellFormed(finalized, a.options, items[1..], pred);
      }
    }
  }

  lemma {:induction false} ApplyOneKeepsWellFormed(finalized: bool, options: seq<OptionRec>, key: Value, values: Value, pred: string -> bool)
    requires WellFormed(options)
    ensures WellFormed(ApplyOne(finalized, options, key, values, pred).options)
  {
    if key.PStr? && pred(key.s) {
      if values.PList? || values.PTuple? {
        AddAllKeepsWellFormed(finalized, options, key, values.items);
      } else {
        SetKeepsWellFormed(finalized, options, key, values, PNone, true);
        SetKeepsWellFormed(finalized, options, key, PNone, PNone, true);
        PopKeepsWellFormed(finalized, options, key);
      }
    }
  }

  lemma {:induction false} AddAllKeepsWellFormed(finalized: bool, options: seq<OptionRec>, key: Value, vals: seq<Value>)
    requires WellFormed(options)
    ensures WellFormed(AddAll(finalized, options, key, vals).options)
    decreases |vals|
  {
    if |vals| > 0 && Addable(vals[0]) {
      AddKeepsWellFormed(finalized, options, key, vals[0], PNone, true);
      var r := AddOptionOn(finalized, options, key, vals[0], PNone, true);
      if r.Ok? {
        AddAllKeepsWellFormed(finalized, r.value, key, vals[1..]);
      }
    }
  }

  /** The inner loop of `apply_options` over a list of values. */
  method AddEach(builder: CmdBuilder, key: Value, vals: seq<Value>) returns (r: Outcome)
    requires builder.Valid()
    modifies builder
    ensures var a := AddAll(old(builder.obj) != null, old(builder.options), key, vals);
      r == a.outcome && builder.options == a.options
    ensures builder.obj == old(builder.obj) && builder.Valid()
    ensures builder.call == old(builder.call) && builder.values == old(builder.values) && builder.kwargs == old(builder.kwargs)
  {
    var i := 0;
    while i < |vals|
      invariant 0 <= i <= |vals|
      invariant builder.Valid() && builder.obj == old(builder.obj)
      invariant builder.call == old(builder.call) && builder.values == old(builder.values) && builder.kwargs == old(builder.kwargs)
      invariant AddAll(old(builder.obj) != null, old(builder.options), key, vals) ==
                AddAll(builder.obj != null, builder.options, key, vals[i..])
    {
      assert vals[i..][1..] == vals[i + 1..];
      if !Addable(vals[i]) {
        return Fail(TypeError);
      }
      r := builder.AddOption(key, vals[i], PNone, true);
      if r.Fail? {
        return;
      }
      i := i + 1;
    }
    r := Pass;
  }

  /** One (key, values) item of `apply_options`. */
  method ApplyItem(builder: CmdBuilder, key: Value, values: Value, pred: string -> bool) returns (r: Outcome)
    requires builder.Valid()
    modifies builder
    ensures var a := ApplyOne(old(builder.obj) != null, old(builder.options), key, values, pred);
      r == a.outcome && builder.options == a.options
    ensures builder.obj == old(builder.obj) && builder.Valid()
    ensures builder.call == old(builder.call) && builder.values == old(builder.values) && builder.kwargs == old(builder.kwargs)
  {
    if !key.PStr? {
      return Fail(TypeError);
    }
    if !pred(key.s) {
      return Pass;
    }
    if values.PList? || values.PTuple? {
      r := AddEach(builder, key, values.items);
    } else if !Setable(values) {
      r := Fail(TypeError);
    } else if values.PBool? || values.PNone? {
      if values == PBool(true) || values.PNone? {
        r := builder.SetOption(key, PNone, PNone, true);
      } else {
        r := builder.PopOption(key);
      }
    } else {
      r := builder.SetOption(key, values, PNone, true);
    }
  }

  /** `apply_options(builder, options, pred)`, with the dictionary given as
      its items in iteration order. */
  method ApplyOptions(builder: CmdBuilder, items: seq<(Value, Value)>, pred: string -> bool) returns (r: Outcome)
    requires builder.Valid()
    modifies builder
    ensures var a := ApplyAll(old(builder.obj) != null, old(builder.options), items, pred);
      r == a.outcome && builder.options == a.options
    ensures builder.obj == old(builder.obj) && builder.Valid()
    ensures builder.call == old(builder.call) && builder.values == old(builder.values) && builder.kwargs == old(builder.kwargs)
  {
    var i := 0;
    while i < |items|
      invariant 0 <= i <= |items|
      invariant builder.Valid() && builder.obj == old(builder.obj)
      invariant builder.call == old(builder.call) && builder.values == old(builder.values) && builder.kwargs == old(builder.kwargs)
      invariant ApplyAll(old(builder.obj) != null, old(builder.options), items, pred) ==
                ApplyAll(builder.obj != null, builder.options, items[i..], pred)
    {
      assert items[i..][1..] == items[i + 1..];
      r := ApplyItem(builder, items[i].0, items[i].1, pred);
      if r.Fail? {
        return;
      }
      i := i + 1;
    }
    r := Pass;
  }
}
