// Makefile handling of pypeline/common/makefile.py: merging a makefile over
// its defaults, the validator combinators, and checking a makefile against a
// reference structure. Makefiles are modelled as values; the in-place update
// of the defaults dictionary is the returned value.
module Makefile {
  import opened PyErrors
  import opened PyValues
  import opened PyCompare
  import opened PyText
  import Utilities

  // ---------------------------------------------------------------------
  // apply_defaults

  /** `apply_defaults(current, defaults, path)`: both must be dicts; each
      key of `current` overwrites `defaults`, except that two dicts under the
      same key are merged recursively. */
  function ApplyDefaults(current: Value, defaults: Value): (r: Result<Value>)
    ensures r.Ok? <==> current.PDict? && defaults.PDict?
    ensures r.Err? ==> r.error == MakefileError
    ensures r.Ok? ==> r.value.PDict? && r.value.entries.Keys == current.entries.Keys + defaults.entries.Keys
    decreases current
  {
    if !current.PDict? || !defaults.PDict? then Err(MakefileError)
    else Ok(PDict(Merge(current, defaults)))
  }

  function Merge(current: Value, defaults: Value): (m: map<string, Value>)
    requires current.PDict? && defaults.PDict?
    ensures m.Keys == current.entries.Keys + defaults.entries.Keys
    ensures forall k :: k in defaults.entries && k !in current.entries ==> m[k] == defaults.entries[k]
    ensures forall k :: k in current.entries && !(current.entries[k].PDict? && k in defaults.entries && defaults.entries[k].PDict?)
              ==> m[k] == current.entries[k]
    decreases current, 0
  {
    var cur := current.entries;
    var def := defaults.entries;
    map k | k in cur.Keys + def.Keys ::
      if k in cur then
        if cur[k].PDict? && k in def && def[k].PDict? then PDict(Merge(cur[k], def[k])) else cur[k]
      else def[k]
  }

  /** Where both sides hold a dict, the merged value is their merge. */
  lemma MergeNested(current: Value, defaults: Value, k: string)
    requires current.PDict? && defaults.PDict?
    requires k in current.entries && k in defaults.entries
    requires current.entries[k].PDict? && defaults.entries[k].PDict?
    ensures Merge(current, defaults)[k] == ApplyDefaults(current.entries[k], defaults.entries[k]).value
  {
  }

  /** Merging a dict over itself changes nothing. */
  lemma {:induction false} MergeSelf(current: Value)
    requires current.PDict?
    ensures Merge(current, current) == current.entries
    decreases current
  {
    var m := Merge(current, current);
    forall k | k in m.Keys
      ensures m[k] == current.entries[k]
    {
      if current.entries[k].PDict? {
        MergeSelf(current.entries[k]);
      }
    }
  }

  /** Applying the same makefile twice gives what applying it once gave. */
  lemma {:induction false} ApplyDefaultsIdempotent(current: Value, defaults: Value)
    requires current.PDict? && defaults.PDict?
    ensures ApplyDefaults(current, ApplyDefaults(current, defaults).value) == ApplyDefaults(current, defaults)
    decreases current
  {
    var once := ApplyDefaults(current, defaults).value;
    var twice := Merge(current, once);
    var m := Merge(current, defaults);
    forall k | k in twice.Keys
      ensures twice[k] == m[k]
    {
      var cur := current.entries;
      if k in cur && cur[k].PDict? {
        if k in defaults.entries && defaults.entries[k].PDict? {
          ApplyDefaultsIdempotent(cur[k], defaults.entries[k]);
          assert m[k] == PDict(Merge(cur[k], defaults.entries[k]));
          assert twice[k] == PDict(Merge(cur[k], m[k]));
        } else {
          MergeSelf(cur[k]);
          assert m[k] == cur[k];
          assert twice[k] == PDict(Merge(cur[k], cur[k]));
        }
      }
    }
    assert twice == m;
  }

  /** Defaults that are empty give back the makefile itself. */
  lemma ApplyDefaultsToEmpty(current: Value)
    requires current.PDict?
    ensures ApplyDefaults(current, PDict(map[])) == Ok(current)
  {
    assert Merge(current, PDict(map[])) == current.entries;
  }

  // ---------------------------------------------------------------------
  // Validators

  /** The validator combinators and checks. `Custom` stands for a
      validating function written elsewhere, given by what it accepts. */
  datatype Validator =
    | And(funcs: seq<Validator>)
    | Or(funcs: seq<Validator>)
    | OneOf(args: seq<Value>, caseSensitive: bool)
    | AnyOf(args: seq<Value>, caseSensitive: bool, minItems: int, maxItems: int)
    | IsListOf(funcs: seq<Validator>)
    | IsDictOf(keyFunc: Validator, valueFunc: Validator)
    | IsInt
    | IsUnsignedInt
    | IsFloat
    | IsInRange(minValue: real, maxValue: real)
    | IsBoolean
    | IsStr
    | IsStrUppercase
    | IsStrWithPrefix(prefix: string)
    | IsNone
    | Custom(accepts: Value -> bool)

  /** `Or(*funcs)`: refuses an empty list (ValueError). */
  function MakeOr(funcs: seq<Validator>): (r: Result<Validator>)
    ensures r.Err? <==> |funcs| == 0
    ensures r.Err? ==> r.error == ValueError
    ensures r.Ok? ==> r.value == Or(funcs)
  {
    if |funcs| == 0 then Err(ValueError) else Ok(Or(funcs))
  }

  /** `IsListOf(*funcs)` builds `Or(*funcs)` at once, so it refuses an empty
      list too. */
  function MakeIsListOf(funcs: seq<Validator>): (r: Result<Validator>)
    ensures r.Err? <==> |funcs| == 0
    ensures r.Ok? ==> r.value == IsListOf(funcs)
  {
    var _ :- MakeOr(funcs);
    Ok(IsListOf(funcs))
  }

  /** `IsInRange(min, max)` asserts `min < max`. */
  function MakeIsInRange(minValue: real, maxValue: real): (r: Result<Validator>)
    ensures r.Err? <==> !(minValue < maxValue)
    ensures r.Err? ==> r.error == AssertionError
    ensures r.Ok? ==> r.value == IsInRange(minValue, maxValue)
  {
    if minValue < maxValue then Ok(IsInRange(minValue, maxValue)) else Err(AssertionError)
  }

  /** `OneOf(*args, **kwargs)` asserts that `case_sensitive`, when given,
      is the only keyword; it is truthy by default. */
  function MakeOneOf(args: seq<Value>, kwargs: map<string, Value>): (r: Result<Validator>)
    ensures r.Err? <==> "case_sensitive" in kwargs && |kwargs| != 1
    ensures r.Err? ==> r.error == AssertionError
    ensures r.Ok? ==> r.value == OneOf(args, "case_sensitive" !in kwargs || Truthy(kwargs["case_sensitive"]))
  {
    if "case_sensitive" in kwargs && |kwargs| != 1 then Err(AssertionError)
    else Ok(OneOf(args, "case_sensitive" !in kwargs || Truthy(kwargs["case_sensitive"])))
  }

  /** The keyword check of `OneOf` as written lets any set of keywords
      without `case_sensitive` through, though it means to allow no keyword
      but `case_sensitive`. */
  lemma OneOfKeywordCheckAsWritten(args: seq<Value>)
    ensures MakeOneOf(args, map["min_items" := PInt(1)]).Ok?
  {
  }

  /** `OneOf` with the keyword check it evidently intends. */
  function MakeOneOfStrict(args: seq<Value>, kwargs: map<string, Value>): (r: Result<Validator>)
    ensures r.Err? <==> exists k :: k in kwargs && k != "case_sensitive"
    ensures r.Err? ==> r.error == AssertionError
    ensures r.Ok? ==> r.value == OneOf(args, "case_sensitive" !in kwargs || Truthy(kwargs["case_sensitive"]))
  {
    if exists k :: k in kwargs && k != "case_sensitive" then Err(AssertionError)
    else Ok(OneOf(args, "case_sensitive" !in kwargs || Truthy(kwargs["case_sensitive"])))
  }

  /** The two checks agree whenever `case_sensitive` is given. */
  lemma OneOfStrictAgrees(args: seq<Value>, kwargs: map<string, Value>)
    requires "case_sensitive" in kwargs
    ensures MakeOneOfStrict(args, kwargs) == MakeOneOf(args, kwargs)
  {
    if |kwargs| == 1 {
      assert |kwargs.Keys - {"case_sensitive"}| == 0;
      assert kwargs.Keys - {"case_sensitive"} == {};
      assert forall k :: k in kwargs ==> k in kwargs.Keys - {"case_sensitive"} || k == "case_sensitive";
    } else {
      assert |kwargs.Keys| != 1;
      assert kwargs.Keys != {"case_sensitive"};
      var k :| k in kwargs.Keys && k != "case_sensitive";
    }
  }

  /** `IsStrWithPrefix(prefix)` asserts a non-empty prefix. */
  function MakeIsStrWithPrefix(prefix: string): (r: Result<Validator>)
    ensures r.Err? <==> prefix == []
    ensures r.Ok? ==> r.value == IsStrWithPrefix(prefix)
  {
    if prefix == [] then Err(AssertionError) else Ok(IsStrWithPrefix(prefix))
  }

  /** `AnyOf(*args, **kwargs)`: only case_sensitive, min_items and max_items
      are accepted (RuntimeError otherwise); the bounds are cast with `int`,
      the lower first, and default to 0 and the number of arguments. */
  function MakeAnyOf(args: seq<Value>, kwargs: map<string, Value>): (r: Result<Validator>)
    ensures (exists k :: k in kwargs && k !in {"case_sensitive", "min_items", "max_items"}) <==> r == Err(RuntimeError)
    ensures r.Ok? ==> r.value.AnyOf? && r.value == AnyOf(args, "case_sensitive" !in kwargs || Truthy(kwargs["case_sensitive"]),
                                                         r.value.minItems, r.value.maxItems)
    ensures r.Ok? && "min_items" in kwargs ==> Utilities.IntOf(kwargs["min_items"]) == Ok(r.value.minItems)
    ensures r.Ok? && "min_items" !in kwargs ==> r.value.minItems == 0
    ensures r.Ok? && "max_items" in kwargs ==> Utilities.IntOf(kwargs["max_items"]) == Ok(r.value.maxItems)
    ensures r.Ok? && "max_items" !in kwargs ==> r.value.maxItems == |args|
    ensures r.Err? && r.error != RuntimeError ==>
      ("min_items" in kwargs && Utilities.IntOf(kwargs["min_items"]) == Err(r.error)) ||
      ("max_items" in kwargs && Utilities.IntOf(kwargs["max_items"]) == Err(r.error) &&
       ("min_items" in kwargs ==> Utilities.IntOf(kwargs["min_items"]).Ok?))
    ensures r.Err? ==> r.error in {RuntimeError, ValueError, TypeError}
  {
    if exists k :: k in kwargs && k !in {"case_sensitive", "min_items", "max_items"} then Err(RuntimeError)
    else
      var caseSensitive := "case_sensitive" !in kwargs || Truthy(kwargs["case_sensitive"]);
      var lo := if "min_items" in kwargs then Utilities.IntOf(kwargs["min_items"]) else Ok(0);
      if lo.Err? then Err(lo.error)
      else
        var hi := if "max_items" in kwargs then Utilities.IntOf(kwargs["max_items"]) else Ok(|args|);
        if hi.Err? then Err(hi.error)
        else Ok(AnyOf(args, caseSensitive, lo.value, hi.value))
  }

  /** `_safe_coerce_to_lowercase`. */
  function LowerValue(v: Value): Value
  {
    if v.PStr? then PStr(Lower(v.s)) else v
  }

  function LowerAll(vs: seq<Value>): (r: seq<Value>)
    ensures |r| == |vs| && forall i :: 0 <= i < |vs| ==> r[i] == LowerValue(vs[i])
  {
    if |vs| == 0 then [] else [LowerValue(vs[0])] + LowerAll(vs[1..])
  }

  /** `str.isupper()`: some cased character, and no lower-case one. */
  predicate IsUpperString(s: string)
  {
    (exists i :: 0 <= i < |s| && IsUpperAscii(s[i])) && forall i :: 0 <= i < |s| ==> !IsLowerAscii(s[i])
  }

  /** The membership test of OneOf/AnyOf, after lower-casing both sides when
      the check is case-insensitive. */
  predicate Allowed(args: seq<Value>, caseSensitive: bool, v: Value)
  {
    if caseSensitive then PyIn(v, args) else PyIn(LowerValue(v), LowerAll(args))
  }

  /** Calling a validator on a value: it returns, or raises MakefileError.
      `And` and `IsDictOf` stop at the first failure, `Or` at the first
      success; a dict is walked in sorted key order. */
  function Run(f: Validator, value: Value): Outcome
    decreases f, 2
  {
    match f
    case And(funcs) => RunAll(f, funcs, value)
    case Or(funcs) => RunAny(f, funcs, value)
    case OneOf(args, cs) => if Allowed(args, cs, value) then Pass else Fail(MakefileError)
    case AnyOf(args, cs, lo, hi) =>
      var values := Utilities.SafeCoerceToTuple(value);
      if !AllAllowed(args, cs, values) then Fail(MakefileError)
      else if !(lo <= |values| <= hi) then Fail(MakefileError)
      else Pass
    case IsListOf(funcs) =>
      if !value.PList? then Fail(MakefileError) else RunItems(f, funcs, value.items)
    case IsDictOf(kf, vf) =>
      if !value.PDict? then Fail(MakefileError)
      else RunEntries(f, value.entries, SortedSet(value.entries.Keys))
    case IsInt => if value.PInt? then Pass else Fail(MakefileError)
    case IsUnsignedInt => if value.PInt? && value.i >= 0 then Pass else Fail(MakefileError)
    case IsFloat => if value.PFloat? then Pass else Fail(MakefileError)
    case IsInRange(lo, hi) =>
      var n := NumericValue(value);
      if n.Some? && lo <= n.value < hi then Pass else Fail(MakefileError)
    case IsBoolean => if value.PBool? then Pass else Fail(MakefileError)
    case IsStr => if value.PStr? then Pass else Fail(MakefileError)
    case IsStrUppercase => if value.PStr? && IsUpperString(value.s) then Pass else Fail(MakefileError)
    case IsStrWithPrefix(p) => if value.PStr? && p <= value.s then Pass else Fail(MakefileError)
    case IsNone => if value.PNone? then Pass else Fail(MakefileError)
    case Custom(accepts) => if accepts(value) then Pass else Fail(MakefileError)
  }

  predicate AllAllowed(args: seq<Value>, cs: bool, values: seq<Value>)
  {
    forall j :: 0 <= j < |values| ==> Allowed(args, cs, values[j])
  }

  function RunAll(parent: Validator, funcs: seq<Validator>, value: Value): Outcome
    requires forall g :: g in funcs ==> g < parent
    decreases parent, 0, |funcs|
  {
    if |funcs| == 0 then Pass
    else
      assert funcs[0] in funcs && forall g :: g in funcs[1..] ==> g in funcs;
      var first := Run(funcs[0], value);
      if first.Fail? then first else RunAll(parent, funcs[1..], value)
  }

  function RunAny(parent: Validator, funcs: seq<Validator>, value: Value): Outcome
    requires forall g :: g in funcs ==> g < parent
    decreases parent, 0, |funcs|
  {
    if |funcs| == 0 then Fail(MakefileError)
    else
      assert funcs[0] in funcs && forall g :: g in funcs[1..] ==> g in funcs;
      if Run(funcs[0], value).Pass? then Pass else RunAny(parent, funcs[1..], value)
  }

  function RunItems(parent: Validator, funcs: seq<Validator>, items: seq<Value>): Outcome
    requires forall g :: g in funcs ==> g < parent
    decreases parent, 1, |items|
  {
    if |items| == 0 then Pass
    else if RunAny(parent, funcs, items[0]).Fail? then Fail(MakefileError)
    else RunItems(parent, funcs, items[1..])
  }

  function RunEntries(parent: Validator, entries: map<string, Value>, keys: seq<string>): Outcome
    requires parent.IsDictOf?
    decreases parent, 0, |keys|
  {
    if |keys| == 0 then Pass
    else if keys[0] !in entries then RunEntries(parent, entries, keys[1..])
    else if Run(parent.keyFunc, PStr(keys[0])).Fail? then Fail(MakefileError)
    else if Run(parent.valueFunc, entries[keys[0]]).Fail? then Fail(MakefileError)
    else RunEntries(parent, entries, keys[1..])
  }

  /** What each validator accepts. */
  predicate Accepts(f: Validator, value: Value)
    decreases f
  {
    match f
    case And(funcs) => forall i :: 0 <= i < |funcs| ==> Accepts(funcs[i], value)
    case Or(funcs) => exists i :: 0 <= i < |funcs| && Accepts(funcs[i], value)
    case OneOf(args, cs) => Allowed(args, cs, value)
    case AnyOf(args, cs, lo, hi) =>
      var values := Utilities.SafeCoerceToTuple(value);
      (forall j :: 0 <= j < |values| ==> Allowed(args, cs, values[j])) && lo <= |values| <= hi
    case IsListOf(funcs) =>
      value.PList? && forall j :: 0 <= j < |value.items| ==>
        exists i :: 0 <= i < |funcs| && Accepts(funcs[i], value.items[j])
    case IsDictOf(kf, vf) =>
      value.PDict? && forall k :: k in value.entries ==> Accepts(kf, PStr(k)) && Accepts(vf, value.entries[k])
    case IsInt => value.PInt?
    case IsUnsignedInt => value.PInt? && value.i >= 0
    case IsFloat => value.PFloat?
    case IsInRange(lo, hi) => NumericValue(value).Some? && lo <= NumericValue(value).value < hi
    case IsBoolean => value.PBool?
    case IsStr => value.PStr?
    case IsStrUppercase => value.PStr? && IsUpperString(value.s)
    case IsStrWithPrefix(p) => value.PStr? && p <= value.s
    case IsNone => value.PNone?
    case Custom(accepts) => accepts(value)
  }

  /** A validator passes exactly the values it accepts, and raises nothing
      but MakefileError. */
  lemma {:induction false} RunMeansAccepts(f: Validator, value: Value)
    ensures Run(f, value).Pass? <==> Accepts(f, value)
    ensures Run(f, value).Fail? ==> Run(f, value).error == MakefileError
    decreases f, 2
  {
    match f
    case And(funcs) => RunAllMeansAll(f, funcs, value);
    case Or(funcs) => RunAnyMeansSome(f, funcs, value);
    case IsListOf(funcs) =>
      if value.PList? { RunItemsMeansAll(f, funcs, value.items); }
    case IsDictOf(_, _) => RunDictMeansAccepts(f, value);
    case _ => RunLeafMeansAccepts(f, value);
  }

  lemma {:induction false} RunDictMeansAccepts(f: Validator, value: Value)
    requires f.IsDictOf?
    ensures Run(f, value).Pass? <==> Accepts(f, value)
    ensures Run(f, value).Fail? ==> Run(f, value).error == MakefileError
    decreases f, 1
  {
    if value.PDict? {
      var keys := SortedSet(value.entries.Keys);
      RunEntriesMeansAll(f, value.entries, keys);
    }
  }

  lemma RunLeafMeansAccepts(f: Validator, value: Value)
    requires !f.And? && !f.Or? && !f.IsListOf? && !f.IsDictOf?
    ensures Run(f, value).Pass? <==> Accepts(f, value)
    ensures Run(f, value).Fail? ==> Run(f, value).error == MakefileError
  {
  }

  lemma {:induction false} RunAllMeansAll(parent: Validator, funcs: seq<Validator>, value: Value)
    requires forall g :: g in funcs ==> g < parent
    ensures RunAll(parent, funcs, value).Pass? <==> forall i :: 0 <= i < |funcs| ==> Accepts(funcs[i], value)
    ensures RunAll(parent, funcs, value).Fail? ==> RunAll(parent, funcs, value).error == MakefileError
    decreases parent, 0, |funcs|
  {
    if |funcs| > 0 {
      assert funcs[0] in funcs && forall g :: g in funcs[1..] ==> g in funcs;
      RunMeansAccepts(funcs[0], value);
      RunAllMeansAll(parent, funcs[1..], value);
      assert forall i :: 1 <= i < |funcs| ==> funcs[i] == funcs[1..][i - 1];
    }
  }

  lemma {:induction false} RunAnyMeansSome(parent: Validator, funcs: seq<Validator>, value: Value)
    requires forall g :: g in funcs ==> g < parent
    ensures RunAny(parent, funcs, value).Pass? <==> exists i :: 0 <= i < |funcs| && Accepts(funcs[i], value)
    ensures RunAny(parent, funcs, value).Fail? ==> RunAny(parent, funcs, value).error == MakefileError
    decreases parent, 0, |funcs|
  {
    if |funcs| > 0 {
      assert funcs[0] in funcs && forall g :: g in funcs[1..] ==> g in funcs;
      RunMeansAccepts(funcs[0], value);
      RunAnyMeansSome(parent, funcs[1..], value);
      assert forall i :: 1 <= i < |funcs| ==> funcs[i] == funcs[1..][i - 1];
      if RunAny(parent, funcs[1..], value).Pass? {
        var i :| 0 <= i < |funcs[1..]| && Accepts(funcs[1..][i], value);
        assert Accepts(funcs[i + 1], value);
      }
    }
  }

  lemma {:induction false} RunItemsMeansAll(parent: Validator, funcs: seq<Validator>, items: seq<Value>)
    requires forall g :: g in funcs ==> g < parent
    ensures RunItems(parent, funcs, items).Pass? <==>
      forall j :: 0 <= j < |items| ==> exists i :: 0 <= i < |funcs| && Accepts(funcs[i], items[j])
    ensures RunItems(parent, funcs, items).Fail? ==> RunItems(parent, funcs, items).error == MakefileError
    decreases parent, 1, |items|
  {
    if |items| > 0 {
      RunAnyMeansSome(parent, funcs, items[0]);
      RunItemsMeansAll(parent, funcs, items[1..]);
      assert forall j :: 1 <= j < |items| ==> items[j] == items[1..][j - 1];
    }
  }

  lemma {:induction false} RunEntriesMeansAll(parent: Validator, entries: map<string, Value>, keys: seq<string>)
    requires parent.IsDictOf?
    ensures RunEntries(parent, entries, keys).Pass? <==>
      forall k :: k in entries && k in keys ==>
        Accepts(parent.keyFunc, PStr(k)) && Accepts(parent.valueFunc, entries[k])
    ensures RunEntries(parent, entries, keys).Fail? ==> RunEntries(parent, entries, keys).error == MakefileError
    decreases parent, 0, |keys|
  {
    if |keys| > 0 {
      if keys[0] in entries {
        RunMeansAccepts(parent.keyFunc, PStr(keys[0]));
        RunMeansAccepts(parent.valueFunc, entries[keys[0]]);
      }
      RunEntriesMeansAll(parent, entries, keys[1..]);
      assert forall k :: k in keys <==> k == keys[0] || k in keys[1..];
    }
  }

  /** `IsInt` turns booleans away although `bool` is a subclass of `int`. */
  lemma IsIntRejectsBooleans(b: bool, n: int)
    ensures Run(IsInt, PBool(b)) == Fail(MakefileError)
    ensures Run(IsInt, PInt(n)) == Pass
  {
  }

  /** `CLI_PARAMETERS`: a string, a non-boolean integer, a float or None, or
      a list of strings, integers and floats. */
  const CliParameters: Validator := Or([IsListOf([IsStr, IsInt, IsFloat]), Or([IsStr, IsInt, IsFloat, IsNone])])

  predicate IsCliScalar(v: Value) { v.PStr? || v.PInt? || v.PFloat? }

  const CliScalar: Validator := Or([IsStr, IsInt, IsFloat, IsNone])
  const CliItem: seq<Validator> := [IsStr, IsInt, IsFloat]

  lemma CliItemAccepts(v: Value)
    ensures (exists i :: 0 <= i < |CliItem| && Accepts(CliItem[i], v)) <==> IsCliScalar(v)
  {
    if v.PStr? { assert Accepts(CliItem[0], v); }
    if v.PInt? { assert Accepts(CliItem[1], v); }
    if v.PFloat? { assert Accepts(CliItem[2], v); }
  }

  lemma CliScalarAccepts(v: Value)
    ensures Accepts(CliScalar, v) <==> IsCliScalar(v) || v.PNone?
  {
    if v.PStr? { assert Accepts(CliScalar.funcs[0], v); }
    if v.PInt? { assert Accepts(CliScalar.funcs[1], v); }
    if v.PFloat? { assert Accepts(CliScalar.funcs[2], v); }
    if v.PNone? { assert Accepts(CliScalar.funcs[3], v); }
  }

  lemma CliListAccepts(v: Value)
    ensures Accepts(IsListOf(CliItem), v) <==>
      v.PList? && forall j :: 0 <= j < |v.items| ==> IsCliScalar(v.items[j])
  {
    if v.PList? {
      forall j | 0 <= j < |v.items|
        ensures (exists i :: 0 <= i < |CliItem| && Accepts(CliItem[i], v.items[j])) <==> IsCliScalar(v.items[j])
      {
        CliItemAccepts(v.items[j]);
      }
      RunMeansAccepts(IsListOf(CliItem), v);
      RunItemsMeansAll(IsListOf(CliItem), CliItem, v.items);
    }
  }

  /** The values `CLI_PARAMETERS` lets through. */
  lemma CliParametersAccept(value: Value)
    ensures Run(CliParameters, value).Pass? <==>
      IsCliScalar(value) || value.PNone? ||
      (value.PList? && forall j :: 0 <= j < |value.items| ==> IsCliScalar(value.items[j]))
  {
    RunMeansAccepts(CliParameters, value);
    assert CliParameters == Or([IsListOf(CliItem), CliScalar]);
    CliScalarAccepts(value);
    CliListAccepts(value);
    assert Accepts(CliParameters, value) <==> Accepts(IsListOf(CliItem), value) || Accepts(CliScalar, value);
  }

  // ---------------------------------------------------------------------
  // validate_makefile

  /** A reference structure: a validator, a dict of literal keys plus the
      callable keys in the order the dict yields them, or any other value
      (which no makefile value conforms to). */
  datatype Reference =
    | RCheck(check: Validator)
    | RDict(literal: map<string, Reference>, keyed: seq<KeyedReference>)
    | ROther
  datatype KeyedReference = KeyedReference(key: Validator, reference: Reference)

  /** `validate_makefile(current, reference, path)`: a callable reference
      checks the value; a dict reference requires a dict, whose keys are
      looked up literally first, then checked by the first callable key; any
      other pairing raises MakefileError. Keys are visited in sorted order. */
  function ValidateMakefile(current: Value, reference: Reference): Outcome
    decreases reference, 1
  {
    match reference
    case RCheck(f) => Run(f, current)
    case RDict(literal, keyed) =>
      if !current.PDict? then Fail(MakefileError)
      else ValidateKeys(current.entries, SortedSet(current.entries.Keys), reference)
    case ROther => Fail(MakefileError)
  }

  function ValidateKeys(entries: map<string, Value>, keys: seq<string>, reference: Reference): Outcome
    requires reference.RDict?
    decreases reference, 0, |keys|
  {
    if |keys| == 0 then Pass
    else if keys[0] !in entries then ValidateKeys(entries, keys[1..], reference)
    else
      var k := keys[0];
      var here :=
        if k in reference.literal then ValidateMakefile(entries[k], reference.literal[k])
        else if |reference.keyed| == 0 then Fail(MakefileError)
        else
          assert reference.keyed[0] in reference.keyed;
          var first := Run(reference.keyed[0].key, PStr(k));
          if first.Fail? then first
          else ValidateMakefile(entries[k], reference.keyed[0].reference);
      if here.Fail? then here else ValidateKeys(entries, keys[1..], reference)
  }

  /** What conforming to a reference means. */
  predicate Conforms(current: Value, reference: Reference)
    decreases reference
  {
    match reference
    case RCheck(f) => Accepts(f, current)
    case RDict(literal, keyed) =>
      current.PDict? && forall k :: k in current.entries ==> KeyConforms(current.entries, k, reference)
    case ROther => false
  }

  predicate KeyConforms(entries: map<string, Value>, k: string, reference: Reference)
    requires reference.RDict? && k in entries
    decreases reference, 0
  {
    if k in reference.literal then Conforms(entries[k], reference.literal[k])
    else
      |reference.keyed| > 0 &&
      (assert reference.keyed[0] in reference.keyed;
       Accepts(reference.keyed[0].key, PStr(k)) && Conforms(entries[k], reference.keyed[0].reference))
  }

  /** `validate_makefile` returns exactly for conforming makefiles, and
      raises only MakefileError. */
  lemma {:induction false} ValidateMeansConforms(current: Value, reference: Reference)
    ensures ValidateMakefile(current, reference).Pass? <==> Conforms(current, reference)
    ensures ValidateMakefile(current, reference).Fail? ==> ValidateMakefile(current, reference).error == MakefileError
    decreases reference, 1
  {
    match reference
    case RCheck(f) => RunMeansAccepts(f, current);
    case RDict(_, _) =>
      if current.PDict? {
        var keys := SortedSet(current.entries.Keys);
        ValidateKeysMeansAll(current.entries, keys, reference);
      }
    case ROther =>
  }

  lemma {:induction false} ValidateKeysMeansAll(entries: map<string, Value>, keys: seq<string>, reference: Reference)
    requires reference.RDict?
    ensures ValidateKeys(entries, keys, reference).Pass? <==>
      forall j :: 0 <= j < |keys| && keys[j] in entries ==> KeyConforms(entries, keys[j], reference)
    ensures ValidateKeys(entries, keys, reference).Fail? ==> ValidateKeys(entries, keys, reference).error == MakefileError
    decreases reference, 0, |keys|
  {
    if |keys| > 0 {
      var k := keys[0];
      if k in entries {
        if k in reference.literal {
          ValidateMeansConforms(entries[k], reference.literal[k]);
        } else if |reference.keyed| > 0 {
          assert reference.keyed[0] in reference.keyed;
          RunMeansAccepts(reference.keyed[0].key, PStr(k));
          ValidateMeansConforms(entries[k], reference.keyed[0].reference);
        }
      }
      ValidateKeysMeansAll(entries, keys[1..], reference);
      assert forall j :: 1 <= j < |keys| ==> keys[j] == keys[1..][j - 1];
    }
  }

  /** A key that is neither literal nor matched by a callable key is
      refused. */
  lemma UnknownKeyRejected(current: Value, literal: map<string, Reference>, k: string)
    requires current.PDict? && k in current.entries && k !in literal
    ensures ValidateMakefile(current, RDict(literal, [])) == Fail(MakefileError)
  {
    ValidateMeansConforms(current, RDict(literal, []));
    assert !KeyConforms(current.entries, k, RDict(literal, []));
  }
}
