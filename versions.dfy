// Version requirements of pypeline/common/versions.py: version tuples, the
// EQ/GE/LT/And/Or checks, default pretty-printing, the requirement objects
// that cache their version and their verdict, and the requirement cache.
module Versions {
  import opened PyErrors
  import opened PyText
  import opened PyValues
  import Utilities

  /** One field of a version tuple: a regex group cast with `try_cast(_, int)`
      (an unmatched optional group stays None, a non-numeric one a string). */
  datatype Field = FNone | FInt(n: int) | FStr(s: string)

  type Version = seq<Field>

  /** `try_cast(group, int)` for one regex group. */
  function CastGroup(group: Option<string>): (f: Field)
    ensures group.None? ==> f == FNone
    ensures group.Some? && ParseInt(group.value).Some? ==> f == FInt(ParseInt(group.value).value)
    ensures group.Some? && ParseInt(group.value).None? ==> f == FStr(group.value)
  {
    match group
    case None => FNone
    case Some(s) =>
      match Utilities.TryCastInt(PStr(s))
      case PInt(n) => FInt(n)
      case _ => FStr(s)
  }

  /** Python 2 ordering of fields: None first, then numbers, then strings. */
  predicate FieldLess(a: Field, b: Field)
  {
    match (a, b)
    case (FNone, FNone) => false
    case (FNone, _) => true
    case (FInt(x), FInt(y)) => x < y
    case (FInt(_), FStr(_)) => true
    case (FStr(x), FStr(y)) => StrLess(x, y)
    case _ => false
  }

  /** Lexicographic tuple comparison `a < b`. */
  predicate VersionLess(a: Version, b: Version)
  {
    if |a| == 0 then |b| > 0
    else if |b| == 0 then false
    else if a[0] != b[0] then FieldLess(a[0], b[0])
    else VersionLess(a[1..], b[1..])
  }

  lemma FieldLessTotal(a: Field, b: Field)
    requires a != b
    ensures FieldLess(a, b) || FieldLess(b, a)
  {
    if a.FStr? && b.FStr? { StrLessTotal(a.s, b.s); }
  }

  lemma FieldLessAsymmetric(a: Field, b: Field)
    requires FieldLess(a, b)
    ensures !FieldLess(b, a)
  {
    if a.FStr? && b.FStr? { StrLessAsymmetric(a.s, b.s); }
  }

  /** Tuples are totally ordered: exactly one of <, ==, > holds. */
  lemma {:induction false} VersionTrichotomy(a: Version, b: Version)
    ensures VersionLess(a, b) || a == b || VersionLess(b, a)
    ensures !(VersionLess(a, b) && VersionLess(b, a))
    ensures !(VersionLess(a, b) && a == b)
  {
    if |a| > 0 && |b| > 0 {
      if a[0] == b[0] {
        VersionTrichotomy(a[1..], b[1..]);
        assert a[1..] == b[1..] ==> a == b by {
          assert a == [a[0]] + a[1..] && b == [b[0]] + b[1..];
        }
      } else {
        FieldLessTotal(a[0], b[0]);
        if FieldLess(a[0], b[0]) { FieldLessAsymmetric(a[0], b[0]); }
      }
    }
  }

  /** A version check. */
  datatype Check =
    | EQ(version: Version)
    | GE(version: Version)
    | LT(version: Version)
    | And(checks: seq<Check>)
    | Or(checks: seq<Check>)

  /** `str(c)` succeeds: `And` and `Or` print themselves with
      `" AND ".join(self._checks)` (`" OR "`), which raises TypeError as
      soon as there is a check to join, the checks not being strings. */
  predicate Printable(c: Check)
  {
    (c.And? || c.Or?) ==> |c.checks| == 0
  }

  /** Every `And` in the check has only printable members. */
  predicate WellNested(c: Check)
  {
    match c
    case EQ(_) => true
    case GE(_) => true
    case LT(_) => true
    case And(cs) => forall i :: 0 <= i < |cs| ==> Printable(cs[i]) && WellNested(cs[i])
    case Or(cs) => forall i :: 0 <= i < |cs| ==> WellNested(cs[i])
  }

  /** Calling a check on a version: it returns, or raises. `And` first
      prints every member (TypeError for a nested `And` or `Or` that is not
      empty), then stops at the first failure; `Or` stops at the first
      success and goes on only past VersionRequirementError. */
  function Run(c: Check, value: Version): Outcome
    decreases c, 1
  {
    match c
    case EQ(v) => if value != v then Fail(VersionRequirementError) else Pass
    case GE(v) => if VersionLess(value, v) then Fail(VersionRequirementError) else Pass
    case LT(v) => if !VersionLess(value, v) then Fail(VersionRequirementError) else Pass
    case And(cs) =>
      if exists i :: 0 <= i < |cs| && !Printable(cs[i]) then Fail(TypeError)
      else RunAnd(c, cs, value)
    case Or(cs) => RunOr(c, cs, value)
  }

  /** The loop of `And.__call__`: a member's VersionRequirementError is
      raised again as one, and any other exception propagates. */
  function RunAnd(parent: Check, cs: seq<Check>, value: Version): Outcome
    requires forall x :: x in cs ==> x < parent
    decreases parent, 0, |cs|
  {
    if |cs| == 0 then Pass
    else
      assert cs[0] in cs && forall x :: x in cs[1..] ==> x in cs;
      var first := Run(cs[0], value);
      if first.Fail? then Fail(first.error)
      else RunAnd(parent, cs[1..], value)
  }

  /** The loop of `Or.__call__`: only VersionRequirementError is caught. */
  function RunOr(parent: Check, cs: seq<Check>, value: Version): Outcome
    requires forall x :: x in cs ==> x < parent
    decreases parent, 0, |cs|
  {
    if |cs| == 0 then Fail(VersionRequirementError)
    else
      assert cs[0] in cs && forall x :: x in cs[1..] ==> x in cs;
      var first := Run(cs[0], value);
      if first.Pass? then Pass
      else if first.error != VersionRequirementError then first
      else RunOr(parent, cs[1..], value)
  }

  /** What a check means: equality, at least, earlier than, all, some. */
  predicate Satisfies(c: Check, value: Version)
  {
    match c
    case EQ(v) => value == v
    case GE(v) => !VersionLess(value, v)
    case LT(v) => VersionLess(value, v)
    case And(cs) => forall i :: 0 <= i < |cs| ==> Satisfies(cs[i], value)
    case Or(cs) => exists i :: 0 <= i < |cs| && Satisfies(cs[i], value)
  }

  /** Calling a check raises only VersionRequirementError or TypeError, and
      passes only versions that satisfy it; for a well-nested check it
      passes exactly those, and a failure is VersionRequirementError. */
  lemma {:induction false} RunMeansSatisfies(c: Check, value: Version)
    ensures Run(c, value).Fail? ==> Run(c, value).error in {VersionRequirementError, TypeError}
    ensures Run(c, value).Pass? ==> Satisfies(c, value)
    ensures WellNested(c) ==> (Run(c, value).Pass? <==> Satisfies(c, value))
    ensures WellNested(c) && Run(c, value).Fail? ==> Run(c, value).error == VersionRequirementError
    decreases c, 1
  {
    match c
    case EQ(_) =>
    case GE(_) =>
    case LT(_) =>
    case And(cs) =>
      RunAndMeansAll(c, cs, value);
      if WellNested(c) {
        assert !exists i :: 0 <= i < |cs| && !Printable(cs[i]);
      }
    case Or(cs) => RunOrMeansSome(c, cs, value);
  }

  lemma {:induction false} RunAndMeansAll(parent: Check, cs: seq<Check>, value: Version)
    requires forall x :: x in cs ==> x < parent
    ensures RunAnd(parent, cs, value).Fail? ==> RunAnd(parent, cs, value).error in {VersionRequirementError, TypeError}
    ensures RunAnd(parent, cs, value).Pass? ==> forall i :: 0 <= i < |cs| ==> Satisfies(cs[i], value)
    ensures (forall i :: 0 <= i < |cs| ==> WellNested(cs[i])) ==>
      (RunAnd(parent, cs, value).Pass? <==> forall i :: 0 <= i < |cs| ==> Satisfies(cs[i], value)) &&
      (RunAnd(parent, cs, value).Fail? ==> RunAnd(parent, cs, value).error == VersionRequirementError)
    decreases parent, 0, |cs|
  {
    if |cs| > 0 {
      assert cs[0] in cs && forall x :: x in cs[1..] ==> x in cs;
      RunMeansSatisfies(cs[0], value);
      RunAndMeansAll(parent, cs[1..], value);
      assert forall i :: 1 <= i < |cs| ==> cs[i] == cs[1..][i - 1];
    }
  }

  lemma {:induction false} RunOrMeansSome(parent: Check, cs: seq<Check>, value: Version)
    requires forall x :: x in cs ==> x < parent
    ensures RunOr(parent, cs, value).Fail? ==> RunOr(parent, cs, value).error in {VersionRequirementError, TypeError}
    ensures RunOr(parent, cs, value).Pass? ==> exists i :: 0 <= i < |cs| && Satisfies(cs[i], value)
    ensures (forall i :: 0 <= i < |cs| ==> WellNested(cs[i])) ==>
      (RunOr(parent, cs, value).Pass? <==> exists i :: 0 <= i < |cs| && Satisfies(cs[i], value)) &&
      (RunOr(parent, cs, value).Fail? ==> RunOr(parent, cs, value).error == VersionRequirementError)
    decreases parent, 0, |cs|
  {
    if |cs| > 0 {
      assert cs[0] in cs && forall x :: x in cs[1..] ==> x in cs;
      RunMeansSatisfies(cs[0], value);
      RunOrMeansSome(parent, cs[1..], value);
      assert forall i :: 1 <= i < |cs| ==> cs[i] == cs[1..][i - 1];
      if RunOr(parent, cs[1..], value).Pass? && !Run(cs[0], value).Pass? {
        var i :| 0 <= i < |cs[1..]| && Satisfies(cs[1..][i], value);
        assert Satisfies(cs[i + 1], value);
      }
      if (forall i :: 0 <= i < |cs| ==> WellNested(cs[i])) && exists i :: 0 <= i < |cs| && Satisfies(cs[i], value) {
        var i :| 0 <= i < |cs| && Satisfies(cs[i], value);
        if i > 0 && !Run(cs[0], value).Pass? {
          assert Satisfies(cs[1..][i - 1], value);
        }
      }
    }
  }

  /** An `And` nested in an `And` raises TypeError although the version
      satisfies both. */
  lemma NestedAndRaises()
    ensures Satisfies(And([And([GE([FInt(1)])]), GE([FInt(0)])]), [FInt(2)])
    ensures Run(And([And([GE([FInt(1)])]), GE([FInt(0)])]), [FInt(2)]) == Fail(TypeError)
  {
    var inner := And([GE([FInt(1)])]);
    var cs := [inner, GE([FInt(0)])];
    assert !Printable(cs[0]);
    assert Satisfies(inner, [FInt(2)]) by {
      assert Satisfies(inner.checks[0], [FInt(2)]);
    }
    assert Satisfies(cs[1], [FInt(2)]);
  }

  /** For any bound, exactly one of GE and LT accepts a version. */
  lemma GEAndLTComplementary(bound: Version, value: Version)
    ensures Run(GE(bound), value).Pass? != Run(LT(bound), value).Pass?
  {
  }

  // ---------------------------------------------------------------------
  // _pprint without a formatter

  /** `str(field)`. */
  function FieldStr(f: Field): string
  {
    match f
    case FNone => "None"
    case FInt(n) => IntToString(n)
    case FStr(s) => s
  }

  function FieldStrs(v: Version): (r: seq<string>)
    ensures |r| == |v| && forall i :: 0 <= i < |v| ==> r[i] == FieldStr(v[i])
  {
    if |v| == 0 then [] else [FieldStr(v[0])] + FieldStrs(v[1..])
  }

  /** `_pprint(None, value)`: "v" and the fields joined by ".". */
  function PprintDefault(value: Version): (r: string)
    ensures |r| >= 1 && r[0] == 'v'
  {
    "v" + Join(".", FieldStrs(value))
  }

  predicate AllInts(v: Version) { forall i :: 0 <= i < |v| ==> v[i].FInt? }

  /** Reading a default-printed version back: drop the "v", split on ".",
      cast each piece to int. */
  function ParsePrinted(s: string): Version
    requires |s| >= 1
  {
    var pieces := SplitOn(s[1..], '.');
    seq(|pieces|, i requires 0 <= i < |pieces| => CastGroup(Some(pieces[i])))
  }

  /** Printing an all-integer version loses nothing: it can be read back. */
  lemma PprintDefaultRoundTrip(value: Version)
    requires |value| >= 1 && AllInts(value)
    ensures ParsePrinted(PprintDefault(value)) == value
  {
    var strs := FieldStrs(value);
    forall i | 0 <= i < |strs| ensures '.' !in strs[i] {
      NoDotInIntToString(value[i].n);
    }
    assert PprintDefault(value)[1..] == Join(".", strs);
    SplitOnJoin(strs, '.');
    forall i | 0 <= i < |value| ensures CastGroup(Some(strs[i])) == value[i] {
      ParseIntOfIntToString(value[i].n);
    }
  }

  lemma NoDotInIntToString(n: int)
    ensures '.' !in IntToString(n)
  {
    var s := IntToString(n);
    var d := NatToString(if n < 0 then -n else n);
    assert forall i :: 0 <= i < |d| ==> IsDigit(d[i]);
    if n < 0 { assert s == "-" + d; }
  }

  // ---------------------------------------------------------------------
  // RequirementObj

  /** A requirement: the call whose output is searched (its regex groups are
      given as an input, `None` when the search finds no match), the check,
      and the two caches of the Python object. */
  class RequirementObj {
    const call: seq<Value>
    const name: Value
    const check: Check
    const searchResult: Option<seq<Option<string>>>
    var version: Option<Version>
    var done: bool

    constructor (call: seq<Value>, name: Value, check: Check, searchResult: Option<seq<Option<string>>>)
      ensures this.call == call && this.name == name && this.check == check
      ensures this.searchResult == searchResult
      ensures version.None? && !done
    {
      this.call := call;
      this.name := name;
      this.check := check;
      this.searchResult := searchResult;
      version := None;
      done := false;
    }

    /** The version tuple, computed once: no match raises
        VersionRequirementError (and caches nothing), otherwise each group is
        cast to int where possible. */
    method Version() returns (r: Result<Version>)
      modifies this`version
      ensures old(version).Some? ==> r == Ok(old(version).value) && version == old(version)
      ensures old(version).None? && searchResult.None? ==> r == Err(VersionRequirementError) && version.None?
      ensures old(version).None? && searchResult.Some? ==>
        r.Ok? && version == Some(r.value) && |r.value| == |searchResult.value|
        && forall i :: 0 <= i < |r.value| ==> r.value[i] == CastGroup(searchResult.value[i])
    {
      if version.None? {
        if searchResult.None? {
          return Err(VersionRequirementError);
        }
        var groups := searchResult.value;
        version := Some(seq(|groups|, i requires 0 <= i < |groups| => CastGroup(groups[i])));
      }
      r := Ok(version.value);
    }

    /** `__call__(force)`: runs the check unless it already passed once and
        `force` is off; only a passing run sets the `done` latch. */
    method Call(force: bool) returns (r: Outcome)
      modifies this`version, this`done
      ensures !force && old(done) ==> r == Pass && done && version == old(version)
      ensures r.Pass? ==> done
      ensures (force || !old(done)) && r.Pass? ==> version.Some? && Satisfies(check, version.value)
      ensures (force || !old(done)) && version.Some? && WellNested(check) ==>
        (r.Pass? <==> Satisfies(check, version.value))
      ensures (force || !old(done)) && r.Fail? ==> done == old(done)
    {
      if force || !done {
        var v := Version();
        if v.Err? {
          return Fail(v.error);
        }
        r := Run(check, v.value);
        RunMeansSatisfies(check, v.value);
        if r.Fail? {
          return;
        }
        done := true;
      } else {
        r := Pass;
      }
    }
  }

  // ---------------------------------------------------------------------
  // The requirement cache

  /** What `==` and `hash` see of a check: its description tag and its
      arguments. */
  datatype CheckKey = VersionKey(tag: string, version: Version) | GroupKey(tag: string, parts: seq<CheckKey>)

  /** The key as written: `And` describes itself with the tag "Or" (and LT
      with "LE"). */
  function KeyAsWritten(c: Check): CheckKey
  {
    match c
    case EQ(v) => VersionKey("EQ", v)
    case GE(v) => VersionKey("GE", v)
    case LT(v) => VersionKey("LE", v)
    case And(cs) => GroupKey("Or", seq(|cs|, i requires 0 <= i < |cs| => KeyAsWritten(cs[i])))
    case Or(cs) => GroupKey("Or", seq(|cs|, i requires 0 <= i < |cs| => KeyAsWritten(cs[i])))
  }

  /** An `And` and an `Or` of the same checks are equal keys, though they
      accept different versions: with both requirements created for the same
      call, the second `Requirement(...)` returns the first object. */
  lemma AndOrKeysCollide()
    ensures KeyAsWritten(And([GE([FInt(2)]), LT([FInt(1)])])) == KeyAsWritten(Or([GE([FInt(2)]), LT([FInt(1)])]))
    ensures !Satisfies(And([GE([FInt(2)]), LT([FInt(1)])]), [FInt(3)])
    ensures Satisfies(Or([GE([FInt(2)]), LT([FInt(1)])]), [FInt(3)])
  {
    var cs := [GE([FInt(2)]), LT([FInt(1)])];
    assert !Satisfies(cs[1], [FInt(3)]);
    assert Satisfies(cs[0], [FInt(3)]);
  }

  /** The intended key: every kind of check has its own tag. */
  function Key(c: Check): CheckKey
  {
    match c
    case EQ(v) => VersionKey("EQ", v)
    case GE(v) => VersionKey("GE", v)
    case LT(v) => VersionKey("LE", v)
    case And(cs) => GroupKey("And", seq(|cs|, i requires 0 <= i < |cs| => Key(cs[i])))
    case Or(cs) => GroupKey("Or", seq(|cs|, i requires 0 <= i < |cs| => Key(cs[i])))
  }

  /** With distinct tags, equal keys mean equal checks, so the cache never
      hands out a requirement with a different check. */
  lemma {:induction false} KeyInjective(a: Check, b: Check)
    requires Key(a) == Key(b)
    ensures a == b
    decreases a
  {
    match a
    case EQ(_) =>
    case GE(_) =>
    case LT(_) =>
    case And(cs) =>
      var ds := b.checks;
      assert |cs| == |ds| by { assert |Key(a).parts| == |Key(b).parts|; }
      forall i | 0 <= i < |cs| ensures cs[i] == ds[i] {
        assert Key(a).parts[i] == Key(b).parts[i];
        KeyInjective(cs[i], ds[i]);
      }
    case Or(cs) =>
      var ds := b.checks;
      assert |cs| == |ds| by { assert |Key(a).parts| == |Key(b).parts|; }
      forall i | 0 <= i < |cs| ensures cs[i] == ds[i] {
        assert Key(a).parts[i] == Key(b).parts[i];
        KeyInjective(cs[i], ds[i]);
      }
  }

  datatype RequirementKey = RequirementKey(call: seq<Value>, search: string, pprint: Option<string>, check: CheckKey, name: Option<string>)

  /** `_REQUIREMENT_CACHE` with the `Requirement(...)` factory. */
  class RequirementCache {
    var cache: map<RequirementKey, RequirementObj>

    constructor ()
      ensures cache == map[]
    {
      cache := map[];
    }

    /** `Requirement(call, search, checks, pprint, name)`: the cached object
        for an equal key, otherwise a new object that is then cached. The
        call is coerced to a tuple first; an empty or missing name defaults
        to the first element of the call, and IndexError is raised (and
        nothing cached) when the call is empty too. The key is the intended
        one, `Key(check)`. */
    method Requirement(call: Value, search: string, check: Check, pprint: Option<string>, name: Option<string>,
                       searchResult: Option<seq<Option<string>>>) returns (r: Result<RequirementObj>)
      modifies this
      ensures var c := Utilities.SafeCoerceToTuple(call);
        var key := RequirementKey(c, search, pprint, Key(check), name);
        var named := name.Some? && name.value != "";
        && (key in old(cache) ==> r == Ok(old(cache)[key]) && cache == old(cache))
        && (key !in old(cache) && !named && |c| == 0 ==> r == Err(IndexError) && cache == old(cache))
        && (key !in old(cache) && (named || |c| > 0) ==>
              r.Ok? && fresh(r.value) && cache == old(cache)[key := r.value]
              && r.value.call == c && r.value.check == check && !r.value.done && r.value.version.None?
              && r.value.name == (if named then PStr(name.value) else c[0]))
    {
      var c := Utilities.SafeCoerceToTuple(call);
      var key := RequirementKey(c, search, pprint, Key(check), name);
      if key in cache {
        return Ok(cache[key]);
      }
      var n;
      if name.Some? && name.value != "" {
        n := PStr(name.value);
      } else if |c| > 0 {
        n := c[0];
      } else {
        return Err(IndexError);
      }
      var obj := new RequirementObj(c, n, check, searchResult);
      cache := cache[key := obj];
      r := Ok(obj);
    }
  }
}
