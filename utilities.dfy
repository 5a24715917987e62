// Collection helpers of pypeline/common/utilities.py.
module Utilities {
  import opened PyErrors
  import opened PyValues
  import opened Seqs
  import PyText

  // ---------------------------------------------------------------------
  // safe_coerce_to_tuple / safe_coerce_to_frozenset

  /** `safe_coerce_to_tuple(v)`: a string or a dict becomes a one-element
      tuple, a list or tuple gives its elements, and any value that is not
      iterable is wrapped. */
  function SafeCoerceToTuple(v: Value): (r: seq<Value>)
    ensures (v.PList? || v.PTuple?) ==> r == v.items
    ensures !(v.PList? || v.PTuple?) ==> r == [v]
  {
    match v
    case PList(items) => items
    case PTuple(items) => items
    case _ => [v]
  }

  /** `safe_coerce_to_frozenset(v)`: the same elements as the tuple coercion,
      as a set; a TypeError when one of them cannot be hashed (so a dict, or
      a list holding a list, raises). */
  function SafeCoerceToFrozenset(v: Value): (r: Result<set<Value>>)
    ensures r.Ok? <==> forall x :: x in SafeCoerceToTuple(v) ==> Hashable(x)
    ensures r.Ok? ==> forall x :: x in r.value <==> x in SafeCoerceToTuple(v)
    ensures r.Err? ==> r.error == TypeError
  {
    var elements := SafeCoerceToTuple(v);
    if forall x :: x in elements ==> Hashable(x) then
      Ok(set x | x in elements)
    else
      Err(TypeError)
  }

  /** Coercing the coerced tuple again changes nothing. */
  lemma SafeCoerceToTupleIdempotent(v: Value)
    ensures SafeCoerceToTuple(PTuple(SafeCoerceToTuple(v))) == SafeCoerceToTuple(v)
  {
  }

  /** A string is never split into characters, and a dict never reaches a
      frozenset. */
  lemma SafeCoerceWrapsStringsAndDicts(s: string, d: map<string, Value>)
    ensures SafeCoerceToTuple(PStr(s)) == [PStr(s)]
    ensures SafeCoerceToFrozenset(PStr(s)) == Ok({PStr(s)})
    ensures SafeCoerceToTuple(PDict(d)) == [PDict(d)]
    ensures SafeCoerceToFrozenset(PDict(d)) == Err(TypeError)
  {
    assert PDict(d) in SafeCoerceToTuple(PDict(d));
    assert (set x | x in [PStr(s)]) == {PStr(s)};
  }

  // ---------------------------------------------------------------------
  // try_cast(value, int)

  /** `int(v)`, or `None` where it raises ValueError or TypeError. */
  function CastToInt(v: Value): Option<int>
  {
    match v
    case PInt(i) => Some(i)
    case PBool(b) => Some(if b then 1 else 0)
    case PFloat(r) => Some(if r >= 0.0 then r.Floor else -((-r).Floor))
    case PStr(s) => PyText.ParseInt(s)
    case _ => None
  }

  /** `int(v)` with its exception: ValueError for a string that does not
      spell an integer, TypeError for a value `int` does not take (None, a
      list, a tuple, a dict, an object). */
  function IntOf(v: Value): (r: Result<int>)
    ensures r.Ok? <==> CastToInt(v).Some?
    ensures r.Ok? ==> r.value == CastToInt(v).value
    ensures r.Err? ==> r.error == (if v.PStr? then ValueError else TypeError)
  {
    match CastToInt(v)
    case Some(i) => Ok(i)
    case None => Err(if v.PStr? then ValueError else TypeError)
  }

  /** `try_cast(v, int)`: the integer if the cast succeeds, else `v` itself. */
  function TryCastInt(v: Value): (r: Value)
    ensures CastToInt(v).Some? ==> r == PInt(CastToInt(v).value)
    ensures CastToInt(v).None? ==> r == v
  {
    match CastToInt(v)
    case Some(i) => PInt(i)
    case None => v
  }

  /** A decimal string is cast to the number it spells. */
  lemma TryCastIntOfDecimal(n: int)
    ensures TryCastInt(PStr(PyText.IntToString(n))) == PInt(n)
  {
    PyText.ParseIntOfIntToString(n);
  }

  // ---------------------------------------------------------------------
  // set_in / get_in on nested dictionaries

  /** `set_in(d, keys, value)`, as the dictionary it leaves behind. Missing
      intermediate dictionaries are created; an intermediate value that is
      not a dict cannot be indexed by a string key (TypeError). */
  function SetIn(d: map<string, Value>, keys: seq<string>, value: Value): (r: Result<map<string, Value>>)
    ensures |keys| == 0 <==> r == Err(ValueError)
    ensures r.Ok? ==> r.value.Keys == d.Keys + {keys[0]}
    ensures r.Ok? ==> forall k :: k in d && k != keys[0] ==> r.value[k] == d[k]
    decreases |keys|
  {
    if |keys| == 0 then Err(ValueError)
    else if |keys| == 1 then Ok(d[keys[0] := value])
    else if keys[0] !in d then
      var inner :- SetIn(map[], keys[1..], value);
      Ok(d[keys[0] := PDict(inner)])
    else
      match d[keys[0]]
      case PDict(sub) =>
        var inner :- SetIn(sub, keys[1..], value);
        Ok(d[keys[0] := PDict(inner)])
      case _ => Err(TypeError)
  }

  /** `get_in(d, keys, default)`. The empty key list fails on `keys[-1]`; a
      missing key gives the default; a non-dict on the path raises
      (TypeError when indexed, AttributeError for `.get`). */
  function GetIn(d: map<string, Value>, keys: seq<string>, default: Value): (r: Result<Value>)
    ensures |keys| == 0 <==> r == Err(IndexError)
    ensures |keys| == 1 ==> r == Ok(if keys[0] in d then d[keys[0]] else default)
    ensures |keys| > 1 && keys[0] !in d ==> r == Ok(default)
    decreases |keys|
  {
    if |keys| == 0 then Err(IndexError)
    else if |keys| == 1 then Ok(if keys[0] in d then d[keys[0]] else default)
    else if keys[0] !in d then Ok(default)
    else
      match d[keys[0]]
      case PDict(sub) => GetIn(sub, keys[1..], default)
      case _ => Err(if |keys| == 2 then AttributeError else TypeError)
  }

  /** After a successful `set_in`, `get_in` along the same keys finds the
      value. */
  lemma {:induction false} GetInAfterSetIn(d: map<string, Value>, keys: seq<string>, value: Value, default: Value)
    requires SetIn(d, keys, value).Ok?
    ensures GetIn(SetIn(d, keys, value).value, keys, default) == Ok(value)
    decreases |keys|
  {
    if |keys| > 1 {
      var sub := if keys[0] in d then d[keys[0]].entries else map[];
      var inner := SetIn(sub, keys[1..], value);
      assert inner.Ok? && SetIn(d, keys, value) == Ok(d[keys[0] := PDict(inner.value)]);
      GetInAfterSetIn(sub, keys[1..], value, default);
      assert GetIn(d[keys[0] := PDict(inner.value)], keys, default) == GetIn(inner.value, keys[1..], default);
    }
  }

  /** `set_in` leaves every path through another first key alone. */
  lemma SetInFrame(d: map<string, Value>, keys: seq<string>, value: Value, other: seq<string>, default: Value)
    requires SetIn(d, keys, value).Ok?
    requires |other| > 0 && other[0] != keys[0]
    ensures GetIn(SetIn(d, keys, value).value, other, default) == GetIn(d, other, default)
  {
  }

  /** `set_in` fails only when the key list is empty or an existing value on
      the path is not a dict. */
  lemma {:induction false} SetInSucceedsOnDicts(d: map<string, Value>, keys: seq<string>, value: Value)
    requires |keys| > 0
    requires forall j :: 1 <= j < |keys| ==> GetIn(d, keys[..j], PDict(map[])).Ok? && GetIn(d, keys[..j], PDict(map[])).value.PDict?
    ensures SetIn(d, keys, value).Ok?
    decreases |keys|
  {
    if |keys| > 1 {
      assert keys[..1] == [keys[0]];
      var sub := if keys[0] in d then d[keys[0]].entries else map[];
      assert keys[0] in d ==> d[keys[0]].PDict?;
      forall j | 1 <= j < |keys[1..]|
        ensures GetIn(sub, keys[1..][..j], PDict(map[])).Ok? && GetIn(sub, keys[1..][..j], PDict(map[])).value.PDict?
      {
        assert keys[..j + 1][1..] == keys[1..][..j];
        assert keys[..j + 1][0] == keys[0];
        if keys[0] !in d {
          EmptyDictGetIn(keys[1..][..j]);
        }
      }
      SetInSucceedsOnDicts(sub, keys[1..], value);
    }
  }

  lemma EmptyDictGetIn(keys: seq<string>)
    requires |keys| > 0
    ensures GetIn(map[], keys, PDict(map[])) == Ok(PDict(map[]))
  {
  }

  // ---------------------------------------------------------------------
  // split_before

  /** `split_before(xs, pred)`: the input cut into non-empty groups, a new
      group starting at every element satisfying `pred`, except at the very
      first element. */
  method SplitBefore<T>(xs: seq<T>, pred: T -> bool) returns (groups: seq<seq<T>>)
    ensures Flatten(groups) == xs
    ensures forall g :: g in groups ==> |g| > 0
    ensures forall i :: 0 <= i < |groups| ==> forall j :: 0 < j < |groups[i]| ==> !pred(groups[i][j])
    ensures forall i :: 0 < i < |groups| ==> pred(groups[i][0])
  {
    groups := [];
    var items: seq<T> := [];
    var n := 0;
    while n < |xs|
      invariant 0 <= n <= |xs|
      invariant Flatten(groups) + items == xs[..n]
      invariant forall g :: g in groups ==> |g| > 0
      invariant forall i :: 0 <= i < |groups| ==> forall j :: 0 < j < |groups[i]| ==> !pred(groups[i][j])
      invariant forall j :: 0 < j < |items| ==> !pred(items[j])
      invariant forall i :: 0 < i < |groups| ==> pred(groups[i][0])
      invariant |groups| > 0 && |items| > 0 ==> pred(items[0])
      invariant n > 0 ==> |items| > 0
    {
      var value := xs[n];
      if pred(value) && |items| > 0 {
        FlattenSnoc(groups, items);
        groups := groups + [items];
        items := [];
      }
      items := items + [value];
      n := n + 1;
    }
    if |items| > 0 {
      FlattenSnoc(groups, items);
      groups := groups + [items];
    }
  }

  // ---------------------------------------------------------------------
  // is_strictly_increasing

  /** `is_strictly_increasing(xs)`: every element is below its successor,
      which is the same as every element being below every later one. */
  function IsStrictlyIncreasing(xs: seq<int>): (r: bool)
    ensures r <==> forall i, j :: 0 <= i < j < |xs| ==> xs[i] < xs[j]
  {
    if |xs| < 2 then true
    else
      var r := xs[0] < xs[1] && IsStrictlyIncreasing(xs[1..]);
      assert r ==> forall j :: 0 < j < |xs| ==> xs[0] < xs[j] by {
        if r {
          forall j | 0 < j < |xs| ensures xs[0] < xs[j] {
            if j > 1 { assert xs[1..][0] < xs[1..][j - 1]; }
          }
        }
      }
      assert r ==> forall i, j :: 1 <= i < j < |xs| ==> xs[i] < xs[j] by {
        if r {
          forall i, j | 1 <= i < j < |xs| ensures xs[i] < xs[j] {
            assert xs[1..][i - 1] < xs[1..][j - 1];
          }
        }
      }
      r
  }

  // ---------------------------------------------------------------------
  // grouper

  /** `grouper(size, xs, fill)`: consecutive groups of exactly `size`
      elements holding the input in order, the last one padded with fewer
      than `size` copies of `fill`. With size 0 there are no groups at all. */
  function Grouper<T>(size: nat, xs: seq<T>, fill: T): (r: seq<seq<T>>)
    ensures forall i :: 0 <= i < |r| ==> |r[i]| == size
    ensures size > 0 ==> |xs| <= |Flatten(r)| < |xs| + size
    ensures size > 0 ==> Flatten(r) == xs + Padding(fill, |Flatten(r)| - |xs|)
    ensures size == 0 || |xs| == 0 <==> r == []
    decreases |xs|
  {
    if size == 0 || |xs| == 0 then []
    else if |xs| <= size then
      var g := xs + Padding(fill, size - |xs|);
      assert Flatten([g]) == g;
      [g]
    else
      var rest := Grouper(size, xs[size..], fill);
      var r := [xs[..size]] + rest;
      assert r[1..] == rest;
      assert Flatten(r) == xs[..size] + Flatten(rest);
      assert xs == xs[..size] + xs[size..];
      r
  }

  function Padding<T>(fill: T, n: nat): (r: seq<T>)
    ensures |r| == n && forall i :: 0 <= i < n ==> r[i] == fill
  {
    seq(n, _ => fill)
  }

  // ---------------------------------------------------------------------
  // group_by_pred

  /** `group_by_pred(pred, xs)`: the matching and the non-matching elements,
      each in input order. */
  method GroupByPred<T>(pred: T -> bool, xs: seq<T>) returns (isTrue: seq<T>, isFalse: seq<T>)
    ensures isTrue == Filter(pred, xs)
    ensures isFalse == Filter(x => !pred(x), xs)
  {
    isTrue, isFalse := [], [];
    var n := 0;
    while n < |xs|
      invariant 0 <= n <= |xs|
      invariant isTrue == Filter(pred, xs[..n])
      invariant isFalse == Filter(x => !pred(x), xs[..n])
    {
      assert xs[..n + 1][..n] == xs[..n];
      if pred(xs[n]) {
        isTrue := isTrue + [xs[n]];
      } else {
        isFalse := isFalse + [xs[n]];
      }
      n := n + 1;
    }
    assert xs[..n] == xs;
  }

  /** The two lists returned by `group_by_pred` partition the input. */
  lemma GroupByPredPartitions<T>(pred: T -> bool, xs: seq<T>)
    ensures multiset(Filter(pred, xs)) + multiset(Filter(x => !pred(x), xs)) == multiset(xs)
    ensures forall x :: x in Filter(pred, xs) ==> pred(x)
    ensures forall x :: x in Filter(x => !pred(x), xs) ==> !pred(x)
  {
    FilterPartition(pred, xs);
  }

  // ---------------------------------------------------------------------
  // fragment

  /** `fragment(size, xs)`: consecutive slices of `size` elements, the last
      one possibly shorter; a size of 0 is rejected by `range` (ValueError),
      and a negative size gives an empty range, so no slices. */
  function Fragment<T>(size: int, xs: seq<T>): (r: Result<seq<seq<T>>>)
    ensures size == 0 <==> r.Err?
    ensures r.Err? ==> r.error == ValueError
    ensures size < 0 ==> r == Ok([])
    ensures size > 0 ==> r.Ok? && Flatten(r.value) == xs
    ensures size > 0 ==> forall i :: 0 <= i < |r.value| ==> 0 < |r.value[i]| <= size
    ensures size > 0 ==> forall i :: 0 <= i < |r.value| - 1 ==> |r.value[i]| == size
    decreases |xs|
  {
    if size == 0 then Err(ValueError)
    else if size < 0 || |xs| == 0 then Ok([])
    else if |xs| <= size then
      assert Flatten([xs]) == xs;
      Ok([xs])
    else
      var rest := Fragment(size, xs[size..]).value;
      var r := [xs[..size]] + rest;
      assert r[1..] == rest;
      assert xs == xs[..size] + xs[size..];
      Ok(r)
  }

  // ---------------------------------------------------------------------
  // cumsum

  /** `cumsum(xs, initial)`: the running totals. */
  method Cumsum(xs: seq<int>, initial: int) returns (r: seq<int>)
    ensures |r| == |xs|
    ensures forall k :: 0 <= k < |xs| ==> r[k] == initial + Sum(xs[..k + 1])
  {
    r := [];
    var total := initial;
    var n := 0;
    while n < |xs|
      invariant 0 <= n <= |xs|
      invariant |r| == n
      invariant total == initial + Sum(xs[..n])
      invariant forall k :: 0 <= k < n ==> r[k] == initial + Sum(xs[..k + 1])
    {
      assert xs[..n + 1][..n] == xs[..n];
      total := total + xs[n];
      r := r + [total];
      n := n + 1;
    }
  }
}
