// The dynamically typed values that flow through makefiles, option tables and
// coercion helpers.
module PyValues {

  /** A Python value. Dictionaries are keyed by strings, as every makefile
      and option table in the pipeline is; `PObject` stands for any other
      object (a node, a callable, a file handle). */
  datatype Value =
    | PNone
    | PBool(b: bool)
    | PInt(i: int)
    | PFloat(r: real)
    | PStr(s: string)
    | PList(items: seq<Value>)
    | PTuple(items: seq<Value>)
    | PDict(entries: map<string, Value>)
    | PObject(tag: nat)

  /** `isinstance(v, int)`; `bool` is a subclass of `int`. */
  predicate IsInt(v: Value) { v.PInt? || v.PBool? }

  /** Values `hash` accepts. */
  predicate Hashable(v: Value)
  {
    match v
    case PList(_) => false
    case PDict(_) => false
    case PTuple(items) => forall i :: 0 <= i < |items| ==> Hashable(items[i])
    case _ => true
  }

  /** Python truthiness. */
  predicate Truthy(v: Value)
  {
    match v
    case PNone => false
    case PBool(b) => b
    case PInt(i) => i != 0
    case PFloat(r) => r != 0.0
    case PStr(s) => |s| > 0
    case PList(items) => |items| > 0
    case PTuple(items) => |items| > 0
    case PDict(entries) => |entries| > 0
    case PObject(_) => true
  }
}

module PyCompare {
  import opened PyValues
  import opened PyErrors

  /** The number a value stands for in arithmetic comparisons. */
  function NumericValue(v: Value): Option<real>
  {
    match v
    case PInt(i) => Some(i as real)
    case PBool(b) => Some(if b then 1.0 else 0.0)
    case PFloat(r) => Some(r)
    case _ => None
  }

  /** `a == b`: numbers compare by value across int, bool and float; other
      values compare structurally. */
  predicate PyEq(a: Value, b: Value)
  {
    if NumericValue(a).Some? && NumericValue(b).Some? then NumericValue(a).value == NumericValue(b).value
    else a == b
  }

  /** `x in xs` for a list. */
  predicate PyIn(x: Value, xs: seq<Value>)
  {
    exists i :: 0 <= i < |xs| && PyEq(xs[i], x)
  }
}
