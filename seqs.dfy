// Sequence helpers shared by the models: flattening a list of lists, sums,
// filtering and counting.
module Seqs {

  /** `sum(lists, [])`: the concatenation of a list of lists. */
  function Flatten<T>(ss: seq<seq<T>>): seq<T>
  {
    if |ss| == 0 then [] else ss[0] + Flatten(ss[1..])
  }

  lemma {:induction false} FlattenAppend<T>(a: seq<seq<T>>, b: seq<seq<T>>)
    ensures Flatten(a + b) == Flatten(a) + Flatten(b)
  {
    if |a| == 0 {
      assert a + b == b;
    } else {
      assert (a + b)[1..] == a[1..] + b;
      FlattenAppend(a[1..], b);
    }
  }

  lemma FlattenSnoc<T>(a: seq<seq<T>>, x: seq<T>)
    ensures Flatten(a + [x]) == Flatten(a) + x
  {
    FlattenAppend(a, [x]);
  }

  lemma {:induction false} FlattenUniformLength<T>(ss: seq<seq<T>>, n: nat)
    requires forall i :: 0 <= i < |ss| ==> |ss[i]| == n
    ensures |Flatten(ss)| == n * |ss|
  {
    if |ss| > 0 {
      FlattenUniformLength(ss[1..], n);
    }
  }

  function Sum(xs: seq<int>): int
  {
    if |xs| == 0 then 0 else Sum(xs[..|xs| - 1]) + xs[|xs| - 1]
  }

  /** The elements of `xs` satisfying `p`, in order. */
  function Filter<T>(p: T -> bool, xs: seq<T>): (r: seq<T>)
    ensures |r| <= |xs|
    ensures forall i :: 0 <= i < |r| ==> p(r[i])
  {
    if |xs| == 0 then []
    else Filter(p, xs[..|xs| - 1]) + (if p(xs[|xs| - 1]) then [xs[|xs| - 1]] else [])
  }

  /** Filtering by `p` and by its negation splits `xs` into two parts. */
  lemma FilterPartition<T>(p: T -> bool, xs: seq<T>)
    ensures multiset(Filter(p, xs)) + multiset(Filter(x => !p(x), xs)) == multiset(xs)
  {
    FilterComplement(p, x => !p(x), xs);
  }

  lemma {:induction false} FilterComplement<T>(p: T -> bool, q: T -> bool, xs: seq<T>)
    requires forall x :: q(x) == !p(x)
    ensures multiset(Filter(p, xs)) + multiset(Filter(q, xs)) == multiset(xs)
  {
    if |xs| > 0 {
      var init, last := xs[..|xs| - 1], xs[|xs| - 1];
      FilterComplement(p, q, init);
      assert xs == init + [last];
      assert multiset(xs) == multiset(init) + multiset{last};
    }
  }

  /** No element twice: the sequence lists a set. */
  predicate Distinct<T(==)>(xs: seq<T>)
  {
    forall i, j :: 0 <= i < j < |xs| ==> xs[i] != xs[j]
  }

  /** The number of occurrences of `x` in `xs`. */
  function Count<T(==)>(xs: seq<T>, x: T): nat
  {
    if |xs| == 0 then 0 else (if xs[0] == x then 1 else 0) + Count(xs[1..], x)
  }
}

module Sets {

  lemma {:induction false} MaxExists(keys: set<string>, f: map<string, int>)
    requires keys != {} && keys <= f.Keys
    ensures exists k :: k in keys && forall j :: j in keys ==> f[j] <= f[k]
    decreases |keys|
  {
    var x :| x in keys;
    if keys == {x} {
      assert forall j :: j in keys ==> f[j] <= f[x];
    } else {
      MaxExists(keys - {x}, f);
      var m :| m in keys - {x} && forall j :: j in keys - {x} ==> f[j] <= f[m];
      var best := if f[x] > f[m] then x else m;
      forall j | j in keys ensures f[j] <= f[best] {
        if j != x { assert j in keys - {x}; }
      }
    }
  }

  lemma {:induction false} MinExists(keys: set<string>, f: map<string, int>)
    requires keys != {} && keys <= f.Keys
    ensures exists k :: k in keys && forall j :: j in keys ==> f[k] <= f[j]
    decreases |keys|
  {
    var x :| x in keys;
    if keys == {x} {
      assert forall j :: j in keys ==> f[x] <= f[j];
    } else {
      MinExists(keys - {x}, f);
      var m :| m in keys - {x} && forall j :: j in keys - {x} ==> f[m] <= f[j];
      var best := if f[x] < f[m] then x else m;
      forall j | j in keys ensures f[best] <= f[j] {
        if j != x { assert j in keys - {x}; }
      }
    }
  }

  predicate IsMaxOf(m: int, keys: set<string>, f: map<string, int>)
    requires keys <= f.Keys
  {
    (exists k :: k in keys && f[k] == m) && forall k :: k in keys ==> f[k] <= m
  }

  predicate IsMinOf(m: int, keys: set<string>, f: map<string, int>)
    requires keys <= f.Keys
  {
    (exists k :: k in keys && f[k] == m) && forall k :: k in keys ==> m <= f[k]
  }

  /** `max(f[k] for k in keys)`. */
  function MaxOf(keys: set<string>, f: map<string, int>): (m: int)
    requires keys != {} && keys <= f.Keys
    ensures exists k :: k in keys && f[k] == m
    ensures forall k :: k in keys ==> f[k] <= m
  {
    MaxExists(keys, f);
    var k :| k in keys && forall j :: j in keys ==> f[j] <= f[k];
    assert IsMaxOf(f[k], keys, f);
    var m :| IsMaxOf(m, keys, f);
    m
  }

  /** `min(f[k] for k in keys)`. */
  function MinOf(keys: set<string>, f: map<string, int>): (m: int)
    requires keys != {} && keys <= f.Keys
    ensures exists k :: k in keys && f[k] == m
    ensures forall k :: k in keys ==> m <= f[k]
  {
    MinExists(keys, f);
    var k :| k in keys && forall j :: j in keys ==> f[k] <= f[j];
    assert IsMinOf(f[k], keys, f);
    var m :| IsMinOf(m, keys, f);
    m
  }
}
