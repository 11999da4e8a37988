/** PHP arrays with string (or other) keys: ordered, one entry per key.
    Assigning an existing key overwrites it in place; a new key goes last. */
module PhpArray {
  import opened Wrappers

  function Keys<K, V>(a: seq<(K, V)>): (ks: seq<K>)
    ensures |ks| == |a| && forall i :: 0 <= i < |a| ==> ks[i] == a[i].0
  {
    if a == [] then [] else [a[0].0] + Keys(a[1..])
  }

  function Values<K, V>(a: seq<(K, V)>): (vs: seq<V>)
    ensures |vs| == |a| && forall i :: 0 <= i < |a| ==> vs[i] == a[i].1
  {
    if a == [] then [] else [a[0].1] + Values(a[1..])
  }

  predicate Distinct<T(==)>(s: seq<T>)
  {
    forall i, j :: 0 <= i < j < |s| ==> s[i] != s[j]
  }

  /** No key occurs twice. */
  predicate DistinctKeys<K(==,!new), V>(a: seq<(K, V)>)
  {
    a == [] || (a[0].0 !in Keys(a[1..]) && DistinctKeys(a[1..]))
  }

  /** A PHP array: no key occurs twice. */
  type Arr<K(==,!new), V> = a: seq<(K, V)> | DistinctKeys(a) witness []

  /** The value stored under key `k`, if there is one. */
  function Lookup<K(==,!new), V>(a: seq<(K, V)>, k: K): (r: Option<V>)
    ensures r.None? <==> k !in Keys(a)
  {
    if a == [] then None else if a[0].0 == k then Some(a[0].1) else Lookup(a[1..], k)
  }

  /** In an array without repeated keys, each entry is what its key looks up. */
  lemma {:induction false} LookupAt<K(!new), V>(a: seq<(K, V)>, i: nat)
    requires DistinctKeys(a) && i < |a|
    ensures Lookup(a, a[i].0) == Some(a[i].1)
  {
    if i > 0 {
      LookupAt(a[1..], i - 1);
    }
  }

  /** Array assignment: replaces the value under `k`, or appends a new entry. */
  function Put<K(==,!new), V>(a: seq<(K, V)>, k: K, v: V): (r: seq<(K, V)>)
    ensures Lookup(r, k) == Some(v)
    ensures forall g {:trigger Lookup(r, g)} :: g != k ==> Lookup(r, g) == Lookup(a, g)
    ensures DistinctKeys(a) ==> DistinctKeys(r)
  {
    if a == [] then [(k, v)]
    else if a[0].0 == k then
      var r := [(k, v)] + a[1..];
      assert r[1..] == a[1..];
      r
    else
      var t := Put(a[1..], k, v);
      var r := [a[0]] + t;
      assert r[1..] == t;
      assert Lookup(t, a[0].0) == Lookup(a[1..], a[0].0);
      r
  }

  /** An existing key keeps its place; a new one goes last. */
  lemma {:induction false} PutKeys<K(!new), V>(a: seq<(K, V)>, k: K, v: V)
    ensures Keys(Put(a, k, v)) == if k in Keys(a) then Keys(a) else Keys(a) + [k]
  {
    if a != [] && a[0].0 != k {
      PutKeys(a[1..], k, v);
      var t := Put(a[1..], k, v);
      assert Put(a, k, v) == [a[0]] + t;
      assert Keys([a[0]] + t) == [a[0].0] + Keys(t);
      assert Keys(a) == [a[0].0] + Keys(a[1..]);
    }
  }

  /** Assigning a key twice leaves only the second assignment. */
  lemma {:induction false} PutTwice<K(!new), V>(a: seq<(K, V)>, k: K, v: V, w: V)
    ensures Put(Put(a, k, v), k, w) == Put(a, k, w)
  {
    if a != [] && a[0].0 != k {
      PutTwice(a[1..], k, v, w);
      assert Put(a, k, v)[1..] == Put(a[1..], k, v);
    }
  }

  /** Removes the entry under `k`, if any. */
  function Unset<K(==,!new), V>(a: seq<(K, V)>, k: K): (r: seq<(K, V)>)
    ensures Lookup(r, k) == None
    ensures forall g {:trigger Lookup(r, g)} :: g != k ==> Lookup(r, g) == Lookup(a, g)
    ensures DistinctKeys(a) ==> DistinctKeys(r)
  {
    if a == [] then []
    else if a[0].0 == k then Unset(a[1..], k)
    else
      var t := Unset(a[1..], k);
      assert ([a[0]] + t)[1..] == t;
      assert Lookup(t, a[0].0) == Lookup(a[1..], a[0].0);
      [a[0]] + t
  }

  /** The entries whose key is in `ks`, in their original order. */
  function IntersectKeys<K(==,!new), V>(a: seq<(K, V)>, ks: seq<K>): (r: seq<(K, V)>)
    ensures forall g {:trigger Lookup(r, g)} :: Lookup(r, g) == if g in ks then Lookup(a, g) else None
    ensures DistinctKeys(a) ==> DistinctKeys(r)
  {
    if a == [] then []
    else if a[0].0 in ks then
      var t := IntersectKeys(a[1..], ks);
      assert ([a[0]] + t)[1..] == t;
      assert Lookup(t, a[0].0) == Lookup(a[1..], a[0].0);
      [a[0]] + t
    else IntersectKeys(a[1..], ks)
  }

  /** The value of the last entry for `g`, if any: what a sequence of
      assignments leaves behind. */
  function LookupLast<K(==,!new), V>(es: seq<(K, V)>, g: K): (r: Option<V>)
    ensures r.None? <==> g !in Keys(es)
  {
    if es == [] then None
    else if es[|es| - 1].0 == g then Some(es[|es| - 1].1)
    else
      assert Keys(es) == Keys(es[..|es| - 1]) + [es[|es| - 1].0];
      LookupLast(es[..|es| - 1], g)
  }

  /** Assigns each entry of `es` into `a`, in order, as a loop of array assignments does. */
  function PutAll<K(==,!new), V>(a: seq<(K, V)>, es: seq<(K, V)>): (r: seq<(K, V)>)
    ensures DistinctKeys(a) ==> DistinctKeys(r)
  {
    if es == [] then a else Put(PutAll(a, es[..|es| - 1]), es[|es| - 1].0, es[|es| - 1].1)
  }

  /** After the assignments, a key reads as its last assignment, or as before if it was not assigned. */
  lemma {:induction false} PutAllLookup<K(!new), V>(a: seq<(K, V)>, es: seq<(K, V)>)
    ensures forall g :: Lookup(PutAll(a, es), g) == if g in Keys(es) then LookupLast(es, g) else Lookup(a, g)
  {
    if es != [] {
      var front := es[..|es| - 1];
      assert Keys(es) == Keys(front) + [es[|es| - 1].0];
      PutAllLookup(a, front);
    }
  }

  /** For an array without repeated keys, the last entry for a key is its only one. */
  lemma {:induction false} LookupLastDistinct<K(!new), V>(es: seq<(K, V)>, g: K)
    requires DistinctKeys(es)
    ensures LookupLast(es, g) == Lookup(es, g)
  {
    if es != [] {
      var front, e := es[..|es| - 1], es[|es| - 1];
      assert es == front + [e];
      DistinctKeysSnoc(front, e);
      LookupLastDistinct(front, g);
      LookupDistinctSnoc(front, e, g);
    }
  }

  /** Assigning every entry of an array without repeated keys keeps each of its entries. */
  lemma PutAllDistinct<K(!new), V>(a: seq<(K, V)>, es: seq<(K, V)>)
    requires DistinctKeys(es)
    ensures forall k :: k in Keys(es) ==> Lookup(PutAll(a, es), k) == Lookup(es, k)
  {
    PutAllLookup(a, es);
    forall k | k in Keys(es) ensures LookupLast(es, k) == Lookup(es, k) {
      LookupLastDistinct(es, k);
    }
  }

  lemma {:induction false} DistinctKeysSnoc<K(!new), V>(a: seq<(K, V)>, e: (K, V))
    ensures DistinctKeys(a + [e]) <==> DistinctKeys(a) && e.0 !in Keys(a)
  {
    if a == [] {
      assert a + [e] == [e];
    } else {
      var b := a + [e];
      assert b[1..] == a[1..] + [e];
      DistinctKeysSnoc(a[1..], e);
      assert Keys(b[1..]) == Keys(a[1..]) + [e.0];
      assert Keys(a) == [a[0].0] + Keys(a[1..]);
    }
  }

  lemma {:induction false} LookupDistinctSnoc<K(!new), V>(a: seq<(K, V)>, e: (K, V), g: K)
    requires DistinctKeys(a) && e.0 !in Keys(a)
    ensures Lookup(a + [e], g) == if e.0 == g then Some(e.1) else Lookup(a, g)
  {
    if a == [] {
      assert a + [e] == [e];
    } else {
      assert (a + [e])[1..] == a[1..] + [e];
      assert Keys(a) == [a[0].0] + Keys(a[1..]);
      LookupDistinctSnoc(a[1..], e, g);
    }
  }
}
