/** A JavaScript `Map`: key/value entries kept in insertion order. `set` on a
    present key replaces the value in place, `set` on a new key appends, and
    `delete` removes the entry. Keys are distinct in every map built with these
    operations. */
module OrderedMap {
  import opened Wrappers

  function Keys<K, V>(m: seq<(K, V)>): (ks: seq<K>)
    ensures |ks| == |m|
    ensures forall i :: 0 <= i < |m| ==> ks[i] == m[i].0
  {
    if m == [] then [] else [m[0].0] + Keys(m[1..])
  }

  predicate Distinct<K(==,!new)>(ks: seq<K>) {
    forall i, j :: 0 <= i < j < |ks| ==> ks[i] != ks[j]
  }

  predicate Valid<K(==,!new), V>(m: seq<(K, V)>) {
    Distinct(Keys(m))
  }

  function Empty<K, V>(): (m: seq<(K, V)>)
    ensures |m| == 0
  {
    []
  }

  predicate Has<K(==,!new), V>(m: seq<(K, V)>, k: K) {
    k in Keys(m)
  }

  /** `map.get(k)`: the value stored under k, if any. */
  function Get<K(==,!new), V>(m: seq<(K, V)>, k: K): (r: Option<V>)
    ensures r.Some? <==> Has(m, k)
    ensures r.Some? ==> (k, r.value) in m
  {
    if m == [] then None
    else if m[0].0 == k then Some(m[0].1)
    else Get(m[1..], k)
  }

  /** In a valid map the entry at position i is what `get` finds for its key. */
  lemma {:induction false} GetAt<K(!new), V>(m: seq<(K, V)>, i: nat)
    requires Valid(m) && i < |m|
    ensures Get(m, m[i].0) == Some(m[i].1)
  {
    if i > 0 {
      assert Keys(m)[0] != Keys(m)[i];
      assert Valid(m[1..]) by {
        forall a, b | 0 <= a < b < |m[1..]| ensures Keys(m[1..])[a] != Keys(m[1..])[b] {
          assert Keys(m)[a + 1] != Keys(m)[b + 1];
        }
      }
      GetAt(m[1..], i - 1);
    }
  }

  /** `map.set(k, v)`. */
  function Set<K(==,!new), V>(m: seq<(K, V)>, k: K, v: V): (r: seq<(K, V)>)
    ensures Get(r, k) == Some(v)
    ensures forall k' :: k' != k ==> Get(r, k') == Get(m, k')
    ensures Keys(r) == if Has(m, k) then Keys(m) else Keys(m) + [k]
  {
    if m == [] then
      SetEmpty(m, k, v);
      [(k, v)]
    else if m[0].0 == k then
      SetHead(m, k, v);
      [(k, v)] + m[1..]
    else
      var rest := Set(m[1..], k, v);
      SetBehind(m[0], m[1..], rest, k, v);
      assert m == [m[0]] + m[1..];
      [m[0]] + rest
  }

  lemma GetCons<K(!new), V>(x: (K, V), rest: seq<(K, V)>, k: K)
    ensures Get([x] + rest, k) == if x.0 == k then Some(x.1) else Get(rest, k)
  {
    assert ([x] + rest)[1..] == rest;
  }

  /** `set` on an empty map makes a one-entry map. */
  lemma SetEmpty<K(!new), V>(m: seq<(K, V)>, k: K, v: V)
    requires m == []
    ensures Get([(k, v)], k) == Some(v)
    ensures forall k' :: k' != k ==> Get([(k, v)], k') == Get(m, k')
    ensures !Has(m, k) && Keys([(k, v)]) == Keys(m) + [k]
  {
    assert [(k, v)][1..] == [];
  }

  /** `set` on the first key replaces its entry in place. */
  lemma SetHead<K(!new), V>(m: seq<(K, V)>, k: K, v: V)
    requires m != [] && m[0].0 == k
    ensures Get([(k, v)] + m[1..], k) == Some(v)
    ensures forall k' :: k' != k ==> Get([(k, v)] + m[1..], k') == Get(m, k')
    ensures Has(m, k) && Keys([(k, v)] + m[1..]) == Keys(m)
  {
    assert m == [m[0]] + m[1..];
    GetCons((k, v), m[1..], k);
    forall k' | k' != k
      ensures Get([(k, v)] + m[1..], k') == Get(m, k')
    {
      GetCons((k, v), m[1..], k');
      GetCons(m[0], m[1..], k');
    }
    assert ([(k, v)] + m[1..])[1..] == m[1..];
  }

  /** `set` on a later key leaves the first entry in front of the updated
      rest. */
  lemma SetBehind<K(!new), V>(x: (K, V), rest: seq<(K, V)>, rest': seq<(K, V)>, k: K, v: V)
    requires x.0 != k
    requires Get(rest', k) == Some(v)
    requires forall k' :: k' != k ==> Get(rest', k') == Get(rest, k')
    requires Keys(rest') == if Has(rest, k) then Keys(rest) else Keys(rest) + [k]
    ensures Get([x] + rest', k) == Some(v)
    ensures forall k' :: k' != k ==> Get([x] + rest', k') == Get([x] + rest, k')
    ensures Keys([x] + rest') == if Has([x] + rest, k) then Keys([x] + rest) else Keys([x] + rest) + [k]
  {
    GetCons(x, rest', k);
    forall k' | k' != k
      ensures Get([x] + rest', k') == Get([x] + rest, k')
    {
      GetCons(x, rest', k');
      GetCons(x, rest, k');
    }
    assert ([x] + rest')[1..] == rest' && ([x] + rest)[1..] == rest;
    assert Keys([x] + rest') == [x.0] + Keys(rest');
    assert Keys([x] + rest) == [x.0] + Keys(rest);
    assert Has([x] + rest, k) <==> Has(rest, k);
  }

  lemma SetValid<K(!new), V>(m: seq<(K, V)>, k: K, v: V)
    requires Valid(m)
    ensures Valid(Set(m, k, v))
  {
    var ks := Keys(m);
    if !Has(m, k) {
      forall i, j | 0 <= i < j < |ks + [k]| ensures (ks + [k])[i] != (ks + [k])[j] {
        if j == |ks| { assert (ks + [k])[i] == ks[i]; }
      }
    }
  }

  /** `map.delete(k)`. */
  function Delete<K(==,!new), V>(m: seq<(K, V)>, k: K): (r: seq<(K, V)>)
    ensures !Has(r, k)
    ensures forall k' :: k' != k ==> Get(r, k') == Get(m, k')
    ensures !Has(m, k) ==> r == m
  {
    if m == [] then []
    else if m[0].0 == k then Delete(m[1..], k)
    else
      var rest := Delete(m[1..], k);
      assert Keys([m[0]] + rest) == [m[0].0] + Keys(rest);
      assert m == [m[0]] + m[1..];
      [m[0]] + rest
  }

  /** Deleting keeps the remaining entries in their order, so it keeps keys
      distinct, and in a valid map it removes exactly one entry when the key
      is present. */
  lemma {:induction false} DeleteValid<K(!new), V>(m: seq<(K, V)>, k: K)
    requires Valid(m)
    ensures Valid(Delete(m, k))
    ensures Has(m, k) ==> |Delete(m, k)| == |m| - 1
    ensures forall x :: x in Delete(m, k) ==> x in m
  {
    if m != [] {
      assert Valid(m[1..]) by {
        forall a, b | 0 <= a < b < |m[1..]| ensures Keys(m[1..])[a] != Keys(m[1..])[b] {
          assert Keys(m)[a + 1] != Keys(m)[b + 1];
        }
      }
      assert m[0].0 !in Keys(m[1..]) by {
        forall j | 0 <= j < |m[1..]| ensures Keys(m[1..])[j] != m[0].0 {
          assert Keys(m)[0] != Keys(m)[j + 1];
        }
      }
      DeleteValid(m[1..], k);
      if m[0].0 != k {
        var rest := Delete(m[1..], k);
        assert Keys([m[0]] + rest) == [m[0].0] + Keys(rest);
        forall j | 0 <= j < |rest| ensures Keys(rest)[j] != m[0].0 {
          assert rest[j] in m[1..];
        }
      }
    }
  }

  /** Deleting the first key of a valid map drops exactly its first entry. */
  lemma DeleteFirst<K(!new), V>(m: seq<(K, V)>)
    requires Valid(m) && m != []
    ensures Delete(m, m[0].0) == m[1..]
  {
    assert m[0].0 !in Keys(m[1..]) by {
      forall j | 0 <= j < |m[1..]| ensures Keys(m[1..])[j] != m[0].0 {
        assert Keys(m)[0] != Keys(m)[j + 1];
      }
    }
  }

  /** `set` applied to each entry in turn (`new Map(entries)`, object
      spread, a loop of `set` calls). */
  function SetAll<K(==,!new), V>(m: seq<(K, V)>, es: seq<(K, V)>): seq<(K, V)> {
    if es == [] then m
    else Set(SetAll(m, es[..|es| - 1]), es[|es| - 1].0, es[|es| - 1].1)
  }

  /** The value of the last entry with key k. */
  function LastValue<K(==), V>(es: seq<(K, V)>, k: K): Option<V> {
    if es == [] then None
    else if es[|es| - 1].0 == k then Some(es[|es| - 1].1)
    else LastValue(es[..|es| - 1], k)
  }

  /** After setting all entries, a key holds its last value in the entries,
      or its old value when no entry has it. */
  lemma {:induction false} SetAllGet<K(!new), V>(m: seq<(K, V)>, es: seq<(K, V)>, k: K)
    ensures Get(SetAll(m, es), k) == if LastValue(es, k).Some? then LastValue(es, k) else Get(m, k)
  {
    if es != [] {
      SetAllGet(m, es[..|es| - 1], k);
    }
  }

  lemma {:induction false} SetAllValid<K(!new), V>(m: seq<(K, V)>, es: seq<(K, V)>)
    requires Valid(m)
    ensures Valid(SetAll(m, es))
  {
    if es != [] {
      SetAllValid(m, es[..|es| - 1]);
      SetValid(SetAll(m, es[..|es| - 1]), es[|es| - 1].0, es[|es| - 1].1);
    }
  }
}
