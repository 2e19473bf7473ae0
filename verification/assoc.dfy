/** Kotlin's `mapOf`, `mutableMapOf` and `associate` build LinkedHashMaps,
    which iterate in insertion order; putting an existing key replaces its
    value in place. This module models such a map as a list of entries. */
module AssocLists {
  import opened Wrappers
  import opened Seqs

  /** An insertion-ordered map. */
  type AssocList<K, V> = seq<(K, V)>

  /** The keys, in iteration order. */
  function Keys<K, V>(m: AssocList<K, V>): (ks: seq<K>)
    ensures |ks| == |m|
    ensures forall i :: 0 <= i < |m| ==> ks[i] == m[i].0
  {
    if |m| == 0 then [] else [m[0].0] + Keys(m[1..])
  }

  /** Every key occurs once, as in any map. */
  predicate WellFormed<K(==), V>(m: AssocList<K, V>) {
    Distinct(Keys(m))
  }

  /** Lookup: `m[k]`, or absent. */
  function Get<K(==), V>(m: AssocList<K, V>, k: K): (r: Option<V>)
    ensures r.None? <==> k !in Keys(m)
    ensures r.Some? ==> exists i :: 0 <= i < |m| && m[i] == (k, r.value)
    ensures WellFormed(m) ==> forall i :: 0 <= i < |m| && m[i].0 == k ==> r == Some(m[i].1)
  {
    if |m| == 0 then None
    else if m[0].0 == k then Some(m[0].1)
    else
      assert WellFormed(m) ==> WellFormed(m[1..]) by {
        assert forall i :: 0 <= i < |m| - 1 ==> Keys(m[1..])[i] == Keys(m)[i + 1];
      }
      Get(m[1..], k)
  }

  /** `m[k] = v`: an existing key keeps its position and takes the new value;
      a new key is appended. */
  function Put<K(==, !new), V>(m: AssocList<K, V>, k: K, v: V): (r: AssocList<K, V>)
    ensures Keys(r) == if k in Keys(m) then Keys(m) else Keys(m) + [k]
    ensures Get(r, k) == Some(v)
    ensures forall k' :: k' != k ==> Get(r, k') == Get(m, k')
  {
    if |m| == 0 then [(k, v)]
    else
      var head := if m[0].0 == k then (k, v) else m[0];
      var rest := if m[0].0 == k then m[1..] else Put(m[1..], k, v);
      assert m == [m[0]] + m[1..];
      if m[0].0 == k then
        ConsKeys(m[0], m[1..]);
        ConsKeys(head, rest);
        ConsGet(head, rest, k);
        ConsOthers(m[0], head, m[1..], rest, k);
        [head] + rest
      else
        ConsKeysPut(m[0], m[1..], rest, k);
        ConsGet(head, rest, k);
        ConsOthers(m[0], head, m[1..], rest, k);
        [head] + rest
  }

  /** Putting a key other than the first entry's into the rest of a map puts
      it into the whole map, as far as the keys go. */
  lemma ConsKeysPut<K, V>(x: (K, V), tail: AssocList<K, V>, rest: AssocList<K, V>, k: K)
    requires x.0 != k
    requires Keys(rest) == if k in Keys(tail) then Keys(tail) else Keys(tail) + [k]
    ensures Keys([x] + rest) == if k in Keys([x] + tail) then Keys([x] + tail) else Keys([x] + tail) + [k]
  {
    ConsKeys(x, tail);
    ConsKeys(x, rest);
    var ks := Keys(tail);
    assert k in [x.0] + ks <==> k in ks;
    if k !in ks {
      assert [x.0] + (ks + [k]) == ([x.0] + ks) + [k];
    }
  }

  /** A first entry with the same key in front of two maps that agree on
      every key but `k` gives two maps that agree on every key but `k`. */
  lemma ConsOthers<K, V>(x: (K, V), y: (K, V), tail: AssocList<K, V>, rest: AssocList<K, V>, k: K)
    requires x.0 == y.0
    requires x.0 != k ==> x == y
    requires forall k' :: k' != k ==> Get(rest, k') == Get(tail, k')
    ensures forall k' :: k' != k ==> Get([y] + rest, k') == Get([x] + tail, k')
  {
    forall k' | k' != k
      ensures Get([y] + rest, k') == Get([x] + tail, k')
    {
      ConsGet(y, rest, k');
      ConsGet(x, tail, k');
    }
  }

  /** The keys of a map with a first entry. */
  lemma ConsKeys<K, V>(x: (K, V), rest: AssocList<K, V>)
    ensures Keys([x] + rest) == [x.0] + Keys(rest)
  {
    assert ([x] + rest)[1..] == rest;
  }

  /** Lookup in a map with a first entry. */
  lemma ConsGet<K, V>(x: (K, V), rest: AssocList<K, V>, k: K)
    ensures Get([x] + rest, k) == if x.0 == k then Some(x.1) else Get(rest, k)
  {
    assert ([x] + rest)[1..] == rest;
  }

  /** Putting into a map keeps it a map. */
  lemma PutWellFormed<K(!new), V>(m: AssocList<K, V>, k: K, v: V)
    requires WellFormed(m)
    ensures WellFormed(Put(m, k, v))
  {
    if k !in Keys(m) {
      DistinctSnoc(Keys(m), k);
    }
  }
}
