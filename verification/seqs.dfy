/** Facts about sequences used throughout the model: distinctness and the
    "first occurrences" order that Kotlin's insertion-ordered maps keep. */
module Seqs {

  /** No element occurs twice. */
  predicate Distinct<T(==)>(s: seq<T>) {
    forall i, j :: 0 <= i < j < |s| ==> s[i] != s[j]
  }

  /** The elements of `s`, each once, in the order of their first occurrence. */
  function Dedup<T(==)>(s: seq<T>): (r: seq<T>)
    ensures Distinct(r)
    ensures |r| <= |s|
  {
    if |s| == 0 then []
    else
      var init := Dedup(s[..|s| - 1]);
      if s[|s| - 1] in init then init else init + [s[|s| - 1]]
  }

  /** Deduplication keeps every element and adds none. */
  lemma {:induction false} DedupMembers<T>(s: seq<T>)
    ensures forall x :: x in Dedup(s) <==> x in s
  {
    if |s| > 0 {
      var init := s[..|s| - 1];
      DedupMembers(init);
      assert s == init + [s[|s| - 1]];
    }
  }

  lemma DedupMember<T>(s: seq<T>, x: T)
    ensures x in Dedup(s) <==> x in s
  {
    DedupMembers(s);
  }

  lemma DedupElement<T>(s: seq<T>, i: nat)
    requires i < |Dedup(s)|
    ensures Dedup(s)[i] in s
  {
    DedupMembers(s);
    assert Dedup(s)[i] in Dedup(s);
  }

  /** Deduplicating one more element appends it if it is new. */
  lemma DedupSnoc<T>(xs: seq<T>, x: T)
    ensures Dedup(xs + [x]) == Dedup(xs) + (if x in xs then [] else [x])
  {
    DedupMembers(xs);
    assert (xs + [x])[..|xs + [x]| - 1] == xs;
  }

  /** `x` comes before `y` in `Dedup(s)` exactly when its first occurrence in
      `s` comes before that of `y`. */
  lemma {:induction false} DedupOrder<T>(s: seq<T>, i: nat, j: nat)
    requires i < j < |Dedup(s)|
    ensures Dedup(s)[i] in s && Dedup(s)[j] in s
    ensures FirstIndex(s, Dedup(s)[i]) < FirstIndex(s, Dedup(s)[j])
  {
    DedupMembers(s);
    assert |s| > 0;
    var init := s[..|s| - 1];
    var last := s[|s| - 1];
    var d := Dedup(init);
    assert Dedup(s)[i] == d[i];
    DedupElement(init, i);
    FirstIndexPrefix(s, Dedup(s)[i]);
    if j < |d| {
      DedupOrder(init, i, j);
      FirstIndexPrefix(s, Dedup(s)[j]);
    } else {
      DedupMember(init, last);
      assert Dedup(s)[j] == last && last !in init;
      assert Dedup(s)[i] in init;
      FirstIndexBound(init, Dedup(s)[i]);
      FirstIndexLast(s);
    }
  }

  /** The position of the first occurrence of `x` in `s`. */
  function FirstIndex<T(==)>(s: seq<T>, x: T): (k: nat)
    requires x in s
    ensures k < |s| && s[k] == x
    ensures forall i :: 0 <= i < k ==> s[i] != x
  {
    if s[0] == x then 0 else 1 + FirstIndex(s[1..], x)
  }

  lemma FirstIndexBound<T>(s: seq<T>, x: T)
    requires x in s
    ensures FirstIndex(s, x) < |s|
  {
  }

  /** A first occurrence inside the prefix `s[..|s|-1]` is also the first
      occurrence in `s`. */
  lemma FirstIndexPrefix<T>(s: seq<T>, x: T)
    requires |s| > 0 && x in s[..|s| - 1]
    ensures FirstIndex(s, x) == FirstIndex(s[..|s| - 1], x)
  {
    var k := FirstIndex(s[..|s| - 1], x);
    assert s[k] == x;
    var k' := FirstIndex(s, x);
    assert k' <= k;
    assert s[..|s| - 1][k'] == x;
  }

  /** An element that only occurs last has its first occurrence at the end. */
  lemma FirstIndexLast<T>(s: seq<T>)
    requires |s| > 0 && s[|s| - 1] !in s[..|s| - 1]
    ensures FirstIndex(s, s[|s| - 1]) == |s| - 1
  {
  }

  /** Indexing past the first part of a concatenation reads the second. */
  lemma AppendIndex<T>(a: seq<T>, b: seq<T>, m: int)
    requires 0 <= m < |b|
    ensures (a + b)[|a| + m] == b[m]
  {
  }

  /** Appending an element not yet present keeps a sequence distinct. */
  lemma DistinctSnoc<T>(s: seq<T>, x: T)
    requires Distinct(s) && x !in s
    ensures Distinct(s + [x])
  {
    var t := s + [x];
    forall i, j | 0 <= i < j < |t|
      ensures t[i] != t[j]
    {
      if j == |s| {
        assert t[i] == s[i];
      }
    }
  }
}
