/** De-duplication in first-occurrence order: what `[...new Set(xs)]` yields
    and the order in which keys enter a JavaScript object. */
module Seqs {

  predicate Distinct<T(==,!new)>(s: seq<T>) {
    forall i, j :: 0 <= i < j < |s| ==> s[i] != s[j]
  }

  lemma Assoc<T>(a: seq<T>, b: seq<T>, c: seq<T>)
    ensures (a + b) + c == a + (b + c)
  {
  }

  lemma ConsSplit<T>(p: seq<T>, t: seq<T>)
    requires p != []
    ensures p + t == [p[0]] + (p[1..] + t)
  {
    assert p == [p[0]] + p[1..];
  }

  /** The elements of `s`, each once, in the order of their first occurrence. */
  function Dedup<T(==,!new)>(s: seq<T>): (r: seq<T>)
    ensures Distinct(r)
    ensures forall x :: x in r <==> x in s
    ensures |r| <= |s|
  {
    if s == [] then []
    else
      var r := Dedup(s[..|s| - 1]);
      if s[|s| - 1] in r then r else r + [s[|s| - 1]]
  }

  /** Index of the first occurrence of `x` in `s`. */
  function FirstIndex<T(==,!new)>(s: seq<T>, x: T): (k: nat)
    requires x in s
    ensures k < |s| && s[k] == x
    ensures forall j :: 0 <= j < k ==> s[j] != x
  {
    if s[0] == x then 0 else 1 + FirstIndex(s[1..], x)
  }

  lemma FirstIndexOfPrefix<T(!new)>(s: seq<T>, x: T, n: nat)
    requires n <= |s| && x in s[..n]
    ensures x in s && FirstIndex(s, x) == FirstIndex(s[..n], x)
  {
    var k := FirstIndex(s[..n], x);
    assert s[k] == x;
    var f := FirstIndex(s, x);
    assert f <= k;
    assert s[..n][f] == x;
  }

  /** The elements of `Dedup(s)` come in the order in which they first occur
      in `s`. */
  lemma {:induction false} DedupFirstOccurrenceOrder<T(!new)>(s: seq<T>, i: nat, j: nat)
    requires i < j < |Dedup(s)|
    ensures Dedup(s)[i] in s && Dedup(s)[j] in s
    ensures FirstIndex(s, Dedup(s)[i]) < FirstIndex(s, Dedup(s)[j])
    decreases |s|
  {
    var r := Dedup(s);
    assert r[i] in r && r[j] in r;
    var p := s[..|s| - 1];
    var rp := Dedup(p);
    if j < |rp| {
      assert r[i] == rp[i] && r[j] == rp[j];
      DedupFirstOccurrenceOrder(p, i, j);
      FirstIndexOfPrefix(s, rp[i], |s| - 1);
      FirstIndexOfPrefix(s, rp[j], |s| - 1);
      assert FirstIndex(s, r[i]) == FirstIndex(p, rp[i]);
      assert FirstIndex(s, r[j]) == FirstIndex(p, rp[j]);
    } else {
      DedupNewLast(s, i);
      assert r[j] == s[|s| - 1];
    }
  }

  /** An element that first occurs last comes after every earlier one. */
  lemma DedupNewLast<T(!new)>(s: seq<T>, i: nat)
    requires s != [] && i < |Dedup(s[..|s| - 1])| < |Dedup(s)|
    ensures Dedup(s)[i] in s && s[|s| - 1] in s
    ensures Dedup(s)[i] == Dedup(s[..|s| - 1])[i]
    ensures FirstIndex(s, Dedup(s)[i]) < FirstIndex(s, s[|s| - 1])
  {
    var p := s[..|s| - 1];
    var rp := Dedup(p);
    var last := s[|s| - 1];
    assert rp[i] in rp;
    FirstIndexOfPrefix(s, rp[i], |s| - 1);
    assert last !in p;
    assert FirstIndex(s, last) == |s| - 1;
  }

  /** A list without repetitions is its own de-duplication. */
  lemma {:induction false} DedupOfDistinct<T(!new)>(s: seq<T>)
    requires Distinct(s)
    ensures Dedup(s) == s
  {
    if s != [] {
      var p := s[..|s| - 1];
      assert Distinct(p);
      DedupOfDistinct(p);
      assert s[|s| - 1] !in p;
      assert s == p + [s[|s| - 1]];
    }
  }

  /** De-duplicating twice is de-duplicating once. */
  lemma DedupIdempotent<T(!new)>(s: seq<T>)
    ensures Dedup(Dedup(s)) == Dedup(s)
  {
    DedupOfDistinct(Dedup(s));
  }

  /** The keys of `xs`, each once, in the order in which they are first
      seen. */
  function DistinctKeys<T, K(==)>(xs: seq<T>, key: T -> K): (ks: seq<K>)
    ensures |ks| <= |xs|
  {
    if xs == [] then []
    else
      var ks := DistinctKeys(xs[..|xs| - 1], key);
      var c := key(xs[|xs| - 1]);
      if c in ks then ks else ks + [c]
  }

  /** The key of every element, in list order: `xs.map(key)`. */
  function KeysOf<T, K>(xs: seq<T>, key: T -> K): (r: seq<K>)
    ensures |r| == |xs|
  {
    seq(|xs|, i requires 0 <= i < |xs| => key(xs[i]))
  }

  /** The keys are the elements' keys, each once, in the order of their
      first occurrence. */
  lemma {:induction false} DistinctKeysAreDedup<T, K(!new)>(xs: seq<T>, key: T -> K)
    ensures DistinctKeys(xs, key) == Dedup(KeysOf(xs, key))
    decreases |xs|
  {
    if xs != [] {
      var p := xs[..|xs| - 1];
      DistinctKeysAreDedup(p, key);
      var cs := KeysOf(xs, key);
      assert cs[..|cs| - 1] == KeysOf(p, key);
    }
  }

  /** No key twice, the key of every element among them, and every one of
      them the key of some element. */
  lemma DistinctKeysSpec<T, K(!new)>(xs: seq<T>, key: T -> K)
    ensures Distinct(DistinctKeys(xs, key))
    ensures forall i :: 0 <= i < |xs| ==> key(xs[i]) in DistinctKeys(xs, key)
    ensures forall k :: k in DistinctKeys(xs, key) ==> exists i :: 0 <= i < |xs| && key(xs[i]) == k
  {
    DistinctKeysAreDedup(xs, key);
    forall i | 0 <= i < |xs|
      ensures key(xs[i]) in DistinctKeys(xs, key)
    {
      KeyOfElement(xs, key, i);
    }
    forall k | k in DistinctKeys(xs, key)
      ensures exists i :: 0 <= i < |xs| && key(xs[i]) == k
    {
      ElementOfKey(xs, key, k);
    }
  }

  lemma KeyOfElement<T, K(!new)>(xs: seq<T>, key: T -> K, i: nat)
    requires i < |xs|
    ensures key(xs[i]) in Dedup(KeysOf(xs, key))
  {
    var cs := KeysOf(xs, key);
    assert cs[i] in cs;
  }

  lemma ElementOfKey<T, K(!new)>(xs: seq<T>, key: T -> K, k: K)
    requires k in Dedup(KeysOf(xs, key))
    ensures exists i :: 0 <= i < |xs| && key(xs[i]) == k
  {
    var cs := KeysOf(xs, key);
    var i :| 0 <= i < |cs| && cs[i] == k;
  }

  /** One more element: its key joins the keys at the end if it is new. */
  lemma DistinctKeysSnoc<T, K(!new)>(xs: seq<T>, x: T, key: T -> K)
    ensures DistinctKeys(xs + [x], key)
         == var ks := DistinctKeys(xs, key);
            if key(x) in ks then ks else ks + [key(x)]
  {
    var s := xs + [x];
    assert s[..|s| - 1] == xs;
  }
}
