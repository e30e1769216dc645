/** Grouping a list by a key into a dictionary filled in place: for each
    element, create its group on first sight and push the element onto it.
    JavaScript objects list their keys in insertion order, so the keys are
    kept as a list beside the map. */
module Grouping {
  import opened Seqs

  /** The elements whose key is `k`, in list order. */
  function Group<T, K(==)>(xs: seq<T>, key: T -> K, k: K): (r: seq<T>)
    ensures |r| <= |xs|
  {
    if xs == [] then []
    else
      var last := xs[|xs| - 1];
      Group(xs[..|xs| - 1], key, k) + (if key(last) == k then [last] else [])
  }

  /** The groups for `ks`, one after the other. */
  function Gather<T, K(==)>(xs: seq<T>, key: T -> K, ks: seq<K>): seq<T> {
    if ks == [] then [] else Group(xs, key, ks[0]) + Gather(xs, key, ks[1..])
  }

  lemma GroupSnoc<T, K(!new)>(xs: seq<T>, x: T, key: T -> K, k: K)
    ensures Group(xs + [x], key, k) == Group(xs, key, k) + (if key(x) == k then [x] else [])
  {
    var s := xs + [x];
    assert s[..|s| - 1] == xs;
  }

  /** A group holds exactly the elements with its key. */
  lemma {:induction false} GroupMembers<T, K(!new)>(xs: seq<T>, key: T -> K, k: K, x: T)
    ensures x in Group(xs, key, k) <==> x in xs && key(x) == k
    decreases |xs|
  {
    if xs != [] {
      var p := xs[..|xs| - 1];
      GroupMembers(p, key, k, x);
      assert xs == p + [xs[|xs| - 1]];
    }
  }

  /** Grouping keeps the relative order of the elements inside each group:
      the group of a concatenation is the concatenation of the groups. */
  lemma {:induction false} GroupConcat<T, K(!new)>(a: seq<T>, b: seq<T>, key: T -> K, k: K)
    ensures Group(a + b, key, k) == Group(a, key, k) + Group(b, key, k)
    decreases |b|
  {
    if b == [] {
      assert a + b == a;
    } else {
      var b' := b[..|b| - 1];
      assert (a + b)[..|a + b| - 1] == a + b';
      GroupConcat(a, b', key, k);
    }
  }

  lemma {:induction false} GatherSnoc<T, K(!new)>(xs: seq<T>, x: T, key: T -> K, ks: seq<K>)
    requires Distinct(ks)
    ensures multiset(Gather(xs + [x], key, ks))
         == multiset(Gather(xs, key, ks)) + (if key(x) in ks then multiset{x} else multiset{})
    decreases |ks|
  {
    if ks != [] {
      GroupSnoc(xs, x, key, ks[0]);
      assert Distinct(ks[1..]);
      GatherSnoc(xs, x, key, ks[1..]);
      assert ks[0] !in ks[1..];
    }
  }

  lemma {:induction false} GatherOfEmpty<T, K(!new)>(key: T -> K, ks: seq<K>)
    ensures Gather([], key, ks) == []
    decreases |ks|
  {
    if ks != [] {
      GatherOfEmpty(key, ks[1..]);
    }
  }

  lemma {:induction false} GatherCoversAll<T, K(!new)>(xs: seq<T>, key: T -> K, ks: seq<K>)
    requires Distinct(ks)
    requires forall i :: 0 <= i < |xs| ==> key(xs[i]) in ks
    ensures multiset(Gather(xs, key, ks)) == multiset(xs)
    decreases |xs|
  {
    if xs == [] {
      GatherOfEmpty(key, ks);
    } else {
      var p := xs[..|xs| - 1];
      var x := xs[|xs| - 1];
      assert xs == p + [x];
      assert key(x) in ks;
      GatherCoversAll(p, key, ks);
      GatherSnoc(p, x, key, ks);
    }
  }

  /** Every element falls in exactly one group: listing the groups in key
      order yields the elements again, each as often as in the input. */
  lemma GroupsPartition<T, K(!new)>(xs: seq<T>, key: T -> K)
    ensures multiset(Gather(xs, key, DistinctKeys(xs, key))) == multiset(xs)
  {
    DistinctKeysSpec(xs, key);
    GatherCoversAll(xs, key, DistinctKeys(xs, key));
  }

  /** What the dictionary holds after the elements of `done`. */
  ghost predicate GroupedSoFar<T, K(!new)>(done: seq<T>, key: T -> K, ks: seq<K>, groups: map<K, seq<T>>) {
    && ks == DistinctKeys(done, key)
    && (forall k :: k in groups <==> k in ks)
    && (forall k :: k in groups ==> groups[k] == Group(done, key, k))
  }

  lemma GroupOfNewKey<T, K(!new)>(done: seq<T>, key: T -> K, k: K)
    requires k !in DistinctKeys(done, key)
    ensures Group(done, key, k) == []
  {
    var r := Group(done, key, k);
    if r != [] {
      GroupMembers(done, key, k, r[0]);
      DistinctKeysSpec(done, key);
      assert false;
    }
  }

  lemma GroupStepAt<T, K(!new)>(done: seq<T>, x: T, key: T -> K,
                               groups: map<K, seq<T>>, groups': map<K, seq<T>>, k: K)
    requires forall k :: k in groups <==> k in DistinctKeys(done, key)
    requires forall k :: k in groups ==> groups[k] == Group(done, key, k)
    requires key(x) in groups ==> groups' == groups[key(x) := groups[key(x)] + [x]]
    requires key(x) !in groups ==> groups' == groups[key(x) := [x]]
    requires k in groups'
    ensures groups'[k] == Group(done + [x], key, k)
  {
    GroupSnoc(done, x, key, k);
    if k != key(x) {
      assert groups'[k] == groups[k];
    } else if k in groups {
      assert groups'[k] == groups[k] + [x];
    } else {
      GroupOfNewKey(done, key, k);
      assert groups'[k] == [x];
    }
  }

  /** One push onto the dictionary keeps it in step with the elements seen. */
  lemma GroupStep<T, K(!new)>(done: seq<T>, x: T, key: T -> K,
                             ks: seq<K>, groups: map<K, seq<T>>,
                             ks': seq<K>, groups': map<K, seq<T>>)
    requires GroupedSoFar(done, key, ks, groups)
    requires ks' == if key(x) in groups then ks else ks + [key(x)]
    requires key(x) in groups ==> groups' == groups[key(x) := groups[key(x)] + [x]]
    requires key(x) !in groups ==> groups' == groups[key(x) := [x]]
    ensures GroupedSoFar(done + [x], key, ks', groups')
  {
    DistinctKeysSnoc(done, x, key);
    forall k | k in groups'
      ensures groups'[k] == Group(done + [x], key, k)
    {
      GroupStepAt(done, x, key, groups, groups', k);
    }
  }

  lemma PrefixSnoc<T>(xs: seq<T>, i: nat)
    requires i < |xs|
    ensures xs[..i + 1] == xs[..i] + [xs[i]]
  {
  }

  /** The grouping loop. */
  method GroupBy<T, K(==,!new)>(xs: seq<T>, key: T -> K) returns (ks: seq<K>, groups: map<K, seq<T>>)
    ensures ks == DistinctKeys(xs, key)
    ensures forall k :: k in groups <==> k in ks
    ensures forall k :: k in groups ==> groups[k] == Group(xs, key, k)
  {
    ks, groups := [], map[];
    var i := 0;
    while i < |xs|
      invariant 0 <= i <= |xs|
      invariant GroupedSoFar(xs[..i], key, ks, groups)
    {
      var x, c := xs[i], key(xs[i]);
      var ks', groups';
      if c in groups {
        ks', groups' := ks, groups[c := groups[c] + [x]];
      } else {
        ks', groups' := ks + [c], groups[c := [x]];
      }
      GroupStep(xs[..i], x, key, ks, groups, ks', groups');
      PrefixSnoc(xs, i);
      ks, groups := ks', groups';
      i := i + 1;
    }
    assert xs[..i] == xs;
  }
}
