/** Grouping a list by a key into an insertion-ordered map. */
module Grouping {
  import opened Sequences

  /** The keys in order of first occurrence. */
  function Keys<T, K(==)>(key: T -> K, s: seq<T>): seq<K> {
    if s == [] then []
    else
      var before, k := Keys(key, s[..|s| - 1]), key(s[|s| - 1]);
      if k in before then before else before + [k]
  }

  function Only<T, K(==)>(key: T -> K, k: K): T -> seq<T> {
    (x: T) => if key(x) == k then [x] else []
  }

  /** The elements with key `k`, in order. */
  function Having<T, K(==)>(key: T -> K, k: K, s: seq<T>): seq<T> {
    Gather(Only(key, k), s)
  }

  function GroupOf<T, K(==)>(key: T -> K, s: seq<T>): K -> seq<T> {
    (k: K) => Having(key, k, s)
  }

  lemma KeysNext<T, K>(key: T -> K, s: seq<T>, x: T)
    ensures Keys(key, s + [x]) == if key(x) in Keys(key, s) then Keys(key, s) else Keys(key, s) + [key(x)]
  {
    assert (s + [x])[..|s|] == s;
  }

  lemma HavingNext<T, K>(key: T -> K, k: K, s: seq<T>, x: T)
    ensures Having(key, k, s + [x]) == if key(x) == k then Having(key, k, s) + [x] else Having(key, k, s)
  {
    assert (s + [x])[..|s|] == s;
  }

  /** No key twice, and exactly those of the elements. */
  lemma {:induction false} KeysExact<T(!new), K(!new)>(key: T -> K, s: seq<T>, k: K)
    ensures NoDuplicates(Keys(key, s))
    ensures k in Keys(key, s) <==> exists x :: x in s && key(x) == k
  {
    if s != [] {
      var rest, last := s[..|s| - 1], s[|s| - 1];
      assert s == rest + [last];
      KeysExact(key, rest, k);
      assert forall x :: x in s <==> x in rest || x == last;
    }
  }

  /** The keys of a beginning come first: keys are in the order of first occurrence. */
  lemma {:induction false} KeysPrefix<T, K>(key: T -> K, s: seq<T>, n: nat)
    requires n <= |s|
    ensures Keys(key, s[..n]) <= Keys(key, s)
  {
    if n == |s| {
      assert s[..n] == s;
    } else {
      KeysPrefix(key, s[..|s| - 1], n);
      assert s[..|s| - 1][..n] == s[..n];
    }
  }

  lemma HavingMembers<T(!new), K>(key: T -> K, k: K, s: seq<T>, x: T)
    ensures x in Having(key, k, s) <==> x in s && key(x) == k
  {
    GatherMembers(Only(key, k), s, x);
  }

  lemma {:induction false} HavingNone<T(!new), K(!new)>(key: T -> K, k: K, s: seq<T>)
    requires k !in Keys(key, s)
    ensures Having(key, k, s) == []
  {
    if Having(key, k, s) != [] {
      var x := Having(key, k, s)[0];
      HavingMembers(key, k, s, x);
      KeysExact(key, s, k);
    }
  }

  lemma {:induction false} HavingAll<T, K>(key: T -> K, k: K, s: seq<T>)
    requires forall i :: 0 <= i < |s| ==> key(s[i]) == k
    ensures Having(key, k, s) == s
  {
    if s != [] {
      HavingAll(key, k, s[..|s| - 1]);
      assert s == s[..|s| - 1] + [s[|s| - 1]];
    }
  }

  /** One more element is one more in the group of its key. */
  lemma {:induction false} GroupsGrow<T(!new), K(!new)>(key: T -> K, s: seq<T>, x: T, keys: seq<K>)
    requires NoDuplicates(keys)
    ensures multiset(Gather(GroupOf(key, s + [x]), keys))
         == multiset(Gather(GroupOf(key, s), keys)) + (if key(x) in keys then multiset{x} else multiset{})
  {
    if keys != [] {
      var rest, last := keys[..|keys| - 1], keys[|keys| - 1];
      assert keys == rest + [last];
      GroupsGrow(key, s, x, rest);
      HavingNext(key, last, s, x);
    }
  }

  /** The groups hold every element once: none is lost, none is in two. */
  lemma {:induction false} GroupsPartition<T(!new), K(!new)>(key: T -> K, s: seq<T>, keys: seq<K>)
    requires NoDuplicates(keys) && forall x :: x in s ==> key(x) in keys
    ensures multiset(Gather(GroupOf(key, s), keys)) == multiset(s)
  {
    if s == [] {
      NoGroups(key, keys);
    } else {
      var rest, last := s[..|s| - 1], s[|s| - 1];
      assert s == rest + [last];
      GroupsPartition(key, rest, keys);
      GroupsGrow(key, rest, last, keys);
    }
  }

  lemma {:induction false} NoGroups<T, K>(key: T -> K, keys: seq<K>)
    ensures Gather(GroupOf(key, []), keys) == []
  {
    if keys != [] {
      NoGroups(key, keys[..|keys| - 1]);
    }
  }

  // --------------------------------------- a map filled one element at a time

  /** `keys` and `m` are an insertion-ordered map: the value of each key stands in
      relation `made` to the elements of `s` that have it. */
  ghost predicate Filled<T, K(!new), V>(key: T -> K, made: (seq<T>, V) -> bool, s: seq<T>, keys: seq<K>, m: map<K, V>) {
    && keys == Keys(key, s) && (forall k :: k in m <==> k in keys)
    && forall k :: k in m ==> made(Having(key, k, s), m[k])
  }

  lemma FilledAt<T(!new), K(!new), V>(key: T -> K, made: (seq<T>, V) -> bool, s: seq<T>, keys: seq<K>, m: map<K, V>,
                                      k: K)
    requires Filled(key, made, s, keys, m)
    ensures if k in keys then k in m && made(Having(key, k, s), m[k]) else k !in m && Having(key, k, s) == []
  {
    if k !in keys {
      HavingNone(key, k, s);
    }
  }

  lemma FilledNext<T, K(!new), V>(key: T -> K, made: (seq<T>, V) -> bool, s: seq<T>, keys: seq<K>, m: map<K, V>,
                                  x: T, v: V)
    requires Filled(key, made, s, keys, m) && made(Having(key, key(x), s) + [x], v)
    ensures Filled(key, made, s + [x], if key(x) in keys then keys else keys + [key(x)], m[key(x) := v])
  {
    KeysNext(key, s, x);
    var m' := m[key(x) := v];
    forall k | k in m' ensures made(Having(key, k, s + [x]), m'[k]) {
      HavingNext(key, k, s, x);
    }
  }

  /** `[...m.values()]`. */
  function Values<K, V>(keys: seq<K>, m: map<K, V>): (r: seq<V>)
    requires forall k :: k in keys ==> k in m
    ensures |r| == |keys|
    ensures forall i {:trigger r[i]} :: 0 <= i < |r| ==> r[i] == m[keys[i]]
  {
    seq(|keys|, i requires 0 <= i < |keys| => m[keys[i]])
  }

  /** One value per key, in order of first occurrence. */
  ghost predicate Tabled<T, K, V>(key: T -> K, made: (seq<T>, V) -> bool, s: seq<T>, values: seq<V>) {
    && |values| == |Keys(key, s)|
    && forall i {:trigger values[i]} :: 0 <= i < |values| ==> made(Having(key, Keys(key, s)[i], s), values[i])
  }

  lemma FilledValues<T, K(!new), V>(key: T -> K, made: (seq<T>, V) -> bool, s: seq<T>, keys: seq<K>, m: map<K, V>)
    requires Filled(key, made, s, keys, m)
    ensures forall k :: k in keys ==> k in m
    ensures Tabled(key, made, s, Values(keys, m))
  {
    forall i | 0 <= i < |keys| ensures made(Having(key, keys[i], s), Values(keys, m)[i]) {
      assert keys[i] in m;
    }
  }

  /** The values so far belong to the first keys. */
  ghost predicate EachMade<K, V>(made: (K, V) -> bool, keys: seq<K>, values: seq<V>) {
    |values| <= |keys| && forall i {:trigger values[i]} :: 0 <= i < |values| ==> made(keys[i], values[i])
  }

  lemma EachMadeNext<K, V>(made: (K, V) -> bool, keys: seq<K>, values: seq<V>, v: V)
    requires EachMade(made, keys, values) && |values| < |keys| && made(keys[|values|], v)
    ensures EachMade(made, keys, values + [v])
  {
  }
}
