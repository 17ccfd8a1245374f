/** Resolving agents to revisions once per plan (itk_runner.py, lines 235-268). */
module Planning {
  import opened Wrappers
  import opened Sequences

  type Key = (string, string)  // repository, ref

  datatype Spec = Mount | Checkout(repo: string, sha: string)

  /** The matrix: agent ids to repository and ref. */
  type Matrix = map<string, Key>

  /** `git ls-remote`, answering as it likes each time it is asked; `None` where
      it raises. */
  type Resolver = (nat, Key) -> Option<string>

  const SUT_ID := "current"

  /** The key an id is checked out at: none for the SUT. */
  function KeyOf(matrix: Matrix): string -> Option<Key> {
    (id: string) => if id == SUT_ID || id !in matrix then None else Some(matrix[id])
  }

  ghost predicate AllKnown(ids: seq<string>, matrix: Matrix) {
    forall i :: 0 <= i < |ids| ==> ids[i] == SUT_ID || ids[i] in matrix
  }

  /** The keys of some ids, each where it first occurs. */
  function FirstKeys(ids: seq<string>, matrix: Matrix): seq<Key> {
    if ids == [] then []
    else
      var before, key := FirstKeys(ids[..|ids| - 1], matrix), KeyOf(matrix)(ids[|ids| - 1]);
      if key.None? || key.value in before then before else before + [key.value]
  }

  lemma {:induction false} FirstKeysExact(ids: seq<string>, matrix: Matrix, key: Key)
    ensures NoDuplicates(FirstKeys(ids, matrix))
    ensures key in FirstKeys(ids, matrix) <==> exists id :: id in ids && KeyOf(matrix)(id) == Some(key)
  {
    if ids != [] {
      var rest, last := ids[..|ids| - 1], ids[|ids| - 1];
      FirstKeysExact(rest, matrix, key);
      assert ids == rest + [last];
    }
  }

  lemma {:induction false} FirstKeysPrefix(ids: seq<string>, matrix: Matrix, n: nat)
    requires n <= |ids|
    ensures FirstKeys(ids[..n], matrix) <= FirstKeys(ids, matrix)
  {
    if n == |ids| {
      assert ids[..n] == ids;
    } else {
      FirstKeysPrefix(ids[..|ids| - 1], matrix, n);
      assert ids[..|ids| - 1][..n] == ids[..n];
    }
  }

  /** The answers given, one per key asked for, in order. */
  ghost predicate Cached(cache: map<Key, string>, calls: seq<Key>, resolver: Resolver) {
    && NoDuplicates(calls) && (forall key :: key in cache <==> key in calls)
    && forall k: nat :: k < |calls| ==> resolver(k, calls[k]) == Some(cache[calls[k]])
  }

  /** Every id has the revision its key was resolved to. */
  ghost predicate Specified(ids: seq<string>, matrix: Matrix, cache: map<Key, string>, specs: map<string, Spec>) {
    && (forall id :: id in specs <==> id in ids)
    && forall id :: id in specs ==>
      if id == SUT_ID then specs[id] == Mount
      else id in matrix && matrix[id] in cache && specs[id] == Checkout(matrix[id].0, cache[matrix[id]])
  }

  /** All keys are asked for, each once and in order of first occurrence, and all
      get an answer. */
  ghost predicate AllResolve(ids: seq<string>, matrix: Matrix, resolver: Resolver) {
    forall k: nat :: k < |FirstKeys(ids, matrix)| ==> resolver(k, FirstKeys(ids, matrix)[k]).Some?
  }

  /** Everything is in order for the ids seen so far. */
  ghost predicate Planned(ids: seq<string>, matrix: Matrix, resolver: Resolver, calls: seq<Key>,
                          cache: map<Key, string>, specs: map<string, Spec>)
  {
    && AllKnown(ids, matrix) && calls == FirstKeys(ids, matrix)
    && Cached(cache, calls, resolver) && Specified(ids, matrix, cache, specs)
  }

  /** `build_specs`: with a resolver that may never answer the same twice, ids of
      one repository and ref still get one revision. `calls` logs what it asks. */
  method BuildSpecs(ids: seq<string>, matrix: Matrix, resolver: Resolver)
    returns (r: Option<map<string, Spec>>, calls: seq<Key>, ghost cache: map<Key, string>)
    ensures r.Some? <==> AllKnown(ids, matrix) && AllResolve(ids, matrix, resolver)
    ensures r.Some? ==> Planned(ids, matrix, resolver, calls, cache, r.value)
    ensures r.None? ==> calls <= FirstKeys(ids, matrix)
  {
    var shas: map<Key, string> := map[];
    var specs: map<string, Spec> := map[];
    calls, cache := [], map[];
    for i := 0 to |ids|
      invariant Planned(ids[..i], matrix, resolver, calls, shas, specs)
    {
      var id := ids[i];
      TakeNext(ids, i);
      FirstKeysPrefix(ids, matrix, i);
      if id == SUT_ID {
        PlannedMount(ids[..i], matrix, resolver, calls, shas, specs);
        specs := specs[id := Mount];
        continue;
      }
      if id !in matrix {
        return None, calls, shas;
      }
      var key := matrix[id];
      if key !in shas {
        var answer := resolver(|calls|, key);
        NextKey(ids, i, matrix, calls);
        if answer.None? {
          return None, calls, shas;
        }
        PlannedFresh(ids[..i], matrix, resolver, calls, shas, specs, id, answer.value);
        calls, shas := calls + [key], shas[key := answer.value];
      } else {
        PlannedAgain(ids[..i], matrix, resolver, calls, shas, specs, id);
      }
      specs := specs[id := Checkout(key.0, shas[key])];
    }
    assert ids[..|ids|] == ids;
    AnswersGiven(shas, calls, resolver);
    return Some(specs), calls, shas;
  }

  lemma AnswersGiven(cache: map<Key, string>, calls: seq<Key>, resolver: Resolver)
    requires Cached(cache, calls, resolver)
    ensures forall k: nat :: k < |calls| ==> resolver(k, calls[k]).Some?
  {
  }

  /** The first key not seen yet is the next one to ask for. */
  lemma NextKey(ids: seq<string>, i: nat, matrix: Matrix, calls: seq<Key>)
    requires i < |ids| && ids[i] != SUT_ID && ids[i] in matrix
    requires calls == FirstKeys(ids[..i], matrix) && matrix[ids[i]] !in calls
    ensures |calls| < |FirstKeys(ids, matrix)| && FirstKeys(ids, matrix)[|calls|] == matrix[ids[i]]
  {
    FirstKeysPrefix(ids, matrix, i + 1);
    assert ids[..i + 1][..i] == ids[..i];
  }

  lemma FirstKeysNext(ids: seq<string>, matrix: Matrix, id: string)
    ensures FirstKeys(ids + [id], matrix)
         == var before, key := FirstKeys(ids, matrix), KeyOf(matrix)(id);
            if key.None? || key.value in before then before else before + [key.value]
  {
    assert (ids + [id])[..|ids|] == ids;
  }

  lemma PlannedMount(ids: seq<string>, matrix: Matrix, resolver: Resolver, calls: seq<Key>, cache: map<Key, string>,
                     specs: map<string, Spec>)
    requires Planned(ids, matrix, resolver, calls, cache, specs)
    ensures Planned(ids + [SUT_ID], matrix, resolver, calls, cache, specs[SUT_ID := Mount])
  {
    FirstKeysNext(ids, matrix, SUT_ID);
    SpecsMount(ids, matrix, cache, specs);
  }

  lemma SpecsMount(ids: seq<string>, matrix: Matrix, cache: map<Key, string>, specs: map<string, Spec>)
    requires Specified(ids, matrix, cache, specs)
    ensures Specified(ids + [SUT_ID], matrix, cache, specs[SUT_ID := Mount])
  {
  }

  lemma PlannedAgain(ids: seq<string>, matrix: Matrix, resolver: Resolver, calls: seq<Key>, cache: map<Key, string>,
                     specs: map<string, Spec>, id: string)
    requires Planned(ids, matrix, resolver, calls, cache, specs)
    requires id != SUT_ID && id in matrix && matrix[id] in cache
    ensures Planned(ids + [id], matrix, resolver, calls, cache,
                    specs[id := Checkout(matrix[id].0, cache[matrix[id]])])
  {
    FirstKeysNext(ids, matrix, id);
    SpecsAgain(ids, matrix, cache, specs, id);
  }

  lemma SpecsAgain(ids: seq<string>, matrix: Matrix, cache: map<Key, string>, specs: map<string, Spec>, id: string)
    requires Specified(ids, matrix, cache, specs) && id != SUT_ID && id in matrix && matrix[id] in cache
    ensures Specified(ids + [id], matrix, cache, specs[id := Checkout(matrix[id].0, cache[matrix[id]])])
  {
  }

  lemma PlannedFresh(ids: seq<string>, matrix: Matrix, resolver: Resolver, calls: seq<Key>, cache: map<Key, string>,
                     specs: map<string, Spec>, id: string, sha: string)
    requires Planned(ids, matrix, resolver, calls, cache, specs)
    requires id != SUT_ID && id in matrix && matrix[id] !in cache
    requires resolver(|calls|, matrix[id]) == Some(sha)
    ensures Planned(ids + [id], matrix, resolver, calls + [matrix[id]], cache[matrix[id] := sha],
                    specs[id := Checkout(matrix[id].0, sha)])
  {
    FirstKeysNext(ids, matrix, id);
    CacheGrows(cache, calls, resolver, matrix[id], sha);
    SpecsFresh(ids, matrix, cache, specs, id, sha);
  }

  lemma CacheGrows(cache: map<Key, string>, calls: seq<Key>, resolver: Resolver, key: Key, sha: string)
    requires Cached(cache, calls, resolver) && key !in cache && resolver(|calls|, key) == Some(sha)
    ensures Cached(cache[key := sha], calls + [key], resolver)
  {
  }

  lemma SpecsFresh(ids: seq<string>, matrix: Matrix, cache: map<Key, string>, specs: map<string, Spec>, id: string,
                   sha: string)
    requires Specified(ids, matrix, cache, specs) && id != SUT_ID && id in matrix && matrix[id] !in cache
    ensures Specified(ids + [id], matrix, cache[matrix[id] := sha], specs[id := Checkout(matrix[id].0, sha)])
  {
  }

  /** Two ids of one repository and ref are never checked out at two revisions. */
  lemma OneRevision(ids: seq<string>, matrix: Matrix, resolver: Resolver, calls: seq<Key>, cache: map<Key, string>,
                    specs: map<string, Spec>, a: string, b: string)
    returns (k: nat)
    requires Planned(ids, matrix, resolver, calls, cache, specs)
    requires a in ids && b in ids && KeyOf(matrix)(a) == KeyOf(matrix)(b) && KeyOf(matrix)(a).Some?
    ensures k < |calls| && calls[k] == matrix[a] && resolver(k, calls[k]).Some?
    ensures specs[a] == specs[b] == Checkout(matrix[a].0, resolver(k, calls[k]).value)
  {
    FirstKeysExact(ids, matrix, matrix[a]);
    k :| 0 <= k < |calls| && calls[k] == matrix[a];
  }
}
