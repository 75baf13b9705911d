/**
 * Counting occurrences with `counts[k] = counts.get(k, 0) + 1`, the idiom
 * behind the ecosystem statistics of the scanner and the summaries of the
 * reporter.
 */
module Counting {
  import opened Wrappers
  import opened OrderedDict

  /** One step of the idiom: count one more `k`. */
  function Bump(d: Dict<nat>, k: string): Dict<nat> {
    Put(d, k, GetOr(d, k, 0) + 1)
  }

  /** The dict left by bumping every key of `keys` in order, starting from `{}`. */
  function Tally(keys: seq<string>): Dict<nat> {
    if keys == [] then [] else Bump(Tally(keys[..|keys| - 1]), keys[|keys| - 1])
  }

  /** The keys of `keys`, each once, in the order of their first occurrence. */
  function Dedup(keys: seq<string>): seq<string> {
    if keys == [] then []
    else
      var prefix := Dedup(keys[..|keys| - 1]);
      if keys[|keys| - 1] in prefix then prefix else prefix + [keys[|keys| - 1]]
  }

  /** Tallying one more key is one more step of the idiom. */
  lemma TallySnoc(keys: seq<string>, k: string)
    ensures Tally(keys + [k]) == Bump(Tally(keys), k)
  {
    assert (keys + [k])[..|keys|] == keys;
  }

  /** `Dedup` keeps each key once and loses none. */
  lemma {:induction false} DedupSpec(keys: seq<string>)
    ensures Distinct(Dedup(keys))
    ensures forall k :: k in Dedup(keys) <==> k in keys
  {
    if keys != [] {
      var init := keys[..|keys| - 1];
      DedupSpec(init);
      forall k ensures k in keys <==> k in init || k == keys[|keys| - 1] {
        InDropLast(keys, k);
      }
    }
  }

  /**
   * The tally maps each key to its number of occurrences, holds no other key,
   * and lists its keys in the order of their first occurrence.
   */
  lemma {:induction false} TallySpec(keys: seq<string>)
    ensures Keys(Tally(keys)) == Dedup(keys)
    ensures forall k :: GetOr(Tally(keys), k, 0) == multiset(keys)[k]
    ensures forall k :: Get(Tally(keys), k).Some? <==> k in keys
  {
    if keys != [] {
      var init, last := keys[..|keys| - 1], keys[|keys| - 1];
      TallySpec(init);
      DedupSpec(init);
      MultisetDropLast(keys);
      forall k ensures k in keys <==> k in init || k == last {
        InDropLast(keys, k);
      }
    }
  }

  /** Bumping a key adds one to the sum of the counts. */
  lemma BumpSum(d: Dict<nat>, k: string)
    ensures SumValues(Bump(d, k)) == SumValues(d) + 1
  {
    SumValuesPut(d, k, GetOr(d, k, 0) + 1);
  }

  /** The counts of a tally add up to the number of keys counted. */
  lemma {:induction false} TallySum(keys: seq<string>)
    ensures SumValues(Tally(keys)) == |keys|
  {
    if keys != [] {
      var init, last := keys[..|keys| - 1], keys[|keys| - 1];
      TallySum(init);
      BumpSum(Tally(init), last);
    }
  }

  /** A tally never holds the same key twice. */
  lemma TallyDistinct(keys: seq<string>)
    ensures Distinct(Keys(Tally(keys)))
  {
    TallySpec(keys);
    DedupSpec(keys);
  }
}
