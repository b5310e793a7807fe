/** The hash-bucketed cache of configurations
    (src/linearizability/linearizability.go:128-140, 184-188). */
module Cache {
  import opened Bitset

  /** The words of a bitset (never changed once cached) and a state. */
  datatype CacheEntry<S> = CacheEntry(linearized: seq<bv64>, state: S)

  type Buckets<S> = map<HashKey, seq<CacheEntry<S>>>

  ghost function Pair<S>(e: CacheEntry<S>): (set<nat>, S) {
    (Elements(e.linearized), e.state)
  }

  ghost predicate Stored<S>(cache: Buckets<S>, h: HashKey, e: CacheEntry<S>) {
    h in cache && e in cache[h]
  }

  /** The buckets hold exactly the pairs `pairs`, each entry in the bucket of its own hash and every
      bitset `words` words long. */
  ghost predicate Holds<S(!new)>(cache: Buckets<S>, pairs: set<(set<nat>, S)>, words: nat) {
    && (forall h, e | Stored(cache, h, e) :: h == HashOf(e.linearized) && |e.linearized| == words && Pair(e) in pairs)
    && (forall c | c in pairs :: exists h, e :: Stored(cache, h, e) && Pair(e) == c)
  }

  function Bucket<S>(cache: Buckets<S>, h: HashKey): seq<CacheEntry<S>> {
    if h in cache then cache[h] else []
  }

  /** Equal pairs of one width have equal words, hence sit in the same bucket whatever else collides. */
  lemma PairIsInItsBucket<S(!new)>(cache: Buckets<S>, pairs: set<(set<nat>, S)>, words: nat, entry: CacheEntry<S>)
    requires Holds(cache, pairs, words) && |entry.linearized| == words && Pair(entry) in pairs
    ensures entry in Bucket(cache, HashOf(entry.linearized))
  {
    hide Elements, HashOf;
    var h, e :| Stored(cache, h, e) && Pair(e) == Pair(entry);
    ElementsInjective(e.linearized, entry.linearized);
    assert e == entry;
  }

  /** Membership of the (set, state) pair, independent of hash collisions. */
  method CacheContains<S(==,!new)>(cache: Buckets<S>, entry: CacheEntry<S>, ghost pairs: set<(set<nat>, S)>, ghost words: nat)
    returns (found: bool)
    requires Holds(cache, pairs, words) && |entry.linearized| == words
    ensures found <==> Pair(entry) in pairs
  {
    hide Elements, HashOf;
    var hash := Hash(entry.linearized);
    var bucket := Bucket(cache, hash);
    var i := 0;
    while i < |bucket|
      invariant 0 <= i <= |bucket|
      invariant forall k | 0 <= k < i :: Pair(bucket[k]) != Pair(entry)
    {
      var elem := bucket[i];
      assert Stored(cache, hash, elem);
      var same := Equals(entry.linearized, elem.linearized);
      if same && entry.state == elem.state {
        return true;
      }
      i := i + 1;
    }
    if Pair(entry) in pairs {
      PairIsInItsBucket(cache, pairs, words, entry);
    }
    return false;
  }

  lemma StoredAfterInsert<S>(cache: Buckets<S>, hash: HashKey, entry: CacheEntry<S>, h: HashKey, e: CacheEntry<S>)
    ensures Stored(cache[hash := Bucket(cache, hash) + [entry]], h, e)
       <==> Stored(cache, h, e) || (h == hash && e == entry)
  {}

  /** Appending to the entry's bucket adds exactly its pair. */
  method CacheInsert<S(!new)>(cache: Buckets<S>, entry: CacheEntry<S>, ghost pairs: set<(set<nat>, S)>, ghost words: nat)
    returns (cache': Buckets<S>)
    requires Holds(cache, pairs, words) && |entry.linearized| == words
    ensures Holds(cache', pairs + {Pair(entry)}, words)
  {
    hide Elements, HashOf;
    var hash := Hash(entry.linearized);
    cache' := cache[hash := Bucket(cache, hash) + [entry]];
    forall h, e ensures Stored(cache', h, e) <==> Stored(cache, h, e) || (h == hash && e == entry) {
      StoredAfterInsert(cache, hash, entry, h, e);
    }
    forall c | c in pairs + {Pair(entry)} ensures exists h, e :: Stored(cache', h, e) && Pair(e) == c {
      if c in pairs {
        var h, e :| Stored(cache, h, e) && Pair(e) == c;
        assert Stored(cache', h, e);
      } else {
        assert Stored(cache', hash, entry);
      }
    }
  }
}
