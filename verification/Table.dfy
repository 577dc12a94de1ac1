/**
The hash table on values: what the arrays of a table must satisfy for it to stand
for a finite map, and how each write of `kh_put`, `kh_del` and `kh_resize` keeps it.

`m` is the map a table stands for and `at` gives the bucket of each of its keys.
*/
module Table {
  import opened Probe

  datatype Slot = Empty | Deleted | Live

  function LiveSet(flags: seq<Slot>): set<nat> {
    set i: nat | 0 <= i < |flags| && flags[i].Live?
  }

  function OccupiedSet(flags: seq<Slot>): set<nat> {
    set i: nat | 0 <= i < |flags| && !flags[i].Empty?
  }

  /** The first `t` buckets probed for hash `h` are not empty, so a search passes them. */
  ghost predicate PathTo(flags: seq<Slot>, h: nat, t: nat)
    requires |flags| > 0
  {
    forall s: nat | s < t :: !flags[At(h, s, |flags|)].Empty?
  }

  /** A search for hash `h` gets as far as bucket `i`. */
  ghost predicate Reach(flags: seq<Slot>, h: nat, i: nat)
    requires |flags| > 0
  {
    exists t: nat :: t < |flags| && At(h, t, |flags|) == i && PathTo(flags, h, t)
  }

  /** The buckets `occ` hold exactly the keys of `at`, each once, with their values in `m`. */
  ghost predicate Indexed<K, V>(occ: set<nat>, keys: seq<K>, vals: seq<V>, m: map<K, V>, at: map<K, nat>) {
    && |keys| == |vals|
    && (forall i | i in occ :: i < |keys| && keys[i] in at && at[keys[i]] == i)
    && (forall k | k in at :: at[k] in occ && at[k] < |keys| && keys[at[k]] == k)
    && (forall k | k in at :: k in m && m[k] == vals[at[k]])
  }

  /** Every bucket of `occ` is found by a search for the key it holds. */
  ghost predicate Reachable<K>(hash: K -> nat, flags: seq<Slot>, occ: set<nat>, keys: seq<K>) {
    occ == {} || (|flags| > 0 && forall i | i in occ :: i < |keys| && Reach(flags, hash(keys[i]), i))
  }

  /** The table stands for the map `m`. */
  ghost predicate Represents<K, V>(hash: K -> nat, flags: seq<Slot>, keys: seq<K>, vals: seq<V>,
                                   m: map<K, V>, at: map<K, nat>)
  {
    && |keys| == |flags|
    && m.Keys == at.Keys
    && Indexed(LiveSet(flags), keys, vals, m, at)
    && Reachable(hash, flags, LiveSet(flags), keys)
  }

  // ---------- searching ----------

  /** With an empty bucket left, no search path is as long as the table. */
  lemma PathShort(flags: seq<Slot>, h: nat, t: nat, k: nat)
    requires |flags| == Pow2(k) && |OccupiedSet(flags)| < |flags|
    requires PathTo(flags, h, t)
    ensures t < |flags|
  {
    var e := EmptyExists(flags);
    var s := ProbeCovers(h, e, k);
  }

  lemma EmptyExists(flags: seq<Slot>) returns (e: nat)
    requires |OccupiedSet(flags)| < |flags|
    ensures e < |flags| && flags[e].Empty?
  {
    assert OccupiedSet(flags) <= Below(|flags|);
    assert OccupiedSet(flags) != Below(|flags|);
    e :| e in Below(|flags|) && e !in OccupiedSet(flags);
  }

  /** The first `t` buckets a search for `key` looks at are in use and do not hold it. */
  ghost predicate Passed<K>(hash: K -> nat, flags: seq<Slot>, keys: seq<K>, key: K, t: nat)
    requires |keys| == |flags| > 0
  {
    forall s: nat | s < t ::
      var i := At(hash(key), s, |flags|);
      !flags[i].Empty? && (flags[i].Live? ==> keys[i] != key)
  }

  lemma PassedNone<K>(hash: K -> nat, flags: seq<Slot>, keys: seq<K>, key: K)
    requires |keys| == |flags| > 0
    ensures Passed(hash, flags, keys, key, 0)
  {
  }

  /** One turn of a search loop: it stays inside the table and never returns to its start. */
  lemma Advance<K>(hash: K -> nat, flags: seq<Slot>, keys: seq<K>, key: K, i: nat, t: nat, k: nat)
    requires |keys| == |flags| == Pow2(k) && k <= 31
    requires |OccupiedSet(flags)| < |flags|
    requires t < |flags| && i == At(hash(key), t, |flags|)
    requires Passed(hash, flags, keys, key, t)
    requires !flags[i].Empty? && (flags[i].Live? ==> keys[i] != key)
    ensures t + 1 < |flags|
    ensures Passed(hash, flags, keys, key, t + 1)
    ensures NextBucket(i, t + 1, |flags|) == At(hash(key), t + 1, |flags|) != At(hash(key), 0, |flags|)
  {
    var h, n := hash(key), |flags|;
    assert Passed(hash, flags, keys, key, t + 1);
    assert PathTo(flags, h, t + 1);
    PathShort(flags, h, t + 1, k);
    Next(h, i, t, k);
  }

  lemma PathStart(flags: seq<Slot>, h: nat)
    requires |flags| > 0
    ensures PathTo(flags, h, 0)
  {
  }

  lemma PathNext(flags: seq<Slot>, h: nat, i: nat, t: nat, k: nat)
    requires |flags| == Pow2(k) && k <= 31 && |OccupiedSet(flags)| < |flags|
    requires t < |flags| && i == At(h, t, |flags|) && PathTo(flags, h, t) && !flags[i].Empty?
    ensures t + 1 < |flags| && PathTo(flags, h, t + 1)
    ensures NextBucket(i, t + 1, |flags|) == At(h, t + 1, |flags|)
  {
    assert PathTo(flags, h, t + 1);
    PathShort(flags, h, t + 1, k);
    Next(h, i, t, k);
  }

  lemma PathEnd(flags: seq<Slot>, h: nat, t: nat)
    requires t < |flags| && PathTo(flags, h, t)
    ensures Reach(flags, h, At(h, t, |flags|))
  {
  }

  lemma Next(h: nat, i: nat, t: nat, k: nat)
    requires k <= 31 && t + 1 < Pow2(k) && i == At(h, t, Pow2(k))
    ensures NextBucket(i, t + 1, Pow2(k)) == At(h, t + 1, Pow2(k)) != At(h, 0, Pow2(k))
  {
    AtNext(h, t, Pow2(k));
    WrapHarmless(i + t + 1, k);
    ProbeInjective(h, 0, t + 1, k);
  }

  /** A search that meets an empty bucket before the key proves the key absent. */
  lemma Miss<K, V>(hash: K -> nat, flags: seq<Slot>, keys: seq<K>, vals: seq<V>,
                   m: map<K, V>, at: map<K, nat>, key: K, t: nat)
    requires Represents(hash, flags, keys, vals, m, at) && t < |flags|
    requires Passed(hash, flags, keys, key, t)
    requires flags[At(hash(key), t, |flags|)].Empty?
    ensures key !in m
    ensures Reach(flags, hash(key), At(hash(key), t, |flags|))
  {
    assert PathTo(flags, hash(key), t);
    if key in m {
      assert false;
    }
  }

  lemma Hit<K, V>(hash: K -> nat, flags: seq<Slot>, keys: seq<K>, vals: seq<V>,
                  m: map<K, V>, at: map<K, nat>, i: nat)
    requires Represents(hash, flags, keys, vals, m, at)
    requires i < |flags| && flags[i].Live?
    ensures keys[i] in m && at[keys[i]] == i && m[keys[i]] == vals[i]
  {
    assert i in LiveSet(flags);
  }

  /** It is the tombstone met last, and `|flags|` exactly if none was met. */
  lemma {:induction false} LastTombstoneIs(flags: seq<Slot>, h: nat, t: nat)
    requires |flags| > 0
    ensures LastTombstone(flags, h, t) == |flags| <==> forall j | 0 <= j < t :: !flags[At(h, j, |flags|)].Deleted?
    ensures LastTombstone(flags, h, t) < |flags| ==>
              exists j | 0 <= j < t ::
                && At(h, j, |flags|) == LastTombstone(flags, h, t) && flags[At(h, j, |flags|)].Deleted?
                && forall k | j < k < t :: !flags[At(h, k, |flags|)].Deleted?
  {
    hide At;
    if t > 0 {
      LastTombstoneIs(flags, h, t - 1);
    }
  }

  /** The last tombstone among the first `t` buckets probed for hash `h`; `|flags|` if there is none. */
  function LastTombstone(flags: seq<Slot>, h: nat, t: nat): (i: nat)
    requires |flags| > 0
    ensures i <= |flags| && (i < |flags| ==> flags[i].Deleted?)
  {
    if t == 0 then |flags|
    else if flags[At(h, t - 1, |flags|)].Deleted? then At(h, t - 1, |flags|)
    else LastTombstone(flags, h, t - 1)
  }

  /** Where `kh_put` puts an absent key whose search ends, empty-handed, after `t` steps. */
  function SiteFor(flags: seq<Slot>, h: nat, t: nat): (i: nat)
    requires |flags| > 0
    ensures i < |flags|
  {
    var site := LastTombstone(flags, h, t);
    if site < |flags| then site else At(h, t, |flags|)
  }

  /** The search for an absent `key` ends at the empty bucket after `t` steps. */
  ghost predicate EndsAt<K>(hash: K -> nat, flags: seq<Slot>, keys: seq<K>, key: K, t: nat) {
    && |keys| == |flags| && t < |flags|
    && Passed(hash, flags, keys, key, t)
    && flags[At(hash(key), t, |flags|)].Empty?
  }

  lemma NoTombstoneYet(flags: seq<Slot>, h: nat)
    requires |flags| > 0
    ensures LastTombstone(flags, h, 0) == |flags|
  {
  }

  lemma TombstoneNext(flags: seq<Slot>, h: nat, t: nat)
    requires |flags| > 0
    ensures var i := At(h, t, |flags|);
            LastTombstone(flags, h, t + 1) == if flags[i].Deleted? then i else LastTombstone(flags, h, t)
  {
  }

  lemma {:induction false} TombstoneReached(flags: seq<Slot>, h: nat, t: nat)
    requires 0 < |flags| && t <= |flags| && PathTo(flags, h, t)
    ensures LastTombstone(flags, h, t) < |flags| ==> Reach(flags, h, LastTombstone(flags, h, t))
  {
    if t > 0 {
      if flags[At(h, t - 1, |flags|)].Deleted? {
        assert PathTo(flags, h, t - 1);
      } else {
        TombstoneReached(flags, h, t - 1);
      }
    }
  }

  /** An absent key's site is not live and lies on its search path. */
  lemma SiteReached<K>(hash: K -> nat, flags: seq<Slot>, keys: seq<K>, key: K, t: nat)
    requires EndsAt(hash, flags, keys, key, t)
    ensures var x := SiteFor(flags, hash(key), t); !flags[x].Live? && Reach(flags, hash(key), x)
  {
    assert PathTo(flags, hash(key), t);
    TombstoneReached(flags, hash(key), t);
  }

  // ---------- writes ----------

  lemma ReachGrows(flags: seq<Slot>, flags': seq<Slot>, h: nat, i: nat)
    requires |flags| == |flags'| > 0 && Reach(flags, h, i)
    requires forall j | 0 <= j < |flags| && !flags[j].Empty? :: !flags'[j].Empty?
    ensures Reach(flags', h, i)
  {
    var t: nat :| t < |flags| && At(h, t, |flags|) == i && PathTo(flags, h, t);
    assert PathTo(flags', h, t);
  }

  /** Filling a bucket that is not live, on the search path of a key that is absent. */
  lemma Insert<K, V>(hash: K -> nat, flags: seq<Slot>, keys: seq<K>, vals: seq<V>,
                     m: map<K, V>, at: map<K, nat>, key: K, x: nat)
    requires Represents(hash, flags, keys, vals, m, at) && key !in m
    requires x < |flags| && !flags[x].Live? && Reach(flags, hash(key), x)
    ensures Represents(hash, flags[x := Live], keys[x := key], vals, m[key := vals[x]], at[key := x])
  {
    var flags' := flags[x := Live];
    assert LiveSet(flags') == LiveSet(flags) + {x};
    IndexedAdd(LiveSet(flags), keys, vals, m, at, key, vals[x], x);
    assert vals[x := vals[x]] == vals;
    ReachableAdd(hash, flags, LiveSet(flags), keys, key, x);
  }

  lemma IndexedAdd<K, V>(occ: set<nat>, keys: seq<K>, vals: seq<V>, m: map<K, V>, at: map<K, nat>,
                         key: K, val: V, x: nat)
    requires Indexed(occ, keys, vals, m, at)
    requires x !in occ && x < |keys| && key !in at
    ensures Indexed(occ + {x}, keys[x := key], vals[x := val], m[key := val], at[key := x])
  {
  }

  lemma ReachableAdd<K>(hash: K -> nat, flags: seq<Slot>, occ: set<nat>, keys: seq<K>, key: K, x: nat)
    requires Reachable(hash, flags, occ, keys)
    requires x < |flags| && x < |keys| && x !in occ && Reach(flags, hash(key), x)
    ensures Reachable(hash, flags[x := Live], occ + {x}, keys[x := key])
  {
    var flags', keys' := flags[x := Live], keys[x := key];
    forall i | i in occ + {x} ensures i < |keys'| && Reach(flags', hash(keys'[i]), i) {
      ReachGrows(flags, flags', hash(keys'[i]), i);
    }
  }

  lemma IndexedRemove<K, V>(occ: set<nat>, keys: seq<K>, vals: seq<V>, m: map<K, V>, at: map<K, nat>, x: nat)
    requires Indexed(occ, keys, vals, m, at) && x in occ
    ensures Indexed(occ - {x}, keys, vals, m, at - {keys[x]})
  {
  }

  /** Turning a live bucket into a tombstone removes exactly its key. */
  lemma Delete<K, V>(hash: K -> nat, flags: seq<Slot>, keys: seq<K>, vals: seq<V>,
                     m: map<K, V>, at: map<K, nat>, x: nat)
    requires Represents(hash, flags, keys, vals, m, at)
    requires x < |flags| && flags[x].Live?
    ensures Represents(hash, flags[x := Deleted], keys, vals, m - {keys[x]}, at - {keys[x]})
  {
    var flags' := flags[x := Deleted];
    assert LiveSet(flags') == LiveSet(flags) - {x};
    IndexedRemove(LiveSet(flags), keys, vals, m, at, x);
    forall i | i in LiveSet(flags') ensures Reach(flags', hash(keys[i]), i) {
      ReachGrows(flags, flags', hash(keys[i]), i);
    }
  }

  lemma Store<K, V>(hash: K -> nat, flags: seq<Slot>, keys: seq<K>, vals: seq<V>,
                    m: map<K, V>, at: map<K, nat>, x: nat, val: V)
    requires Represents(hash, flags, keys, vals, m, at)
    requires x < |flags| && flags[x].Live?
    ensures Represents(hash, flags, keys, vals[x := val], m[keys[x] := val], at)
  {
    assert x in LiveSet(flags);
  }

  lemma NothingLive<K, V>(hash: K -> nat, flags: seq<Slot>, keys: seq<K>, vals: seq<V>)
    requires |keys| == |vals| == |flags|
    requires forall i | 0 <= i < |flags| :: flags[i].Empty?
    ensures Represents(hash, flags, keys, vals, map[], map[])
    ensures LiveSet(flags) == {} && OccupiedSet(flags) == {}
  {
    assert LiveSet(flags) == {};
  }

  // ---------- counting ----------

  lemma CountFill(flags: seq<Slot>, x: nat)
    requires x < |flags| && !flags[x].Live?
    ensures |LiveSet(flags[x := Live])| == |LiveSet(flags)| + 1
    ensures |OccupiedSet(flags[x := Live])| == |OccupiedSet(flags)| + if flags[x].Empty? then 1 else 0
  {
    assert LiveSet(flags[x := Live]) == LiveSet(flags) + {x};
    if flags[x].Empty? {
      assert OccupiedSet(flags[x := Live]) == OccupiedSet(flags) + {x};
    } else {
      assert OccupiedSet(flags[x := Live]) == OccupiedSet(flags);
    }
  }

  lemma CountTombstone(flags: seq<Slot>, x: nat)
    requires x < |flags|
    ensures flags[x].Deleted? ==> |LiveSet(flags)| < |OccupiedSet(flags)|
  {
    if flags[x].Deleted? {
      assert LiveSet(flags) <= OccupiedSet(flags) - {x};
      SubsetSize(LiveSet(flags), OccupiedSet(flags) - {x});
    }
  }

  lemma CountDelete(flags: seq<Slot>, x: nat)
    requires x < |flags| && flags[x].Live?
    ensures |LiveSet(flags[x := Deleted])| == |LiveSet(flags)| - 1
    ensures OccupiedSet(flags[x := Deleted]) == OccupiedSet(flags)
  {
    assert LiveSet(flags[x := Deleted]) == LiveSet(flags) - {x};
  }

  lemma {:induction false} IndexedSize<K, V>(occ: set<nat>, keys: seq<K>, vals: seq<V>, m: map<K, V>, at: map<K, nat>)
    requires Indexed(occ, keys, vals, m, at)
    ensures |occ| == |at|
    decreases occ
  {
    if occ == {} {
      assert at.Keys == {};
    } else {
      var x :| x in occ;
      IndexedRemove(occ, keys, vals, m, at, x);
      IndexedSize(occ - {x}, keys, vals, m, at - {keys[x]});
      assert (at - {keys[x]}).Keys == at.Keys - {keys[x]};
    }
  }

  lemma LiveCountIsMapSize<K, V>(hash: K -> nat, flags: seq<Slot>, keys: seq<K>, vals: seq<V>,
                                 m: map<K, V>, at: map<K, nat>)
    requires Represents(hash, flags, keys, vals, m, at)
    ensures |LiveSet(flags)| == |m|
  {
    IndexedSize(LiveSet(flags), keys, vals, m, at);
    assert |m.Keys| == |at.Keys|;
  }
}
