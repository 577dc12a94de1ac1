/**
The in-place rehash: the old and the new layout share one key array and one value
array.  `oldFlags` and `newFlags` are their flags; a bucket in use belongs to one of them.

`InPlace` is what holds whenever no pair is in hand: the old-live and the
new-occupied buckets are disjoint and together hold the pairs of `m`, and the new
ones are on their new search paths.  While the pair `(key, val)` is in hand, it
holds of `m - {key}`.
*/
module Rehash {
  import opened Table

  ghost predicate InPlace<K, V>(hash: K -> nat, oldFlags: seq<Slot>, newFlags: seq<Slot>, keys: seq<K>, vals: seq<V>,
                                m: map<K, V>, at: map<K, nat>)
  {
    && |oldFlags| <= |keys| && |newFlags| <= |keys|
    && m.Keys == at.Keys
    && LiveSet(oldFlags) !! LiveSet(newFlags)
    && OccupiedSet(newFlags) == LiveSet(newFlags)
    && Indexed(LiveSet(oldFlags) + LiveSet(newFlags), keys, vals, m, at)
    && Reachable(hash, newFlags, LiveSet(newFlags), keys)
  }

  /** `InPlace` with the pair `(key, val)` of `m` in hand. */
  ghost predicate InHand<K, V>(hash: K -> nat, oldFlags: seq<Slot>, newFlags: seq<Slot>, keys: seq<K>, vals: seq<V>,
                               m: map<K, V>, at: map<K, nat>, key: K, val: V)
  {
    key in m && m[key] == val && InPlace(hash, oldFlags, newFlags, keys, vals, m - {key}, at)
  }

  lemma Begin<K, V>(hash: K -> nat, flags: seq<Slot>, newFlags: seq<Slot>, keys: seq<K>, vals: seq<V>,
                    keys': seq<K>, vals': seq<V>, m: map<K, V>, at: map<K, nat>)
    requires Represents(hash, flags, keys, vals, m, at)
    requires keys <= keys' && vals <= vals' && |keys'| == |vals'| && |newFlags| <= |keys'|
    requires forall i | 0 <= i < |newFlags| :: newFlags[i].Empty?
    ensures InPlace(hash, flags, newFlags, keys', vals', m, at)
  {
    assert LiveSet(newFlags) == {};
    assert LiveSet(flags) + LiveSet(newFlags) == LiveSet(flags);
  }

  /** Marking old bucket `j` deleted takes its pair into the hand. */
  lemma PickUp<K, V>(hash: K -> nat, oldFlags: seq<Slot>, newFlags: seq<Slot>, keys: seq<K>, vals: seq<V>,
                     m: map<K, V>, at: map<K, nat>, j: nat)
    requires InPlace(hash, oldFlags, newFlags, keys, vals, m, at)
    requires j < |oldFlags| && oldFlags[j].Live?
    ensures InHand(hash, oldFlags[j := Deleted], newFlags, keys, vals, m, at - {keys[j]}, keys[j], vals[j])
  {
    var rest := oldFlags[j := Deleted];
    assert LiveSet(rest) == LiveSet(oldFlags) - {j};
    var occ := LiveSet(oldFlags) + LiveSet(newFlags);
    assert j in occ;
    IndexedRemove(occ, keys, vals, m, at, j);
    assert LiveSet(rest) + LiveSet(newFlags) == occ - {j};
  }

  /** Writing the pair in hand to an unused bucket on its new search path. */
  lemma PutDown<K, V>(hash: K -> nat, oldFlags: seq<Slot>, newFlags: seq<Slot>, keys: seq<K>, vals: seq<V>,
                      m: map<K, V>, at: map<K, nat>, key: K, val: V, i: nat)
    requires InPlace(hash, oldFlags, newFlags, keys, vals, m, at) && key !in m
    requires i < |newFlags| && newFlags[i].Empty? && Reach(newFlags, hash(key), i)
    requires i < |oldFlags| ==> !oldFlags[i].Live?
    ensures InPlace(hash, oldFlags, newFlags[i := Live], keys[i := key], vals[i := val], m[key := val], at[key := i])
  {
    var next := newFlags[i := Live];
    var occ := LiveSet(oldFlags) + LiveSet(newFlags);
    assert LiveSet(next) == LiveSet(newFlags) + {i};
    assert OccupiedSet(next) == OccupiedSet(newFlags) + {i};
    assert LiveSet(oldFlags) + LiveSet(next) == occ + {i};
    IndexedAdd(occ, keys, vals, m, at, key, val, i);
    ReachableAdd(hash, newFlags, LiveSet(newFlags), keys, key, i);
  }

  /** Writing the pair in hand to a bucket still live in the old layout kicks out its pair. */
  lemma Kick<K, V>(hash: K -> nat, oldFlags: seq<Slot>, newFlags: seq<Slot>, keys: seq<K>, vals: seq<V>,
                   m: map<K, V>, at: map<K, nat>, key: K, val: V, i: nat)
    requires InHand(hash, oldFlags, newFlags, keys, vals, m, at, key, val)
    requires i < |newFlags| && newFlags[i].Empty? && Reach(newFlags, hash(key), i)
    requires i < |oldFlags| && oldFlags[i].Live?
    ensures InHand(hash, oldFlags[i := Deleted], newFlags[i := Live], keys[i := key], vals[i := val],
                   m, (at - {keys[i]})[key := i], keys[i], vals[i])
  {
    hide Indexed, Reachable, Reach;
    PickUp(hash, oldFlags, newFlags, keys, vals, m - {key}, at, i);
    var rest := m - {key} - {keys[i]};
    PutDown(hash, oldFlags[i := Deleted], newFlags, keys, vals, rest, at - {keys[i]}, key, val, i);
    assert rest[key := val] == m - {keys[i]};
  }

  lemma Drop<K, V>(hash: K -> nat, oldFlags: seq<Slot>, newFlags: seq<Slot>, keys: seq<K>, vals: seq<V>,
                   m: map<K, V>, at: map<K, nat>, key: K, val: V, i: nat)
    requires InHand(hash, oldFlags, newFlags, keys, vals, m, at, key, val)
    requires i < |newFlags| && newFlags[i].Empty? && Reach(newFlags, hash(key), i)
    requires i < |oldFlags| ==> !oldFlags[i].Live?
    ensures InPlace(hash, oldFlags, newFlags[i := Live], keys[i := key], vals[i := val], m, at[key := i])
  {
    hide Indexed, Reachable, Reach;
    PutDown(hash, oldFlags, newFlags, keys, vals, m - {key}, at, key, val, i);
    assert (m - {key})[key := val] == m;
  }

  lemma Lengths<K, V>(hash: K -> nat, oldFlags: seq<Slot>, newFlags: seq<Slot>, keys: seq<K>, vals: seq<V>,
                      m: map<K, V>, at: map<K, nat>, key: K, val: V)
    requires InHand(hash, oldFlags, newFlags, keys, vals, m, at, key, val)
    ensures |oldFlags| <= |keys| && |newFlags| <= |keys| == |vals|
  {
  }

  /** A pair in hand leaves the new layout with fewer occupied buckets than there are pairs. */
  lemma RoomLeft<K, V>(hash: K -> nat, oldFlags: seq<Slot>, newFlags: seq<Slot>, keys: seq<K>, vals: seq<V>,
                       m: map<K, V>, at: map<K, nat>, key: K, val: V)
    requires InHand(hash, oldFlags, newFlags, keys, vals, m, at, key, val)
    ensures |LiveSet(oldFlags)| + |OccupiedSet(newFlags)| + 1 == |m|
  {
    var occ := LiveSet(oldFlags) + LiveSet(newFlags);
    IndexedSize(occ, keys, vals, m - {key}, at);
    assert |at.Keys| == |(m - {key}).Keys|;
    assert (m - {key}).Keys == m.Keys - {key};
  }

  /** With nothing live in the old layout, the new one stands for the same map. */
  lemma Finish<K, V>(hash: K -> nat, oldFlags: seq<Slot>, newFlags: seq<Slot>, keys: seq<K>, vals: seq<V>,
                     m: map<K, V>, at: map<K, nat>)
    requires InPlace(hash, oldFlags, newFlags, keys, vals, m, at)
    requires forall i | 0 <= i < |oldFlags| :: !oldFlags[i].Live?
    ensures Represents(hash, newFlags, keys[..|newFlags|], vals[..|newFlags|], m, at)
    ensures |LiveSet(newFlags)| == |OccupiedSet(newFlags)| == |m|
    ensures forall i | 0 <= i < |newFlags| :: !newFlags[i].Deleted?
  {
    assert LiveSet(oldFlags) == {};
    assert LiveSet(oldFlags) + LiveSet(newFlags) == LiveSet(newFlags);
    IndexedSize(LiveSet(newFlags), keys, vals, m, at);
    forall i | 0 <= i < |newFlags| ensures !newFlags[i].Deleted? {
      assert i in OccupiedSet(newFlags) <==> i in LiveSet(newFlags);
    }
    assert |m.Keys| == |at.Keys|;
  }
}
