/**
The open-addressing hash table of `khash.h`, as a class over its arrays.

`m` is the finite map the table stands for; every method states the map it leaves.
*/
module KHash {
  import opened Probe
  import opened RoundUp
  import opened Table
  import opened Cost
  import R = Rehash

  const MAX_BUCKETS: nat := 0x8000_0000

  /** Half of it: with fewer keys, no table has to double beyond its largest capacity. */
  const MAX_KEYS: nat := 0x4000_0000

  lemma MaxBuckets()
    ensures Pow2(31) == MAX_BUCKETS
  {
    Pow2At32();
  }

  /** A capacity the table can have. */
  ghost predicate Capacity(n: nat) {
    4 <= n <= MAX_BUCKETS && n % 2 == 0 && IsPow2(n)
  }

  lemma CapacityLog(n: nat) returns (k: nat)
    requires Capacity(n)
    ensures 2 <= k <= 31 && n == Pow2(k)
  {
    k :| n == Pow2(k);
    MaxBuckets();
    if k > 31 {
      Pow2Grows(31, k);
    }
  }

  lemma IsCapacity(k: nat)
    requires 2 <= k <= 31
    ensures Capacity(Pow2(k))
  {
    hide Pow2;
    MaxBuckets();
    Pow2Grows(2, k);
    Pow2Grows(k, 31);
    Pow2Small(k);
  }

  lemma Pow2Small(k: nat)
    requires 2 <= k
    ensures Pow2(2) == 4 && Pow2(k) % 2 == 0
  {
    assert Pow2(k) == 2 * Pow2(k - 1);
    TwiceIsEven(Pow2(k - 1));
  }

  lemma TwiceIsEven(p: nat)
    ensures (2 * p) % 2 == 0
  {
  }

  /** The capacity `kh_resize` settles on when asked for `n` buckets. */
  function Target(n: nat): (c: nat)
    requires n < TWO32
    ensures Capacity(c)
  {
    assert Capacity(if KRoundUp32(n) < 4 then 4 else KRoundUp32(n)) by { TargetCapacity(n); }
    if KRoundUp32(n) < 4 then 4 else KRoundUp32(n)
  }

  lemma TargetCapacity(n: nat)
    requires n < TWO32
    ensures Capacity(if KRoundUp32(n) < 4 then 4 else KRoundUp32(n))
  {
    hide KRoundUp32, Capacity;
    Pow2At32();
    IsCapacity(2);
    assert Pow2(2) == 4;
    ZeroWraps();
    var x := if n == 0 then TWO32 else n;
    var k := LeastPow2Exists(x, 32);
    RoundsUp(x, k);
    if k < 2 {
      Pow2Grows(k, 1);
    } else if k < 32 {
      IsCapacity(k);
      Pow2Grows(k, 31);
      Pow2Grows(2, k);
    }
  }

  /**
  The capacity for a request of `n`: the least power of two not below `n` and 4, but for a
  request above 2^31, which the 32-bit rounding turns into 0 and so into the capacity 4, like
  the request 0 itself.
  */
  lemma TargetValue(n: nat, k: nat)
    requires n < TWO32 && LeastPow2(k, n)
    ensures Target(n) == if k < 2 || n > MAX_BUCKETS then 4 else Pow2(k)
  {
    hide KRoundUp32, Capacity;
    MaxBuckets();
    Pow2At32();
    if n == 0 {
      ZeroWraps();
      Pow2Grows(31, 32);
      RoundsUp(TWO32, 32);
      return;
    }
    if k > 32 {
      Pow2Grows(32, k - 1);
    } else if k < 32 {
      Pow2Grows(k, 31);
    }
    RoundsUp(n, k);
    if k < 2 {
      Pow2Grows(k, 1);
    } else {
      Pow2Grows(2, k);
      assert Pow2(2) == 4;
    }
    if k == 32 {
      assert Pow2(32) == 2 * Pow2(31);
    }
  }

  /** A table of 2^31 buckets that asks for one more is offered 4. */
  lemma TargetTooLarge()
    ensures Target(MAX_BUCKETS + 1) == 4
  {
    hide KRoundUp32, Capacity;
    MaxBuckets();
    Pow2At32();
    TargetValue(MAX_BUCKETS + 1, 32);
  }

  lemma ZeroWraps()
    ensures KRoundUp32(0) == KRoundUp32(TWO32)
  {
    hide ToBits, Smear, Val;
    assert U32(-1) == U32(TWO32 - 1);
  }

  /** What `kh_put` asks for: one less keeps the capacity, one more doubles it. */
  lemma TargetOfNeighbours(n: nat)
    requires Capacity(n)
    ensures Target(n - 1) == n
    ensures n < MAX_BUCKETS ==> Target(n + 1) == 2 * n
  {
    hide KRoundUp32;
    var k := CapacityLog(n);
    MaxBuckets();
    Pow2At32();
    assert Pow2(k) == 2 * Pow2(k - 1);
    Pow2Grows(k, 31);
    RoundsUp(n - 1, k);
    RoundsUp(n + 1, k + 1);
  }

  lemma TargetOfOne()
    ensures Target(1) == 4
  {
    hide KRoundUp32;
    RoundsUp(1, 0);
  }

  /** The four counters of a table whose flags are `flags`. */
  ghost predicate Counted(flags: seq<Slot>, size: nat, occupied: nat, upper: nat) {
    && (|flags| == 0 || Capacity(|flags|))
    && size == |LiveSet(flags)|
    && occupied == |OccupiedSet(flags)|
    && upper == UpperBound(|flags|)
    && occupied <= upper
  }

  // ---------- kh_resize, loop by loop ----------

  ghost predicate Distinct<K, V>(oldFlags: array<Slot>, newFlags: array<Slot>, keys: array<K>, vals: array<V>) {
    && oldFlags != newFlags
    && oldFlags as object != keys && oldFlags as object != vals
    && newFlags as object != keys && newFlags as object != vals
    && keys as object != vals && keys.Length == vals.Length
  }

  /** The innermost loop, which has no wrap-around guard: the first empty bucket for hash `h`. */
  method FindEmpty(flags: array<Slot>, h: nat) returns (i: nat)
    requires Capacity(flags.Length) && |OccupiedSet(flags[..])| < flags.Length
    ensures i < flags.Length && flags[i].Empty? && Reach(flags[..], h, i)
  {
    hide Reach, PathTo, At, NextBucket;
    ghost var k := CapacityLog(flags.Length);
    hide Capacity, OccupiedSet, Pow2;
    var step := 0;
    i := h % flags.Length;
    AtStart(h, flags.Length);
    PathStart(flags[..], h);
    while !flags[i].Empty?
      invariant step < flags.Length && i < flags.Length && i == At(h, step, flags.Length)
      invariant PathTo(flags[..], h, step)
      decreases flags.Length - step
    {
      PathNext(flags[..], h, i, step, k);
      step := step + 1;
      i := NextBucket(i, step, flags.Length);
    }
    PathEnd(flags[..], h, step);
  }

  /**
  One turn of the kick-out loop: the pair in hand goes to its new bucket; a pair still
  live there in the old layout comes into the hand, otherwise the hand is empty.
  */
  method PlaceOne<K, V>(hash: K -> nat, oldFlags: array<Slot>, newFlags: array<Slot>, keys: array<K>, vals: array<V>,
                        key: K, val: V, ghost m: map<K, V>, ghost at: map<K, nat>)
    returns (placed: bool, key': K, val': V, ghost at': map<K, nat>)
    requires Distinct(oldFlags, newFlags, keys, vals)
    requires Capacity(newFlags.Length) && |m| < newFlags.Length
    requires R.InHand(hash, oldFlags[..], newFlags[..], keys[..], vals[..], m, at, key, val)
    modifies oldFlags, newFlags, keys, vals
    ensures Retires(old(oldFlags[..]), oldFlags[..])
    ensures placed ==> R.InPlace(hash, oldFlags[..], newFlags[..], keys[..], vals[..], m, at')
    ensures !placed ==> R.InHand(hash, oldFlags[..], newFlags[..], keys[..], vals[..], m, at', key', val')
    ensures !placed ==> |LiveSet(oldFlags[..])| < old(|LiveSet(oldFlags[..])|)
  {
    hide R.InHand, R.InPlace, Reach, LiveSet, OccupiedSet, Capacity;
    ghost var o, n, ks, vs := oldFlags[..], newFlags[..], keys[..], vals[..];
    R.RoomLeft(hash, o, n, ks, vs, m, at, key, val);
    R.Lengths(hash, o, n, ks, vs, m, at, key, val);
    var i := FindEmpty(newFlags, hash(key));
    newFlags[i] := Live;
    assert newFlags[..] == n[i := Live];
    if i < oldFlags.Length && oldFlags[i].Live? {
      R.Kick(hash, o, n, ks, vs, m, at, key, val, i);
      CountDelete(o, i);
      key', keys[i] := keys[i], key;
      val', vals[i] := vals[i], val;
      oldFlags[i] := Deleted;
      assert oldFlags[..] == o[i := Deleted] && keys[..] == ks[i := key] && vals[..] == vs[i := val];
      placed, at' := false, (at - {key'})[key := i];
    } else {
      R.Drop(hash, o, n, ks, vs, m, at, key, val, i);
      keys[i], vals[i] := key, val;
      assert keys[..] == ks[i := key] && vals[..] == vs[i := val];
      placed, key', val', at' := true, key, val, at[key := i];
    }
  }

  /** Rehashing only takes old buckets out of use. */
  ghost predicate Retires(before: seq<Slot>, after: seq<Slot>) {
    |before| == |after| && forall i | 0 <= i < |before| && after[i].Live? :: before[i].Live?
  }

  /** The kick-out loop: places the pair in hand and every pair it displaces. */
  method KickOut<K, V>(hash: K -> nat, oldFlags: array<Slot>, newFlags: array<Slot>, keys: array<K>, vals: array<V>,
                       key0: K, val0: V, ghost m: map<K, V>, ghost at0: map<K, nat>)
    returns (ghost at: map<K, nat>)
    requires Distinct(oldFlags, newFlags, keys, vals)
    requires Capacity(newFlags.Length) && |m| < newFlags.Length
    requires R.InHand(hash, oldFlags[..], newFlags[..], keys[..], vals[..], m, at0, key0, val0)
    modifies oldFlags, newFlags, keys, vals
    ensures Retires(old(oldFlags[..]), oldFlags[..])
    ensures R.InPlace(hash, oldFlags[..], newFlags[..], keys[..], vals[..], m, at)
  {
    hide R.InHand, R.InPlace, LiveSet, Capacity, Distinct;
    var key, val, placed := key0, val0, false;
    at := at0;
    while !placed
      invariant Retires(old(oldFlags[..]), oldFlags[..])
      invariant placed ==> R.InPlace(hash, oldFlags[..], newFlags[..], keys[..], vals[..], m, at)
      invariant !placed ==> R.InHand(hash, oldFlags[..], newFlags[..], keys[..], vals[..], m, at, key, val)
      decreases !placed, |LiveSet(oldFlags[..])|
    {
      placed, key, val, at := PlaceOne(hash, oldFlags, newFlags, keys, vals, key, val, m, at);
    }
  }

  /** The outer loop: scans every old bucket and rehashes the live ones. */
  method RehashAll<K, V>(hash: K -> nat, oldFlags: array<Slot>, newFlags: array<Slot>, keys: array<K>, vals: array<V>,
                         ghost m: map<K, V>, ghost at0: map<K, nat>)
    returns (ghost at: map<K, nat>, ghost scans: nat)
    requires Distinct(oldFlags, newFlags, keys, vals)
    requires Capacity(newFlags.Length) && |m| < newFlags.Length
    requires oldFlags.Length <= keys.Length
    requires R.InPlace(hash, oldFlags[..], newFlags[..], keys[..], vals[..], m, at0)
    modifies oldFlags, newFlags, keys, vals
    ensures scans == oldFlags.Length
    ensures forall i | 0 <= i < oldFlags.Length :: !oldFlags[i].Live?
    ensures R.InPlace(hash, oldFlags[..], newFlags[..], keys[..], vals[..], m, at)
  {
    hide R.InHand, R.InPlace, Capacity, Distinct;
    at, scans := at0, 0;
    var j := 0;
    while j != oldFlags.Length
      invariant j <= oldFlags.Length && scans == j
      invariant forall i | 0 <= i < j :: !oldFlags[i].Live?
      invariant R.InPlace(hash, oldFlags[..], newFlags[..], keys[..], vals[..], m, at)
      decreases oldFlags.Length - j
    {
      if oldFlags[j].Live? {
        at := RehashBucket(hash, oldFlags, newFlags, keys, vals, j, m, at);
      }
      j, scans := j + 1, scans + 1;
    }
  }

  /** The body of the outer loop on a live bucket. */
  method RehashBucket<K, V>(hash: K -> nat, oldFlags: array<Slot>, newFlags: array<Slot>,
                            keys: array<K>, vals: array<V>,
                            j: nat, ghost m: map<K, V>, ghost at0: map<K, nat>)
    returns (ghost at: map<K, nat>)
    requires Distinct(oldFlags, newFlags, keys, vals)
    requires Capacity(newFlags.Length) && |m| < newFlags.Length
    requires j < oldFlags.Length <= keys.Length && oldFlags[j].Live?
    requires R.InPlace(hash, oldFlags[..], newFlags[..], keys[..], vals[..], m, at0)
    modifies oldFlags, newFlags, keys, vals
    ensures Retires(old(oldFlags[..]), oldFlags[..]) && !oldFlags[j].Live?
    ensures R.InPlace(hash, oldFlags[..], newFlags[..], keys[..], vals[..], m, at)
  {
    hide R.InHand, R.InPlace, Capacity;
    var key, val := keys[j], vals[j];
    R.PickUp(hash, oldFlags[..], newFlags[..], keys[..], vals[..], m, at0, j);
    ghost var o := oldFlags[..];
    oldFlags[j] := Deleted;
    assert oldFlags[..] == o[j := Deleted];
    at := KickOut(hash, oldFlags, newFlags, keys, vals, key, val, m, at0 - {key});
    assert !o[j := Deleted][j].Live?;
  }

  /** `krealloc`: a block of `n` elements that starts with the old contents. */
  method Realloc<T(0)>(a: array<T>, n: nat) returns (b: array<T>)
    ensures fresh(b) && b.Length == n
    ensures forall i | 0 <= i < n && i < a.Length :: b[i] == a[i]
  {
    b := new T[n];
    forall i | 0 <= i < n && i < a.Length {
      b[i] := a[i];
    }
  }

  /** The reallocations around the rehash: wide enough for both layouts before, exact after. */
  method Widen<K(0), V(0)>(keys: array<K>, vals: array<V>, n: nat) returns (ks: array<K>, vs: array<V>)
    requires keys as object != vals && keys.Length == vals.Length
    ensures (ks != keys ==> fresh(ks)) && (vs != vals ==> fresh(vs))
    ensures ks as object != vs && ks.Length == vs.Length >= n
    ensures keys[..] <= ks[..] && vals[..] <= vs[..]
  {
    ks, vs := keys, vals;
    if keys.Length < n {
      ks := Realloc(keys, n);
      vs := Realloc(vals, n);
    }
  }

  method Narrow<K(0), V(0)>(keys: array<K>, vals: array<V>, n: nat) returns (ks: array<K>, vs: array<V>)
    requires keys as object != vals && keys.Length == vals.Length >= n
    ensures (ks != keys ==> fresh(ks)) && (vs != vals ==> fresh(vs))
    ensures ks as object != vs
    ensures ks[..] == keys[..n] && vs[..] == vals[..n]
  {
    ks, vs := keys, vals;
    if keys.Length > n {
      ks := Realloc(keys, n);
      vs := Realloc(vals, n);
    }
  }

  /** The rehash of `kh_resize`: new arrays of capacity `n` for the same map. */
  method Relayout<K(0), V(0)>(hash: K -> nat, flags: array<Slot>, keys: array<K>, vals: array<V>, n: nat,
                              ghost m: map<K, V>, ghost at0: map<K, nat>)
    returns (newFlags: array<Slot>, ks: array<K>, vs: array<V>, ghost at: map<K, nat>, ghost scans: nat)
    requires flags as object != keys && flags as object != vals && keys as object != vals
    requires flags.Length == keys.Length == vals.Length
    requires Represents(hash, flags[..], keys[..], vals[..], m, at0)
    requires Capacity(n) && |m| < n
    modifies flags, keys, vals
    ensures fresh(newFlags) && (ks != keys ==> fresh(ks)) && (vs != vals ==> fresh(vs))
    ensures newFlags as object != ks && newFlags as object != vs && ks as object != vs
    ensures newFlags.Length == ks.Length == vs.Length == n
    ensures Represents(hash, newFlags[..], ks[..], vs[..], m, at)
    ensures |LiveSet(newFlags[..])| == |OccupiedSet(newFlags[..])| == |m|
    ensures scans == flags.Length
  {
    hide *;
    newFlags := new Slot[n](_ => Empty);
    ghost var keys0, vals0 := keys[..], vals[..];
    ks, vs := Widen(keys, vals, n);
    R.Begin(hash, flags[..], newFlags[..], keys0, vals0, ks[..], vs[..], m, at0);
    assert Distinct(flags, newFlags, ks, vs) by { IsDistinct(flags, newFlags, ks, vs); }
    at, scans := RehashAll(hash, flags, newFlags, ks, vs, m, at0);
    R.Finish(hash, flags[..], newFlags[..], ks[..], vs[..], m, at);
    ghost var f := newFlags[..];
    ks, vs := Narrow(ks, vs, n);
    assert newFlags[..] == f;
  }

  lemma IsDistinct<K, V>(oldFlags: array<Slot>, newFlags: array<Slot>, keys: array<K>, vals: array<V>)
    requires oldFlags != newFlags
    requires oldFlags as object != keys && oldFlags as object != vals
    requires newFlags as object != keys && newFlags as object != vals
    requires keys as object != vals && keys.Length == vals.Length
    ensures Distinct(oldFlags, newFlags, keys, vals)
  {
  }

  lemma UpperBoundBelow(n: nat)
    requires Capacity(n)
    ensures 0 < UpperBound(n) < n
  {
    UpperBoundFacts(n);
  }

  lemma RebuiltCounts(flags: seq<Slot>, size: nat)
    requires Capacity(|flags|) && size < UpperBound(|flags|)
    requires |LiveSet(flags)| == |OccupiedSet(flags)| == size
    ensures Counted(flags, size, size, UpperBound(|flags|))
  {
  }

  /** The table invariant on values: arrays and counters of a table standing for the map `m`. */
  ghost predicate Intact<K, V>(hash: K -> nat, flags: seq<Slot>, keys: seq<K>, vals: seq<V>,
                               size: nat, occupied: nat, upper: nat, m: map<K, V>, at: map<K, nat>)
  {
    && |flags| == |keys| == |vals|
    && size == |m|
    && Counted(flags, size, occupied, upper)
    && Represents(hash, flags, keys, vals, m, at)
  }

  /** The invariant of a table with these arrays and counters, standing for the map `m`. */
  ghost predicate Sound<K, V>(hash: K -> nat, flags: array<Slot>, keys: array<K>, vals: array<V>,
                              n: nat, size: nat, occupied: nat, upper: nat, m: map<K, V>, at: map<K, nat>)
    reads flags, keys, vals
    ensures Sound(hash, flags, keys, vals, n, size, occupied, upper, m, at) ==>
              flags.Length == keys.Length == vals.Length == n
  {
    && flags as object != keys && flags as object != vals && keys as object != vals
    && flags.Length == keys.Length == vals.Length == n
    && Intact(hash, flags[..], keys[..], vals[..], size, occupied, upper, m, at)
  }

  /** Filling bucket `x`, not live and on the search path of the absent `key`. */
  lemma FillKeeps<K, V>(hash: K -> nat, flags: seq<Slot>, keys: seq<K>, vals: seq<V>,
                        size: nat, occupied: nat, upper: nat, m: map<K, V>, at: map<K, nat>, key: K, x: nat)
    requires Intact(hash, flags, keys, vals, size, occupied, upper, m, at)
    requires key !in m && occupied < upper
    requires x < |flags| && !flags[x].Live? && Reach(flags, hash(key), x)
    ensures flags[x].Deleted? ==> size < occupied
    ensures Intact(hash, flags[x := Live], keys[x := key], vals, size + 1,
                   if flags[x].Empty? then occupied + 1 else occupied, upper, m[key := vals[x]], at[key := x])
  {
    hide Represents, LiveSet, OccupiedSet, Reach, Capacity, UpperBound;
    Insert(hash, flags, keys, vals, m, at, key, x);
    CountFill(flags, x);
    CountTombstone(flags, x);
    assert m[key := vals[x]].Keys == m.Keys + {key};
    assert |m[key := vals[x]].Keys| == |m.Keys| + 1;
  }

  /** Turning live bucket `x` into a tombstone. */
  lemma DeleteKeeps<K, V>(hash: K -> nat, flags: seq<Slot>, keys: seq<K>, vals: seq<V>,
                          size: nat, occupied: nat, upper: nat, m: map<K, V>, at: map<K, nat>, x: nat)
    requires Intact(hash, flags, keys, vals, size, occupied, upper, m, at)
    requires x < |flags| && flags[x].Live?
    ensures size > 0 && keys[x] in m
    ensures Intact(hash, flags[x := Deleted], keys, vals, size - 1, occupied, upper, m - {keys[x]}, at - {keys[x]})
  {
    hide Represents;
    Hit(hash, flags, keys, vals, m, at, x);
    Delete(hash, flags, keys, vals, m, at, x);
    CountDelete(flags, x);
    assert (m - {keys[x]}).Keys == m.Keys - {keys[x]};
    assert |(m - {keys[x]}).Keys| == |m.Keys| - 1;
  }

  /** Storing a value in live bucket `x`. */
  lemma StoreKeeps<K, V>(hash: K -> nat, flags: seq<Slot>, keys: seq<K>, vals: seq<V>,
                         size: nat, occupied: nat, upper: nat, m: map<K, V>, at: map<K, nat>, x: nat, val: V)
    requires Intact(hash, flags, keys, vals, size, occupied, upper, m, at)
    requires x < |flags| && flags[x].Live?
    ensures Intact(hash, flags, keys, vals[x := val], size, occupied, upper, m[keys[x] := val], at)
  {
    hide Represents;
    Hit(hash, flags, keys, vals, m, at, x);
    Store(hash, flags, keys, vals, m, at, x, val);
    assert m[keys[x] := val].Keys == m.Keys;
    assert |m[keys[x] := val].Keys| == |m.Keys|;
  }

  lemma ClearKeeps<K, V>(hash: K -> nat, flags: seq<Slot>, keys: seq<K>, vals: seq<V>)
    requires |flags| == |keys| == |vals| && (|flags| == 0 || Capacity(|flags|))
    requires forall i | 0 <= i < |flags| :: flags[i].Empty?
    ensures Intact(hash, flags, keys, vals, 0, 0, UpperBound(|flags|), map[], map[])
  {
    NothingLive(hash, flags, keys, vals);
  }

  /** `Relayout` on a whole table: the same map at capacity `n`, without tombstones. */
  method Rebuilt<K(0), V(0)>(hash: K -> nat, flags: array<Slot>, keys: array<K>, vals: array<V>,
                             n0: nat, size: nat, occupied: nat, upper: nat, n: nat,
                             ghost m: map<K, V>, ghost at0: map<K, nat>)
    returns (fs: array<Slot>, ks: array<K>, vs: array<V>, ghost at: map<K, nat>, ghost scans: nat)
    requires Sound(hash, flags, keys, vals, n0, size, occupied, upper, m, at0)
    requires Capacity(n) && size < UpperBound(n)
    modifies flags, keys, vals
    ensures Sound(hash, fs, ks, vs, n, size, size, UpperBound(n), m, at)
    ensures fresh(fs) && (ks != keys ==> fresh(ks)) && (vs != vals ==> fresh(vs))
    ensures scans == n0
  {
    hide Represents, Capacity, Counted, LiveSet, OccupiedSet, UpperBound;
    UpperBoundBelow(n);
    fs, ks, vs, at, scans := Relayout(hash, flags, keys, vals, n, m, at0);
    RebuiltCounts(fs[..], size);
  }

  class HashTable<K(==, 0), V(0)> {
    const hash: K -> nat
    var nBuckets: nat
    var size: nat
    var nOccupied: nat
    var upperBound: nat
    var flags: array<Slot>
    var keys: array<K>
    var vals: array<V>

    ghost var m: map<K, V>       // the map the table stands for
    ghost var at: map<K, nat>    // the bucket of each key
    ghost var scanned: nat       // old buckets scanned by all rehashes so far
    ghost var inserted: nat      // calls of Put that returned 1 so far

    ghost function Ledger(): Account
      reads this`nBuckets, this`size, this`nOccupied, this`scanned, this`inserted
    {
      Account(nBuckets, size, nOccupied, scanned, inserted)
    }

    ghost predicate Valid()
      reads this, flags, keys, vals
      ensures Valid() ==> flags.Length == keys.Length == vals.Length == nBuckets
    {
      Sound(hash, flags, keys, vals, nBuckets, size, nOccupied, upperBound, m, at)
    }

    /** `kh_init` */
    constructor (hash: K -> nat)
      ensures Valid() && fresh(flags) && fresh(keys) && fresh(vals)
      ensures this.hash == hash && m == map[] && Ledger() == Account(0, 0, 0, 0, 0)
    {
      this.hash := hash;
      nBuckets, size, nOccupied, upperBound := 0, 0, 0, 0;
      flags, keys, vals := new Slot[0], new K[0], new V[0];
      m, at, scanned, inserted := map[], map[], 0, 0;
      new;
      NothingLive(hash, flags[..], keys[..], vals[..]);
    }

    /** `kh_clear` */
    method Clear()
      requires Valid()
      modifies this, flags
      ensures Valid() && m == map[]
      ensures flags == old(flags) && keys == old(keys) && vals == old(vals)
      ensures ClearStep(old(Ledger()), Ledger())
    {
      forall i | 0 <= i < flags.Length {
        flags[i] := Empty;
      }
      size, nOccupied := 0, 0;
      m, at := map[], map[];
      ClearKeeps(hash, flags[..], keys[..], vals[..]);
    }

    lemma HasEmpty()
      requires Valid() && nBuckets > 0
      ensures Capacity(nBuckets) && |OccupiedSet(flags[..])| < nBuckets
    {
      hide Represents;
      UpperBoundFacts(nBuckets);
    }

    /** `kh_get`: the bucket of `key`, or `nBuckets` when it is absent. */
    method Get(key: K) returns (x: nat)
      requires Valid()
      ensures x == if key in m then at[key] else nBuckets
      ensures x < nBuckets <==> key in m
      ensures x < nBuckets ==> flags[x].Live? && keys[x] == key && vals[x] == m[key]
    {
      if nBuckets == 0 {
        EmptyTable();
        return 0;
      }
      hide Represents, Counted, Passed, At, NextBucket;
      HasEmpty();
      ghost var k := CapacityLog(nBuckets);
      var step := 0;
      var i := hash(key) % nBuckets;
      var last := i;
      AtStart(hash(key), nBuckets);
      PassedNone(hash, flags[..], keys[..], key);
      while !flags[i].Empty? && (flags[i].Deleted? || keys[i] != key)
        invariant step < nBuckets && i < nBuckets && i == At(hash(key), step, nBuckets)
        invariant Passed(hash, flags[..], keys[..], key, step)
        decreases nBuckets - step
      {
        Advance(hash, flags[..], keys[..], key, i, step, k);
        step := step + 1;
        i := NextBucket(i, step, nBuckets);
        if i == last {
          assert false;
          return nBuckets;
        }
      }
      if flags[i].Empty? {
        Miss(hash, flags[..], keys[..], vals[..], m, at, key, step);
        return nBuckets;
      }
      Hit(hash, flags[..], keys[..], vals[..], m, at, i);
      return i;
    }

    lemma EmptyTable()
      requires Valid() && nBuckets == 0
      ensures m == map[]
    {
      hide Counted;
      LiveCountIsMapSize(hash, flags[..], keys[..], vals[..], m, at);
      assert LiveSet(flags[..]) == {};
    }

    /** The array part of a rehash: `newFlags` becomes the table's flags. */
    method Rebuild(n: nat)
      requires Valid() && Capacity(n) && size < UpperBound(n)
      modifies this, flags, keys, vals
      ensures Valid()
      ensures fresh(flags) && (keys != old(keys) ==> fresh(keys)) && (vals != old(vals) ==> fresh(vals))
      ensures m == old(m) && nBuckets == n && nOccupied == size == old(size)
      ensures scanned == old(scanned) + old(nBuckets) && inserted == old(inserted)
    {
      hide Sound, Capacity, UpperBound;
      var f, ks, vs, at', scans := Rebuilt(hash, flags, keys, vals, nBuckets, size, nOccupied, upperBound, n, m, at);
      Install(f, ks, vs, n, at', scans);
    }

    /** The closing assignments of `kh_resize`. */
    method Install(f: array<Slot>, ks: array<K>, vs: array<V>, n: nat, ghost at': map<K, nat>, ghost scans: nat)
      requires Sound(hash, f, ks, vs, n, size, size, UpperBound(n), m, at')
      modifies this
      ensures Valid()
      ensures flags == f && keys == ks && vals == vs && m == old(m)
      ensures nBuckets == n && nOccupied == size == old(size)
      ensures scanned == old(scanned) + scans && inserted == old(inserted)
    {
      hide Sound, UpperBound;
      flags, keys, vals := f, ks, vs;
      at, scanned := at', scanned + scans;
      nBuckets, nOccupied, upperBound := n, size, UpperBound(n);
    }

    /** `kh_resize` */
    method Resize(newN: nat)
      requires Valid() && newN < TWO32
      modifies this, flags, keys, vals
      ensures Valid()
      ensures flags != old(flags) ==> fresh(flags)
      ensures (keys != old(keys) ==> fresh(keys)) && (vals != old(vals) ==> fresh(vals))
      ensures m == old(m)
      ensures if |m| < UpperBound(Target(newN))
              then nBuckets == Target(newN) && nOccupied == size
                   && scanned == old(scanned) + old(nBuckets) && inserted == old(inserted)
              else unchanged(this) && unchanged(flags) && unchanged(keys) && unchanged(vals)
    {
      hide Represents, Capacity, Counted, KRoundUp32;
      var n := KRoundUp32(newN);
      if n < 4 {
        n := 4;
      }
      assert n == Target(newN);
      if size < UpperBound(n) {
        Rebuild(n);
      }
    }

    /** A table of 2^31 buckets cannot double. */
    ghost predicate CanGrow()
      reads this
    {
      nBuckets < MAX_BUCKETS || nOccupied < upperBound || nBuckets > 2 * size
    }

    /** A map of fewer than 2^30 keys never fills a table that cannot grow. */
    lemma FewCanGrow()
      requires Valid() && |m| < MAX_KEYS
      ensures CanGrow()
    {
      RoomFacts();
      SizeIsCount();
    }

    /** The value of a live bucket is that of its key. */
    lemma BucketHolds(x: nat)
      requires Valid() && x < nBuckets && flags[x].Live?
      ensures keys[x] in m && m[keys[x]] == vals[x]
    {
      hide Represents;
      Hit(hash, flags[..], keys[..], vals[..], m, at, x);
    }

    /**
    The first part of `kh_put`: a rehash when too few empty buckets are left.  It makes room
    exactly when the table need not double beyond 2^31 buckets; otherwise nothing changes.
    */
    method MakeRoom()
      requires Valid()
      modifies this, flags, keys, vals
      ensures Valid()
      ensures flags != old(flags) ==> fresh(flags)
      ensures (keys != old(keys) ==> fresh(keys)) && (vals != old(vals) ==> fresh(vals))
      ensures m == old(m) && 0 < nBuckets
      ensures nOccupied < upperBound <==> old(CanGrow())
      ensures Ledger() == if old(CanGrow()) then Roomy(old(Ledger())) else old(Ledger())
      ensures old(CanGrow()) ==>
                nBuckets == if old(nOccupied < upperBound || nBuckets > 2 * size) then old(nBuckets)
                            else if old(nBuckets) == 0 then 4
                            else 2 * old(nBuckets)
      ensures if old(nOccupied < upperBound) then
                unchanged(this) && unchanged(flags) && unchanged(keys) && unchanged(vals)
              else old(CanGrow()) ==> nOccupied == size
    {
      hide Represents, Target, Capacity, Counted;
      RoomFacts();
      if nOccupied >= upperBound {
        if nBuckets > 2 * size {
          Resize(nBuckets - 1);
        } else {
          Resize(nBuckets + 1);
        }
      }
      CountFacts();
    }

    lemma CountFacts()
      requires Valid()
      ensures Consistent(Ledger()) && upperBound == UpperBound(nBuckets)
    {
      hide Represents;
      assert LiveSet(flags[..]) <= OccupiedSet(flags[..]);
      SubsetSize(LiveSet(flags[..]), OccupiedSet(flags[..]));
    }

    lemma SizeIsCount()
      requires Valid()
      ensures size == |m|
    {
      hide Counted;
      LiveCountIsMapSize(hash, flags[..], keys[..], vals[..], m, at);
    }

    lemma RoomFacts()
      requires Valid()
      ensures upperBound == UpperBound(nBuckets) && nBuckets <= MAX_BUCKETS
      ensures nBuckets == 0 ==> Target(nBuckets + 1) == 4 && size < UpperBound(4)
      ensures nBuckets > 0 ==> Target(nBuckets - 1) == nBuckets
      ensures 0 < nBuckets < MAX_BUCKETS ==> Target(nBuckets + 1) == 2 * nBuckets
      ensures Target(MAX_BUCKETS + 1) == 4 && (nBuckets == MAX_BUCKETS && nBuckets <= 2 * size ==> |m| >= UpperBound(4))
      ensures nBuckets > 2 * size ==> size < UpperBound(nBuckets)
      ensures size < UpperBound(2 * nBuckets) || nBuckets == 0
    {
      hide Represents, Target;
      CountFacts();
      TargetOfOne();
      TargetTooLarge();
      if nBuckets > 0 {
        TargetOfNeighbours(nBuckets);
        UpperBoundFacts(nBuckets);
      }
    }

    /**
    The probe loop of `kh_put`: the bucket of `key` if it is present; otherwise the last
    tombstone on its search path, or the empty bucket, `t` steps away, that ends the search.
    */
    method FindSite(key: K) returns (x: nat, ghost t: nat)
      requires Valid() && nBuckets > 0
      ensures x < nBuckets
      ensures key in m ==> x == at[key] && flags[x].Live? && keys[x] == key
      ensures key !in m ==> EndsAt(hash, flags[..], keys[..], key, t) && x == SiteFor(flags[..], hash(key), t)
    {
      hide *;
      HasEmpty();
      ghost var k := CapacityLog(nBuckets);
      ghost var fs, ks := flags[..], keys[..];
      var step := 0;
      var i := hash(key) % nBuckets;
      x := nBuckets;
      var site: nat := nBuckets;
      AtStart(hash(key), nBuckets);
      PassedNone(hash, fs, ks, key);
      NoTombstoneYet(fs, hash(key));
      t := 0;
      if flags[i].Empty? {
        x := i;
      } else {
        var last := i;
        while !flags[i].Empty? && (flags[i].Deleted? || keys[i] != key)
          invariant x == nBuckets && t == step
          invariant step < nBuckets && i < nBuckets && i == At(hash(key), step, nBuckets)
          invariant Passed(hash, fs, ks, key, step)
          invariant site == LastTombstone(fs, hash(key), step)
          decreases nBuckets - step
        {
          Advance(hash, fs, ks, key, i, step, k);
          TombstoneNext(fs, hash(key), step);
          if flags[i].Deleted? {
            site := i;
          }
          step := step + 1;
          i := NextBucket(i, step, nBuckets);
          t := step;
          if i == last {
            assert false;
            x := site;
            break;
          }
        }
        if x == nBuckets {
          if flags[i].Empty? && site != nBuckets {
            x := site;
          } else {
            x := i;
          }
        }
      }
      FoundSite(key, x, i, site, t);
    }

    lemma FoundSite(key: K, x: nat, i: nat, site: nat, t: nat)
      requires Valid() && t < nBuckets && i == At(hash(key), t, nBuckets)
      requires Passed(hash, flags[..], keys[..], key, t)
      requires site == LastTombstone(flags[..], hash(key), t)
      requires flags[i].Empty? || (flags[i].Live? && keys[i] == key)
      requires x == if flags[i].Empty? && site != nBuckets then site else i
      ensures x < nBuckets
      ensures key in m ==> x == at[key] && flags[x].Live? && keys[x] == key
      ensures key !in m ==> EndsAt(hash, flags[..], keys[..], key, t) && x == SiteFor(flags[..], hash(key), t)
    {
      hide Represents, Counted, Passed, At;
      if flags[i].Empty? {
        Miss(hash, flags[..], keys[..], vals[..], m, at, key, t);
      } else {
        Hit(hash, flags[..], keys[..], vals[..], m, at, i);
      }
    }

    /** The closing part of `kh_put` for an absent key: bucket `x` becomes its bucket. */
    method Fill(key: K, x: nat) returns (ret: nat)
      requires Valid() && key !in m && nOccupied < upperBound
      requires x < nBuckets && !flags[x].Live? && Reach(flags[..], hash(key), x)
      modifies this`size, this`nOccupied, this`m, this`at, this`inserted, flags, keys
      ensures Valid() && m == old(m)[key := vals[x]] && at == old(at)[key := x]
      ensures flags[x].Live? && keys[x] == key
      ensures ret == if old(flags[x]).Empty? then 1 else 2
      ensures size == old(size) + 1
      ensures nOccupied == old(nOccupied) + (if ret == 1 then 1 else 0)
      ensures inserted == old(inserted) + (if ret == 1 then 1 else 0)
      ensures ret == 2 ==> old(size) < old(nOccupied)
    {
      hide *;
      Invariant();
      ghost var fs, ks, vs := flags[..], keys[..], vals[..];
      FillKeeps(hash, fs, ks, vs, size, nOccupied, upperBound, m, at, key, x);
      ret := Mark(key, x);
      size := size + 1;
      m, at := m[key := vs[x]], at[key := x];
      assert flags[..] == fs[x := Live] && keys[..] == ks[x := key] && vals[..] == vs;
      Revalidated();
    }

    /** `__ac_set_isboth_false` on bucket `x`, its key, and the counters that depend on what it was. */
    method Mark(key: K, x: nat) returns (ret: nat)
      requires flags as object != keys && x < flags.Length == keys.Length
      modifies this`nOccupied, this`inserted, flags, keys
      ensures flags[..] == old(flags[..])[x := Live] && keys[..] == old(keys[..])[x := key]
      ensures ret == if old(flags[x]).Empty? then 1 else 2
      ensures nOccupied == old(nOccupied) + (if ret == 1 then 1 else 0)
      ensures inserted == old(inserted) + (if ret == 1 then 1 else 0)
    {
      if flags[x].Empty? {
        ret, nOccupied, inserted := 1, nOccupied + 1, inserted + 1;
      } else {
        ret := 2;
      }
      keys[x] := key;
      flags[x] := Live;
    }

    lemma Invariant()
      requires Valid()
      ensures flags as object != keys && flags as object != vals && keys as object != vals
      ensures Intact(hash, flags[..], keys[..], vals[..], size, nOccupied, upperBound, m, at)
    {
    }

    lemma Revalidated()
      ensures (flags as object != keys && flags as object != vals && keys as object != vals
               && flags.Length == keys.Length == vals.Length == nBuckets
               && Intact(hash, flags[..], keys[..], vals[..], size, nOccupied, upperBound, m, at)) ==> Valid()
    {
    }

    /**
    `kh_put`: `ret` is 0 when `key` was present, 1 when it took an empty bucket and 2 when
    it took a tombstone.  The value of a new key is whatever its bucket holds.
    */
    method Put(key: K) returns (x: nat, ret: nat)
      requires Valid() && CanGrow()
      modifies this, flags, keys, vals
      ensures Valid()
      ensures flags != old(flags) ==> fresh(flags)
      ensures (keys != old(keys) ==> fresh(keys)) && (vals != old(vals) ==> fresh(vals))
      ensures x < nBuckets && flags[x].Live? && keys[x] == key && key in m && at[key] == x
      ensures ret == 0 <==> key in old(m)
      ensures m == if ret == 0 then old(m) else old(m)[key := vals[x]]
      ensures PutStep(old(Ledger()), Ledger(), ret)
      ensures ret <= 2 && inserted == old(inserted) + (if ret == 1 then 1 else 0)
      ensures size == old(size) + (if ret == 0 then 0 else 1)
      ensures if old(nOccupied < upperBound) then
                && nBuckets == old(nBuckets)
                && (ret == 1 ==> old(flags[x]).Empty?) && (ret == 2 ==> old(flags[x]).Deleted?)
              else ret != 2
    {
      hide Sound;
      MakeRoom();
      CountFacts();
      ghost var t;
      x, t := FindSite(key);
      ret := 0;
      if !flags[x].Live? {
        SiteReached(hash, flags[..], keys[..], key, t);
        ret := Fill(key, x);
      }
    }

    /** `kh_del` */
    method Del(x: nat)
      requires Valid() && x <= nBuckets
      modifies this`size, this`m, this`at, flags
      ensures Valid()
      ensures m == if x < nBuckets && old(flags[x]).Live? then old(m) - {old(keys[x])} else old(m)
      ensures DelStep(old(Ledger()), Ledger())
    {
      if x != nBuckets && flags[x].Live? {
        Entomb(x);
      }
    }

    method Entomb(x: nat)
      requires Valid() && x < nBuckets && flags[x].Live?
      modifies this`size, this`m, this`at, flags
      ensures Valid() && m == old(m) - {old(keys[x])} && old(size) > 0 && size == old(size) - 1
    {
      hide *;
      Invariant();
      ghost var fs, ks, vs := flags[..], keys[..], vals[..];
      DeleteKeeps(hash, fs, ks, vs, size, nOccupied, upperBound, m, at, x);
      flags[x] := Deleted;
      size := size - 1;
      m, at := m - {ks[x]}, at - {ks[x]};
      assert flags[..] == fs[x := Deleted] && keys[..] == ks && vals[..] == vs;
      Revalidated();
    }

    /** `kh_val(h, x) = val` */
    method SetVal(x: nat, val: V)
      requires Valid() && x < nBuckets && flags[x].Live?
      modifies this`m, vals
      ensures Valid() && m == old(m)[old(keys[x]) := val] && vals[x] == val && Ledger() == old(Ledger())
    {
      hide *;
      Invariant();
      ghost var vs := vals[..];
      StoreKeeps(hash, flags[..], keys[..], vs, size, nOccupied, upperBound, m, at, x, val);
      vals[x] := val;
      m := m[keys[x] := val];
      assert vals[..] == vs[x := val];
      Revalidated();
    }
  }
}
