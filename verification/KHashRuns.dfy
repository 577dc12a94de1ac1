/**
Runs of the hash table: any sequence of insertions, removals, clears and resizes by a client.

`Replay` shows that the table stands, after every run, for the finite map the operations mean,
and that without resizes by the client its rehashes have cost at most 4 scanned buckets per put
that returned 1.
*/
module KHashRuns {
  import opened Cost
  import opened KHash
  import opened Probe
  import opened RoundUp

  datatype Op<K, V> = Insert(key: K, val: V) | Remove(key: K) | Reset | Request(n: nat)

  /** What an operation means for a finite map. */
  function Meaning<K, V>(m: map<K, V>, op: Op<K, V>): map<K, V> {
    match op
    case Insert(k, v) => m[k := v]
    case Remove(k) => m - {k}
    case Reset => map[]
    case Request(_) => m
  }

  function MeaningAll<K, V>(m: map<K, V>, ops: seq<Op<K, V>>): map<K, V> {
    if ops == [] then m else Meaning(MeaningAll(m, ops[..|ops| - 1]), ops[|ops| - 1])
  }

  lemma DidPut(a: Account, b: Account, ret: nat)
    requires PutStep(a, b, ret)
    ensures Step(a, b)
  {
  }

  lemma DidOther(a: Account, b: Account)
    requires DelStep(a, b) || ClearStep(a, b)
    ensures Step(a, b)
  {
  }

  method DoInsert<K(==, 0), V(0)>(h: HashTable<K, V>, key: K, val: V)
    requires h.Valid() && h.CanGrow()
    modifies h, h.flags, h.keys, h.vals
    ensures h.Valid()
    ensures h.flags != old(h.flags) ==> fresh(h.flags)
    ensures (h.keys != old(h.keys) ==> fresh(h.keys)) && (h.vals != old(h.vals) ==> fresh(h.vals))
    ensures h.m == old(h.m)[key := val] && Step(old(h.Ledger()), h.Ledger())
  {
    hide *;
    var x, ret := h.Put(key);
    DidPut(old(h.Ledger()), h.Ledger(), ret);
    assert h.m[key := val] == old(h.m)[key := val];
    h.SetVal(x, val);
  }

  method DoRemove<K(==, 0), V(0)>(h: HashTable<K, V>, key: K)
    requires h.Valid()
    modifies h, h.flags, h.keys, h.vals
    ensures h.Valid()
    ensures h.flags != old(h.flags) ==> fresh(h.flags)
    ensures (h.keys != old(h.keys) ==> fresh(h.keys)) && (h.vals != old(h.vals) ==> fresh(h.vals))
    ensures h.m == old(h.m) - {key} && Step(old(h.Ledger()), h.Ledger())
  {
    hide *;
    var x := h.Get(key);
    assert key !in h.m ==> h.m - {key} == h.m;
    h.Del(x);
    DidOther(old(h.Ledger()), h.Ledger());
  }

  method DoRequest<K(==, 0), V(0)>(h: HashTable<K, V>, n: nat)
    requires h.Valid() && n < TWO32
    modifies h, h.flags, h.keys, h.vals
    ensures h.Valid() && h.m == old(h.m)
    ensures h.nBuckets == if |h.m| < UpperBound(Target(n)) then Target(n) else old(h.nBuckets)
    ensures h.flags != old(h.flags) ==> fresh(h.flags)
    ensures (h.keys != old(h.keys) ==> fresh(h.keys)) && (h.vals != old(h.vals) ==> fresh(h.vals))
  {
    hide *;
    h.Resize(n);
  }

  method Perform<K(==, 0), V(0)>(h: HashTable<K, V>, op: Op<K, V>)
    requires h.Valid() && h.CanGrow() && (op.Request? ==> op.n < TWO32)
    modifies h, h.flags, h.keys, h.vals
    ensures h.Valid()
    ensures h.flags != old(h.flags) ==> fresh(h.flags)
    ensures (h.keys != old(h.keys) ==> fresh(h.keys)) && (h.vals != old(h.vals) ==> fresh(h.vals))
    ensures h.m == Meaning(old(h.m), op) && (!op.Request? ==> Step(old(h.Ledger()), h.Ledger()))
    ensures op.Request? ==> h.nBuckets == if |h.m| < UpperBound(Target(op.n)) then Target(op.n) else old(h.nBuckets)
  {
    match op {
      case Insert(key, val) =>
        hide Step;
        DoInsert(h, key, val);
      case Remove(key) =>
        hide Step;
        DoRemove(h, key);
      case Reset =>
        hide ClearStep, Step;
        h.Clear();
        DidOther(old(h.Ledger()), h.Ledger());
      case Request(n) =>
        hide Step;
        DoRequest(h, n);
    }
  }

  lemma MeaningNone<K, V>(m: map<K, V>)
    ensures MeaningAll(m, []) == m
  {
  }

  lemma MeaningNext<K, V>(m: map<K, V>, ops: seq<Op<K, V>>, i: nat)
    requires i < |ops|
    ensures MeaningAll(m, ops[..i + 1]) == Meaning(MeaningAll(m, ops[..i]), ops[i])
  {
    assert ops[..i + 1][..i] == ops[..i];
  }

  lemma PaidIsLinear(a: Account)
    requires Paid(a)
    ensures a.scanned <= 4 * a.inserted
  {
  }

  ghost predicate NoRequest<K, V>(ops: seq<Op<K, V>>) {
    forall op | op in ops :: !op.Request?
  }

  lemma PaidOn<K, V>(ops: seq<Op<K, V>>, i: nat, a: Account, b: Account)
    requires i < |ops| && (NoRequest(ops[..i]) ==> Paid(a)) && (!ops[i].Request? ==> Step(a, b))
    ensures NoRequest(ops[..i + 1]) ==> Paid(b)
  {
    hide Paid, Step;
    assert ops[..i + 1] == ops[..i] + [ops[i]];
    if NoRequest(ops[..i + 1]) {
      StepIsPaid(a, b);
    }
  }

  lemma LedgerIs<K(0), V(0)>(h: HashTable<K, V>)
    ensures h.Ledger().n == h.nBuckets && h.Ledger().size == h.size
  {
  }

  /** Without requests, `n` buckets are within 4 per key of the largest map so far, or the `n0` of the start. */
  ghost predicate Grown<K, V>(n: nat, n0: nat, m0: map<K, V>, ops: seq<Op<K, V>>, i: nat)
    requires i <= |ops|
  {
    NoRequest(ops[..i]) ==> n <= 4 || n <= n0 || exists k | 0 <= k <= i :: n <= 4 * |MeaningAll(m0, ops[..k])|
  }

  lemma GrownOn<K, V>(m0: map<K, V>, n0: nat, ops: seq<Op<K, V>>, i: nat, a: Account, b: Account)
    requires i < |ops| && (!ops[i].Request? ==> Step(a, b)) && a.size == |MeaningAll(m0, ops[..i])|
    requires Grown(a.n, n0, m0, ops, i)
    ensures Grown(b.n, n0, m0, ops, i + 1)
  {
    hide Step, MeaningAll;
    assert ops[..i + 1] == ops[..i] + [ops[i]];
    if NoRequest(ops[..i + 1]) {
      StepGrows(a, b);
      if b.n > 4 && b.n > n0 && b.n <= a.n {
        var k :| 0 <= k <= i && a.n <= 4 * |MeaningAll(m0, ops[..k])|;
        assert b.n <= 4 * |MeaningAll(m0, ops[..k])|;
      }
    }
  }

  lemma GrownAtStart<K, V>(n0: nat, m0: map<K, V>, ops: seq<Op<K, V>>)
    ensures Grown(n0, n0, m0, ops, 0)
  {
  }

  lemma GrownAtEnd<K, V>(n: nat, n0: nat, m0: map<K, V>, ops: seq<Op<K, V>>)
    requires Grown(n, n0, m0, ops, |ops|)
    ensures NoRequest(ops) ==>
              n <= 4 || n <= n0 || exists k | 0 <= k <= |ops| :: n <= 4 * |MeaningAll(m0, ops[..k])|
  {
    assert ops[..|ops|] == ops;
  }

  /** An insertion stands until the next operation on its key, or a clear. */
  lemma {:induction false} MeaningStands<K, V>(m: map<K, V>, ops: seq<Op<K, V>>, i: nat, n: nat, key: K)
    requires i < n <= |ops| && forall j | i < j < n :: LeavesAlone(ops[j], key)
    ensures ops[i].Insert? && ops[i].key == key ==>
              key in MeaningAll(m, ops[..n]) && MeaningAll(m, ops[..n])[key] == ops[i].val
    ensures (ops[i].Remove? && ops[i].key == key) || ops[i].Reset? ==> key !in MeaningAll(m, ops[..n])
    decreases n
  {
    MeaningNext(m, ops, n - 1);
    if n > i + 1 {
      MeaningStands(m, ops, i, n - 1, key);
    }
  }

  predicate LeavesAlone<K(==), V>(op: Op<K, V>, key: K) {
    match op
    case Insert(k, _) => k != key
    case Remove(k) => k != key
    case Reset => false
    case Request(_) => true
  }

  /** A key that no operation is about keeps its value, or stays absent. */
  lemma {:induction false} MeaningSpares<K, V>(m: map<K, V>, ops: seq<Op<K, V>>, n: nat, key: K)
    requires n <= |ops| && forall j | 0 <= j < n :: LeavesAlone(ops[j], key)
    ensures key in MeaningAll(m, ops[..n]) <==> key in m
    ensures key in m ==> MeaningAll(m, ops[..n])[key] == m[key]
    decreases n
  {
    if n == 0 {
      assert ops[..0] == [];
    } else {
      MeaningNext(m, ops, n - 1);
      MeaningSpares(m, ops, n - 1, key);
    }
  }

  /** One operation of a run. */
  method PerformNext<K(==, 0), V(0)>(h: HashTable<K, V>, ops: seq<Op<K, V>>, i: nat,
                                     ghost m0: map<K, V>, ghost n0: nat, ghost paid: bool)
    requires h.Valid() && i < |ops| && h.m == MeaningAll(m0, ops[..i]) && |h.m| < MAX_KEYS
    requires ops[i].Request? ==> ops[i].n < TWO32
    requires paid ==> (NoRequest(ops[..i]) ==> Paid(h.Ledger()))
    requires Grown(h.nBuckets, n0, m0, ops, i)
    modifies h, h.flags, h.keys, h.vals
    ensures h.Valid() && h.m == MeaningAll(m0, ops[..i + 1])
    ensures h.flags != old(h.flags) ==> fresh(h.flags)
    ensures (h.keys != old(h.keys) ==> fresh(h.keys)) && (h.vals != old(h.vals) ==> fresh(h.vals))
    ensures paid ==> (NoRequest(ops[..i + 1]) ==> Paid(h.Ledger()))
    ensures Grown(h.nBuckets, n0, m0, ops, i + 1)
  {
    hide *;
    ghost var a := h.Ledger();
    h.FewCanGrow();
    h.SizeIsCount();
    LedgerIs(h);
    MeaningNext(m0, ops, i);
    Perform(h, ops[i]);
    LedgerIs(h);
    GrownOn(m0, n0, ops, i, a, h.Ledger());
    if paid {
      PaidOn(ops, i, a, h.Ledger());
    }
  }

  /** Any sequence of operations along which the map never has 2^30 keys. */
  method Replay<K(==, 0), V(0)>(h: HashTable<K, V>, ops: seq<Op<K, V>>)
    requires h.Valid()
    requires forall i | 0 <= i <= |ops| :: |MeaningAll(h.m, ops[..i])| < MAX_KEYS
    requires forall op | op in ops && op.Request? :: op.n < TWO32
    modifies h, h.flags, h.keys, h.vals
    ensures h.Valid() && h.m == MeaningAll(old(h.m), ops)
    ensures Paid(old(h.Ledger())) && NoRequest(ops) ==>
              Paid(h.Ledger()) && h.Ledger().scanned <= 4 * h.Ledger().inserted
    ensures NoRequest(ops) ==>
              h.nBuckets <= 4 || h.nBuckets <= old(h.nBuckets)
              || exists k | 0 <= k <= |ops| :: h.nBuckets <= 4 * |MeaningAll(old(h.m), ops[..k])|
  {
    ghost var m0, n0, paid := h.m, h.nBuckets, Paid(h.Ledger());
    hide *;
    var i := 0;
    MeaningNone(m0);
    GrownAtStart(n0, m0, ops);
    assert ops[..0] == [];
    while i < |ops|
      invariant 0 <= i <= |ops| && h.Valid()
      invariant h.flags != old(h.flags) ==> fresh(h.flags)
      invariant (h.keys != old(h.keys) ==> fresh(h.keys)) && (h.vals != old(h.vals) ==> fresh(h.vals))
      invariant h.m == MeaningAll(m0, ops[..i])
      invariant paid ==> (NoRequest(ops[..i]) ==> Paid(h.Ledger()))
      invariant Grown(h.nBuckets, n0, m0, ops, i)
    {
      assert |MeaningAll(m0, ops[..i])| < MAX_KEYS && ops[i] in ops;
      PerformNext(h, ops, i, m0, n0, paid);
      i := i + 1;
    }
    assert ops[..i] == ops;
    GrownAtEnd(h.nBuckets, n0, m0, ops);
    if paid && NoRequest(ops) {
      PaidIsLinear(h.Ledger());
    }
  }
}
