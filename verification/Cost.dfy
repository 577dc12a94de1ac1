/**
The cost of rehashing.  An `Account` holds a table's counters together with the number
of old buckets its rehashes have scanned and the number of puts that returned 1.

The main result is `LinearCost`: along every run of put, del and clear from an empty
table, at most 4 buckets are scanned per put that returned 1.  `CapacityBounded` bounds the memory.
*/
module Cost {
  import opened RoundUp

  datatype Account = Account(n: nat, size: nat, occupied: nat, scanned: nat, inserted: nat)

  /** What the table invariant says about the counters. */
  ghost predicate Consistent(a: Account) {
    && (a.n == 0 || (a.n >= 4 && a.n % 2 == 0))
    && a.size <= a.occupied <= UpperBound(a.n)
  }

  predicate NeedsRoom(a: Account) {
    a.occupied >= UpperBound(a.n)
  }

  /** The capacity after `kh_put` made room. */
  function RoomyCapacity(a: Account): nat {
    if !NeedsRoom(a) || a.n > 2 * a.size then a.n
    else if a.n == 0 then 4
    else 2 * a.n
  }

  /** The counters after `kh_put` made room: a rehash scans the table and drops its tombstones. */
  function Roomy(a: Account): Account {
    if NeedsRoom(a) then Account(RoomyCapacity(a), a.size, a.size, a.scanned + a.n, a.inserted) else a
  }

  ghost predicate PutStep(a: Account, b: Account, ret: nat) {
    var r := Roomy(a);
    || (ret == 0 && b == r)
    || (ret == 1 && b == r.(size := r.size + 1, occupied := r.occupied + 1, inserted := r.inserted + 1))
    || (ret == 2 && b == r.(size := r.size + 1) && r.size < r.occupied)
  }

  ghost predicate DelStep(a: Account, b: Account) {
    b == a || (a.size > 0 && b == a.(size := a.size - 1))
  }

  ghost predicate ClearStep(a: Account, b: Account) {
    b == a.(size := 0, occupied := 0)
  }

  ghost predicate Step(a: Account, b: Account) {
    (exists ret :: PutStep(a, b, ret)) || DelStep(a, b) || ClearStep(a, b)
  }

  /** Credit saved for the next rehash. */
  function Potential(a: Account): nat {
    var p := 4 * (a.occupied - a.n / 2 + 1);
    if a.n == 0 || p < 0 then 0 else p
  }

  ghost predicate Paid(a: Account) {
    Consistent(a) && a.scanned + Potential(a) <= 4 * a.inserted
  }

  /** One rehash always makes room, and the saved credit pays for it. */
  lemma RoomIsPaid(a: Account)
    requires Paid(a)
    ensures Paid(Roomy(a)) && !NeedsRoom(Roomy(a))
    ensures NeedsRoom(a) ==> Potential(Roomy(a)) == 0
  {
    if a.n > 0 {
      UpperBoundFacts(a.n);
    }
  }

  lemma PutIsPaid(a: Account, b: Account, ret: nat)
    requires Paid(a) && PutStep(a, b, ret)
    ensures Paid(b)
  {
    RoomIsPaid(a);
    hide Roomy, RoomyCapacity;
  }

  lemma StepIsPaid(a: Account, b: Account)
    requires Paid(a) && Step(a, b)
    ensures Paid(b)
  {
    if ret :| PutStep(a, b, ret) {
      PutIsPaid(a, b, ret);
    }
  }

  ghost predicate Run(run: seq<Account>) {
    && run != []
    && run[0] == Account(0, 0, 0, 0, 0)
    && forall i | 0 <= i < |run| - 1 :: Step(run[i], run[i + 1])
  }

  lemma {:induction false} LinearCost(run: seq<Account>)
    requires Run(run)
    ensures run[|run| - 1].scanned <= 4 * run[|run| - 1].inserted
    ensures Paid(run[|run| - 1])
  {
    if |run| > 1 {
      var before := run[..|run| - 1];
      assert Run(before);
      LinearCost(before);
      assert Step(run[|run| - 2], run[|run| - 1]);
      StepIsPaid(run[|run| - 2], run[|run| - 1]);
    }
  }

  /** A step grows the table only to 4 buckets, or to double a capacity of which half the buckets are live. */
  lemma StepGrows(a: Account, b: Account)
    requires Step(a, b)
    ensures b.n <= 4 || b.n <= a.n || b.n <= 4 * a.size
  {
    hide NeedsRoom;
  }

  /** The table's size along every run: never more than 4 buckets per key that was live at its peak. */
  lemma {:induction false} CapacityBounded(run: seq<Account>)
    requires Run(run)
    ensures run[|run| - 1].n <= 4 || exists i | 0 <= i < |run| :: run[|run| - 1].n <= 4 * run[i].size
  {
    if |run| > 1 {
      var k := |run| - 1;
      var before := run[..k];
      assert Run(before);
      CapacityBounded(before);
      StepGrows(run[k - 1], run[k]);
      if before[k - 1].n > 4 {
        var i :| 0 <= i < k && before[k - 1].n <= 4 * before[i].size;
        assert before[i] == run[i];
        assert run[k].n <= 4 || run[k].n <= 4 * run[i].size || run[k].n <= 4 * run[k - 1].size;
      }
    }
  }
}
