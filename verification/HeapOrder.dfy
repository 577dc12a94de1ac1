/**
Heap order on the keys of a 1-based binary heap (position 0 is not used), and the
32-bit comparison that the timer heap orders by.

`Exact` gives the reach of that comparison: it agrees with the true order exactly
while the true difference is an `int32_t`.
*/
module HeapOrder {
  import opened Probe

  const TWO31: nat := 0x8000_0000

  /** `(int32_t)(a - b)` for 32-bit words `a` and `b`. */
  function Diff32(a: nat, b: nat): int {
    var d := U32(a - b);
    if d < TWO31 then d else d - TWO32
  }

  /** `heap_less` on the values of two entries. */
  predicate Less32(a: nat, b: nat) {
    Diff32(a, b) < 0
  }

  ghost predicate InReach(d: int) {
    -(TWO31 as int) <= d < TWO31
  }

  /** The wrapped difference is the true one if and only if the true one is an `int32_t`. */
  lemma Exact(x: int, y: int)
    ensures Diff32(U32(x), U32(y)) == x - y <==> InReach(x - y)
    ensures InReach(x - y) ==> (Less32(U32(x), U32(y)) <==> x < y)
  {
    var q, r := x / TWO32, y / TWO32;
    assert x - y == U32(x) - U32(y) + (q - r) * TWO32;
  }

  /** At a true difference of 2^31, one more than `Spanned` allows, each value precedes the other. */
  lemma SpanIsSharp(x: int, y: int)
    requires -(TWO31 as int) <= x - y <= TWO31
    ensures Less32(U32(x), U32(y)) && Less32(U32(y), U32(x)) <==> x - y == TWO31 || y - x == TWO31
  {
    Exact(x, y);
    Exact(y, x);
    var q, r := x / TWO32, y / TWO32;
    assert x - y == U32(x) - U32(y) + (q - r) * TWO32;
  }

  // ---------- order ----------

  /** Every entry is at or after its parent. */
  ghost predicate Ordered(k: seq<int>) {
    forall j | 2 <= j < |k| :: k[j / 2] <= k[j]
  }

  /** Ordered but for entry `i`, which may precede its parent. */
  ghost predicate OrderedBelow(k: seq<int>, i: nat) {
    && (forall j | 2 <= j < |k| && j != i :: k[j / 2] <= k[j])
    && (forall j | 2 <= j < |k| && j / 2 == i && 2 <= i :: k[i / 2] <= k[j])
  }

  /** Ordered but for entry `i`, which may come after its children. */
  ghost predicate OrderedAbove(k: seq<int>, i: nat) {
    && (forall j | 2 <= j < |k| && j / 2 != i :: k[j / 2] <= k[j])
    && (forall j | 2 <= j < |k| && j / 2 == i && 2 <= i :: k[i / 2] <= k[j])
  }

  function Swapped<T>(s: seq<T>, a: nat, b: nat): seq<T>
    requires a < |s| && b < |s|
  {
    s[a := s[b]][b := s[a]]
  }

  lemma UpStep(k: seq<int>, i: nat)
    requires 2 <= i < |k| && OrderedBelow(k, i) && k[i] < k[i / 2]
    ensures OrderedBelow(Swapped(k, i, i / 2), i / 2)
  {
    var k' := Swapped(k, i, i / 2);
    forall j | 2 <= j < |k| && j != i / 2 ensures k'[j / 2] <= k'[j] {
      assert j != i ==> k[j / 2] <= k[j];
    }
    forall j | 2 <= j < |k| && j / 2 == i / 2 && 2 <= i / 2 ensures k'[i / 2 / 2] <= k'[j] {
      assert k[i / 2 / 2] <= k[i / 2];
    }
  }

  lemma UpDone(k: seq<int>, i: nat)
    requires OrderedBelow(k, i)
    requires i <= 1 || (i < |k| && k[i / 2] <= k[i])
    ensures Ordered(k)
  {
  }

  /** The child that `heap_bubble_down` compares with its parent `i`. */
  ghost predicate SmallerChild(k: seq<int>, i: nat, c: nat) {
    && (c == 2 * i || c == 2 * i + 1) && 1 <= i && c < |k|
    && k[c] <= k[2 * i] && (2 * i + 1 < |k| ==> k[c] <= k[2 * i + 1])
  }

  lemma DownStep(k: seq<int>, i: nat, c: nat)
    requires OrderedAbove(k, i) && SmallerChild(k, i, c) && k[c] < k[i]
    ensures OrderedAbove(Swapped(k, c, i), c)
  {
    var k' := Swapped(k, c, i);
    forall j | 2 <= j < |k| && j / 2 != c ensures k'[j / 2] <= k'[j] {
      if j / 2 == i {
        assert j == 2 * i || j == 2 * i + 1;
      } else {
        assert k[j / 2] <= k[j];
      }
    }
    forall j | 2 <= j < |k| && j / 2 == c ensures k'[c / 2] <= k'[j] {
      assert k[j / 2] <= k[j];
    }
  }

  lemma DownDone(k: seq<int>, i: nat)
    requires 1 <= i && OrderedAbove(k, i)
    requires 2 * i >= |k| || exists c: nat :: SmallerChild(k, i, c) && k[i] <= k[c]
    ensures Ordered(k)
  {
    if 2 * i < |k| {
      var c: nat :| SmallerChild(k, i, c) && k[i] <= k[c];
    }
    forall j | 2 <= j < |k| ensures k[j / 2] <= k[j] {
      if j / 2 == i {
        assert j == 2 * i || j == 2 * i + 1;
      }
    }
  }

  /** The head of a heap is a least entry. */
  lemma {:induction false} HeadIsLeast(k: seq<int>, j: nat)
    requires Ordered(k) && 1 <= j < |k|
    ensures k[1] <= k[j]
  {
    if j > 1 {
      HeadIsLeast(k, j / 2);
    }
  }

  /** Giving entry `i` the key just before the head's leaves only `i` out of order. */
  lemma ForcedUp(k: seq<int>, i: nat)
    requires Ordered(k) && 2 <= i < |k|
    ensures OrderedBelow(k[i := k[1] - 1], i)
  {
    forall j | 2 <= j < |k| && j != i ensures k[i := k[1] - 1][j / 2] <= k[j] {
      HeadIsLeast(k, j);
    }
    forall j | 2 <= j < |k| && j / 2 == i ensures k[i / 2] <= k[j] {
      assert k[j / 2] <= k[j];
      assert k[i / 2] <= k[i];
    }
  }

  /** Replacing the head by the last entry leaves only the head out of order. */
  lemma Refilled(k: seq<int>, n: nat)
    requires Ordered(k) && 2 <= n == |k| - 1
    ensures OrderedAbove(k[..n][1 := k[n]], 1)
  {
    var k' := k[..n][1 := k[n]];
    forall j | 2 <= j < n && j / 2 != 1 ensures k'[j / 2] <= k'[j] {
      assert k[j / 2] <= k[j];
    }
  }

  lemma Appended(k: seq<int>, d: int)
    requires 1 <= |k| && Ordered(k)
    ensures OrderedBelow(k + [d], |k|)
  {
    var k' := k + [d];
    forall j | 2 <= j < |k'| && j != |k| ensures k'[j / 2] <= k'[j] {
      assert k[j / 2] <= k[j];
    }
  }
}
