/**
The probe sequence of the hash table: from bucket `h % n` the table steps by
1, 2, 3, ... modulo the capacity, so that after `t` steps it has moved by the
`t`-th triangular number.

The main results are `ProbeInjective` and `ProbeCovers` (the first `n` probes of a
table of capacity `n`, a power of two, are the `n` buckets, each once) and
`ProbeReturns` (the start is met again for the first time after `2n - 1` steps).
*/
module Probe {

  function Pow2(k: nat): (p: nat)
    ensures p > 0
  {
    if k == 0 then 1 else 2 * Pow2(k - 1)
  }

  ghost predicate IsPow2(n: nat) {
    exists k: nat :: n == Pow2(k)
  }

  /** The `t`-th triangular number: the distance travelled after `t` probe steps. */
  function Tri(t: nat): nat {
    if t == 0 then 0 else Tri(t - 1) + t
  }

  lemma {:induction false} TriClosed(t: nat)
    ensures 2 * Tri(t) == t * (t + 1)
  {
    if t > 0 {
      TriClosed(t - 1);
    }
  }

  /** The bucket looked at after `t` steps of a search for a key of hash `h`. */
  function At(h: nat, t: nat, n: nat): (i: nat)
    requires n > 0
    ensures i < n
  {
    (h + Tri(t)) % n
  }

  // ---------- arithmetic helpers ----------

  lemma ModStep(a: nat, b: nat, n: nat)
    requires n > 0
    ensures (a % n + b) % n == (a + b) % n
  {
    var q := a / n;
    assert a == q * n + a % n;
    MultipleVanishes(a % n + b, q, n);
  }

  lemma MulGap(a: nat, b: nat, n: nat)
    requires a < b
    ensures b * n >= a * n + n
  {
    assert b * n == a * n + n + (b - a - 1) * n;
  }

  lemma DivUnique(a: nat, q: nat, r: nat, n: nat)
    requires r < n && a == q * n + r
    ensures a / n == q && a % n == r
  {
    var q', r' := a / n, a % n;
    if q < q' {
      MulGap(q, q', n);
    } else if q' < q {
      MulGap(q', q, n);
    }
  }

  lemma MultipleVanishes(a: nat, q: nat, n: nat)
    requires n > 0
    ensures (a + q * n) % n == a % n
  {
    assert a + q * n == (a / n + q) * n + a % n;
    DivUnique(a + q * n, a / n + q, a % n, n);
  }

  lemma SameModMultiple(a: nat, b: nat, n: nat) returns (q: nat)
    requires n > 0 && a <= b && a % n == b % n
    ensures b - a == q * n
  {
    assert a == (a / n) * n + a % n;
    assert b == (b / n) * n + b % n;
    assert b - a == (b / n) * n - (a / n) * n == (b / n - a / n) * n;
    q := b / n - a / n;
  }

  lemma Doubled(q: nat, p: nat)
    ensures 2 * (q * p) == (2 * p) * q
  {
  }

  /** An odd factor contributes nothing to the power of two in a product. */
  lemma {:induction false} OddFactor(u: nat, v: nat, m: nat, q: nat) returns (r: nat)
    requires u % 2 == 1 && u * v == Pow2(m) * q
    ensures v == r * Pow2(m)
  {
    if m == 0 {
      r := v;
    } else {
      Doubled(q, Pow2(m - 1));
      EvenFactor(u, v, Pow2(m - 1) * q);
      var w := v / 2;
      assert u * v == 2 * (u * w);
      r := OddFactor(u, w, m - 1, q);
      assert v == 2 * (r * Pow2(m - 1)) == r * Pow2(m);
    }
  }

  lemma OddTimes(a: nat, v: nat)
    ensures (2 * a + 1) * v == 2 * (a * v) + v
  {
  }

  lemma EvenFactor(u: nat, v: nat, p: nat)
    requires u % 2 == 1 && u * v == 2 * p
    ensures v % 2 == 0
  {
    OddTimes(u / 2, v);
  }

  /** If `2n` divides the product of `u` and `v`, of different parity, it divides one of them. */
  lemma DividesOne(k: nat, u: nat, v: nat, q: nat)
    requires (u + v) % 2 == 1 && u * v == Pow2(k) * q
    ensures u % Pow2(k) == 0 || v % Pow2(k) == 0
  {
    if u % 2 == 1 {
      var r := OddFactor(u, v, k, q);
      MultipleVanishes(0, r, Pow2(k));
    } else {
      assert v * u == Pow2(k) * q;
      var r := OddFactor(v, u, k, q);
      MultipleVanishes(0, r, Pow2(k));
    }
  }

  // ---------- the probe sequence ----------

  /** One turn of the search loop, `i = (i + (++step)) & mask`, moves one probe further. */
  lemma AtNext(h: nat, t: nat, n: nat)
    requires n > 0
    ensures (At(h, t, n) + (t + 1)) % n == At(h, t + 1, n)
  {
    ModStep(h + Tri(t), t + 1, n);
  }

  lemma AtStart(h: nat, n: nat)
    requires n > 0
    ensures At(h, 0, n) == h % n
  {
  }

  lemma TriDifference(a: nat, b: nat)
    requires a <= b
    ensures (b - a) * (a + b + 1) == 2 * (Tri(b) - Tri(a))
  {
    TriClosed(a);
    TriClosed(b);
    assert (b - a) * (a + b + 1) == b * (a + b + 1) - a * (a + b + 1);
    assert b * (a + b + 1) == b * a + b * (b + 1);
    assert a * (a + b + 1) == a * b + a * (a + 1);
  }

  /** Two probes meet only if twice the capacity divides a product of unequal parity. */
  lemma Collision(h: nat, a: nat, b: nat, k: nat)
    requires a < b && At(h, a, Pow2(k)) == At(h, b, Pow2(k))
    ensures (b - a) % Pow2(k + 1) == 0 || (a + b + 1) % Pow2(k + 1) == 0
  {
    TriMonotone(a, b);
    var q := SameModMultiple(h + Tri(a), h + Tri(b), Pow2(k));
    TriDifference(a, b);
    Doubled(q, Pow2(k));
    DividesOne(k + 1, b - a, a + b + 1, q);
  }

  lemma {:induction false} TriMonotone(a: nat, b: nat)
    requires a <= b
    ensures Tri(a) <= Tri(b)
  {
    if a < b {
      TriMonotone(a, b - 1);
    }
  }

  /** The first `n` probes of a table of `n == 2^k` buckets are pairwise different. */
  lemma ProbeInjective(h: nat, a: nat, b: nat, k: nat)
    requires a < b < Pow2(k)
    ensures At(h, a, Pow2(k)) != At(h, b, Pow2(k))
  {
    if At(h, a, Pow2(k)) == At(h, b, Pow2(k)) {
      Collision(h, a, b, k);
      SmallNotMultiple(b - a, 2 * Pow2(k));
      SmallNotMultiple(a + b + 1, 2 * Pow2(k));
      assert false;
    }
  }

  lemma SmallNotMultiple(v: nat, n: nat)
    requires 0 < v < n
    ensures v % n != 0
  {
    DivUnique(v, 0, v, n);
  }

  /** The start bucket is met again for the first time at step `2n - 1`. */
  lemma ProbeReturns(h: nat, t: nat, k: nat)
    requires 0 < t < 2 * Pow2(k)
    ensures At(h, t, Pow2(k)) == At(h, 0, Pow2(k)) <==> t == 2 * Pow2(k) - 1
  {
    if At(h, t, Pow2(k)) == At(h, 0, Pow2(k)) {
      Collision(h, 0, t, k);
      SmallNotMultiple(t, 2 * Pow2(k));
      if t + 1 < 2 * Pow2(k) {
        SmallNotMultiple(t + 1, 2 * Pow2(k));
      }
    }
    if t == 2 * Pow2(k) - 1 {
      TriClosed(t);
      assert 2 * Tri(t) == t * (t + 1) == t * (2 * Pow2(k)) == 2 * (t * Pow2(k));
      MultipleVanishes(h, t, Pow2(k));
    }
  }

  function Probes(h: nat, m: nat, n: nat): set<nat>
    requires n > 0
  {
    set t: nat | t < m :: At(h, t, n)
  }

  function Below(n: nat): (s: set<nat>)
    ensures |s| == n && forall i: nat :: i in s <==> i < n
  {
    if n == 0 then {} else Below(n - 1) + {n - 1}
  }

  lemma {:induction false} ProbesSize(h: nat, m: nat, k: nat)
    requires m <= Pow2(k)
    ensures |Probes(h, m, Pow2(k))| == m
  {
    var n := Pow2(k);
    if m > 0 {
      ProbesSize(h, m - 1, k);
      var i := At(h, m - 1, n);
      forall t: nat | t < m - 1 ensures At(h, t, n) != i {
        ProbeInjective(h, t, m - 1, k);
      }
      assert i !in Probes(h, m - 1, n);
      assert Probes(h, m, n) == Probes(h, m - 1, n) + {i};
    }
  }

  lemma SubsetOfSameSize<T>(a: set<T>, b: set<T>)
    requires a <= b && |a| == |b|
    ensures a == b
  {
    if a != b {
      var x :| x in b && x !in a;
      assert a <= b - {x};
      SubsetSize(a, b - {x});
      assert false;
    }
  }

  lemma {:induction false} SubsetSize<T>(a: set<T>, b: set<T>)
    requires a <= b
    ensures |a| <= |b|
  {
    if a != {} {
      var x :| x in a;
      SubsetSize(a - {x}, b - {x});
    }
  }

  /** Every bucket is reached within the first `n` probes. */
  lemma ProbeCovers(h: nat, i: nat, k: nat) returns (t: nat)
    requires i < Pow2(k)
    ensures t < Pow2(k) && At(h, t, Pow2(k)) == i
  {
    var n := Pow2(k);
    ProbesSize(h, n, k);
    SubsetOfSameSize(Probes(h, n, n), Below(n));
    assert i in Probes(h, n, n);
    t :| t < n && At(h, t, n) == i;
  }

  // ---------- 32-bit arithmetic ----------

  const TWO32: nat := 0x1_0000_0000

  /** The value of a C expression of type `uint32_t`. */
  function U32(x: int): (w: nat)
    ensures w < TWO32
  {
    x % TWO32
  }

  /** `(i + step) & mask` in 32-bit arithmetic, for a capacity of `n`, a power of two. */
  function NextBucket(i: nat, step: nat, n: nat): (j: nat)
    requires n > 0
    ensures j < n
  {
    U32(i + step) % n
  }

  lemma {:induction false} Pow2Add(a: nat, b: nat)
    ensures Pow2(a + b) == Pow2(a) * Pow2(b)
  {
    if a > 0 {
      Pow2Add(a - 1, b);
      assert Pow2(a + b) == 2 * Pow2(a - 1 + b);
    }
  }

  lemma Pow2At32()
    ensures Pow2(32) == TWO32
  {
    assert Pow2(8) == 256;
    Pow2Add(8, 8);
    Pow2Add(16, 16);
  }

  lemma ModOfMultiple(x: nat, w: nat, q: nat, m: nat, n: nat)
    requires n > 0 && x == w + q * (m * n)
    ensures w % n == x % n
  {
    assert q * (m * n) == (q * m) * n;
    MultipleVanishes(w, q * m, n);
  }

  /** Masking after a 32-bit addition that wrapped gives the bucket of the exact sum. */
  lemma WrapHarmless(x: nat, k: nat)
    requires k <= 32
    ensures U32(x) % Pow2(k) == x % Pow2(k)
  {
    Pow2At32();
    Pow2Add(32 - k, k);
    ModOfMultiple(x, U32(x), x / TWO32, Pow2(32 - k), Pow2(k));
  }
}
