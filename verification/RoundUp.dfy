/**
The capacity arithmetic of the hash table: `kroundup32`, which smears the highest
set bit of a 32-bit word downwards, and the load bound.

A word is its 32 bits, least significant first.  The main result is
`RoundsUp`: for `0 < x` the macro yields the least power of two not below `x`,
and wraps to 0 when that power is 2^32.
*/
module RoundUp {
  import opened Probe

  type Bits = seq<bool>

  function ToBits(x: nat, w: nat): (b: Bits)
    ensures |b| == w
  {
    if w == 0 then [] else [x % 2 == 1] + ToBits(x / 2, w - 1)
  }

  function Val(b: Bits): nat {
    if b == [] then 0 else (if b[0] then 1 else 0) + 2 * Val(b[1..])
  }

  lemma {:induction false} ValToBits(x: nat, w: nat)
    requires x < Pow2(w)
    ensures Val(ToBits(x, w)) == x
  {
    if w > 0 {
      ValToBits(x / 2, w - 1);
      assert ToBits(x, w)[1..] == ToBits(x / 2, w - 1);
    }
  }

  /** `b | (b >> s)` */
  function OrShr(b: Bits, s: nat): (r: Bits)
    ensures |r| == |b|
    ensures forall i | 0 <= i < |b| :: r[i] <==> b[i] || (i + s < |b| && b[i + s])
  {
    seq(|b|, i requires 0 <= i < |b| => b[i] || (i + s < |b| && b[i + s]))
  }

  /** The macro's five or-shift steps on the word `x - 1`, then its increment. */
  function KRoundUp32(x: nat): nat {
    U32(Val(Smear(ToBits(U32(x - 1), 32))) + 1)
  }

  function Smear(b: Bits): (r: Bits)
    ensures |r| == |b|
  {
    OrShr(OrShr(OrShr(OrShr(OrShr(b, 1), 2), 4), 8), 16)
  }

  ghost predicate AnyIn(b: Bits, i: nat, w: nat) {
    exists j :: i <= j < i + w && j < |b| && b[j]
  }

  /** `r` holds, at each bit, the disjunction of the `w` bits of `b` from there upwards. */
  ghost predicate Window(b: Bits, r: Bits, w: nat) {
    |r| == |b| && forall i | 0 <= i < |b| :: r[i] <==> AnyIn(b, i, w)
  }

  lemma WindowDoubles(b: Bits, r: Bits, w: nat)
    requires Window(b, r, w)
    ensures Window(b, OrShr(r, w), 2 * w)
  {
    var r' := OrShr(r, w);
    forall i | 0 <= i < |b| ensures r'[i] <==> AnyIn(b, i, 2 * w) {
      if AnyIn(b, i, 2 * w) {
        var j :| i <= j < i + 2 * w && j < |b| && b[j];
        if j < i + w {
          assert AnyIn(b, i, w);
        } else {
          assert AnyIn(b, i + w, w);
        }
      }
    }
  }

  lemma SmearIsWindow(b: Bits)
    ensures Window(b, Smear(b), 32)
  {
    assert Window(b, b, 1);
    WindowDoubles(b, b, 1);
    WindowDoubles(b, OrShr(b, 1), 2);
    WindowDoubles(b, OrShr(OrShr(b, 1), 2), 4);
    WindowDoubles(b, OrShr(OrShr(OrShr(b, 1), 2), 4), 8);
    WindowDoubles(b, OrShr(OrShr(OrShr(OrShr(b, 1), 2), 4), 8), 16);
  }

  lemma {:induction false} ValZero(b: Bits)
    ensures Val(b) == 0 <==> forall j | 0 <= j < |b| :: !b[j]
  {
    if b != [] {
      ValZero(b[1..]);
      if !b[0] && forall j | 0 <= j < |b| - 1 :: !b[1..][j] {
        forall j | 0 <= j < |b| ensures !b[j] {
          assert j > 0 ==> b[j] == b[1..][j - 1];
        }
      } else if !b[0] {
        var j :| 0 <= j < |b| - 1 && b[1..][j];
        assert b[j + 1];
      }
    }
  }

  /** A word whose bits were all smeared down from `b` is one less than a power of two. */
  lemma {:induction false} WindowVal(b: Bits, r: Bits, w: nat, k: nat)
    requires Window(b, r, w) && |b| <= w
    requires Val(b) < Pow2(k) && (k > 0 ==> Pow2(k - 1) <= Val(b))
    ensures Val(r) == Pow2(k) - 1
  {
    ValZero(b);
    if k == 0 {
      ValZero(r);
    } else {
      assert b != [];
      WindowTail(b, r, w);
      WindowVal(b[1..], r[1..], w, k - 1);
      var j :| 0 <= j < |b| && b[j];
      assert AnyIn(b, 0, w);
    }
  }

  lemma WindowTail(b: Bits, r: Bits, w: nat)
    requires Window(b, r, w) && b != []
    ensures Window(b[1..], r[1..], w)
  {
    forall i | 0 <= i < |b| - 1 ensures r[1..][i] <==> AnyIn(b[1..], i, w) {
      if r[i + 1] {
        var j :| i + 1 <= j < i + 1 + w && j < |b| && b[j];
        assert b[1..][j - 1];
      }
    }
  }

  /** `Pow2(k)` is the least power of two not below `x`. */
  ghost predicate LeastPow2(k: nat, x: nat) {
    x <= Pow2(k) && (k > 0 ==> Pow2(k - 1) < x)
  }

  lemma RoundsUp(x: nat, k: nat)
    requires 0 < x && k <= 32 && LeastPow2(k, x)
    ensures KRoundUp32(x) == U32(Pow2(k))
  {
    hide Smear, Window, Val, ToBits;
    Pow2At32();
    Pow2Grows(k, 32);
    var b := ToBits(x - 1, 32);
    ValToBits(x - 1, 32);
    SmearIsWindow(b);
    WindowVal(b, Smear(b), 32, k);
  }

  lemma {:induction false} Pow2Grows(a: nat, b: nat)
    requires a <= b
    ensures Pow2(a) <= Pow2(b)
    ensures a < b ==> Pow2(a) < Pow2(b)
  {
    if a < b {
      Pow2Grows(a, b - 1);
    }
  }

  lemma {:induction false} LeastPow2Exists(x: nat, w: nat) returns (k: nat)
    requires 0 < x <= Pow2(w)
    ensures k <= w && LeastPow2(k, x)
  {
    if w == 0 || Pow2(w - 1) < x {
      k := w;
    } else {
      k := LeastPow2Exists(x, w - 1);
    }
  }

  // ---------- the load bound ----------

  /** `(khint_t)(n * 0.77 + 0.5)`, exact for every power of two a table can have. */
  function UpperBound(n: nat): nat {
    (77 * n + 50) / 100
  }

  /** 0.77 of the capacity, to the nearest integer. */
  lemma UpperBoundRounds(n: nat)
    ensures 77 * n - 50 < 100 * UpperBound(n) <= 77 * n + 50
  {
  }

  lemma UpperBoundFacts(n: nat)
    requires n >= 4
    ensures 0 < UpperBound(n) < n
    ensures 4 * (UpperBound(n) - n / 2 + 1) >= n
    ensures n / 2 <= UpperBound(n)
  {
  }
}
