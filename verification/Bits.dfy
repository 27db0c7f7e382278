/** Bitwise operations on unbounded naturals, for machine words that are modelled as integers. */
module Bits {

  function Pow2(n: nat): (p: nat)
    ensures p > 0
  {
    if n == 0 then 1 else 2 * Pow2(n - 1)
  }

  /** The bitwise "or" of two naturals. */
  function Or(a: nat, b: nat): nat
    decreases a + b
  {
    if a == 0 && b == 0 then 0
    else (if a % 2 == 1 || b % 2 == 1 then 1 else 0) + 2 * Or(a / 2, b / 2)
  }

  /** When the bits of `a` all lie below bit `k` and those of `b * 2^k` at or above it, "or" is addition. */
  lemma {:induction false} OrDisjoint(a: nat, b: nat, k: nat)
    requires a < Pow2(k)
    ensures Or(a, b * Pow2(k)) == a + b * Pow2(k)
    decreases k, b
  {
    if k == 0 {
      OrZero(b);
    } else {
      var c := b * Pow2(k - 1);
      assert b * Pow2(k) == 2 * c by {
        assert Pow2(k) == 2 * Pow2(k - 1);
        MulSwap(b, Pow2(k - 1));
      }
      OrDisjoint(a / 2, b, k - 1);
      assert (2 * c) / 2 == c && (2 * c) % 2 == 0;
    }
  }

  lemma {:induction false} OrZero(b: nat)
    ensures Or(0, b) == b
  {
    if b > 0 {
      OrZero(b / 2);
    }
  }

  lemma MulSwap(a: nat, b: nat)
    ensures a * (2 * b) == 2 * (a * b)
  {
  }

  /** Bit `k` of `w`, counting from the least significant one. */
  predicate Bit(w: nat, k: nat) {
    if k == 0 then w % 2 == 1 else Bit(w / 2, k - 1)
  }

  lemma {:induction false} BitZero(k: nat)
    ensures !Bit(0, k)
  {
    if k > 0 {
      BitZero(k - 1);
    }
  }

  lemma {:induction false} BitOr(a: nat, b: nat, k: nat)
    ensures Bit(Or(a, b), k) <==> Bit(a, k) || Bit(b, k)
    decreases k
  {
    if a == 0 && b == 0 {
      BitZero(k);
    } else if k > 0 {
      BitOr(a / 2, b / 2, k - 1);
    }
  }

  lemma {:induction false} BitPow2(n: nat, k: nat)
    ensures Bit(Pow2(n), k) <==> k == n
    decreases k, n
  {
    if n == 0 {
      if k > 0 {
        BitZero(k - 1);
      }
    } else if k > 0 {
      BitPow2(n - 1, k - 1);
    }
  }

  lemma {:induction false} OrBound(a: nat, b: nat, n: nat)
    requires a < Pow2(n) && b < Pow2(n)
    ensures Or(a, b) < Pow2(n)
    decreases n
  {
    if n > 0 {
      OrBound(a / 2, b / 2, n - 1);
    }
  }

  lemma {:induction false} Pow2Monotone(m: nat, n: nat)
    requires m <= n
    ensures Pow2(m) <= Pow2(n)
    ensures m < n ==> Pow2(m) < Pow2(n)
    decreases n
  {
    if m < n {
      Pow2Monotone(m, n - 1);
    }
  }

  lemma {:induction false} Pow2Sum(m: nat, n: nat)
    ensures Pow2(m + n) == Pow2(m) * Pow2(n)
    decreases m
  {
    if m > 0 {
      Pow2Sum(m - 1, n);
      assert m + n - 1 == m - 1 + n;
      assert Pow2(m) * Pow2(n) == 2 * (Pow2(m - 1) * Pow2(n));
    }
  }

  /** Words of `n` bits that agree on every bit are equal. */
  lemma {:induction false} SameBits(v: nat, w: nat, n: nat)
    requires v < Pow2(n) && w < Pow2(n)
    requires forall k :: 0 <= k < n ==> (Bit(v, k) <==> Bit(w, k))
    ensures v == w
    decreases n
  {
    if n > 0 {
      forall k | 0 <= k < n - 1
        ensures Bit(v / 2, k) <==> Bit(w / 2, k)
      {
        assert Bit(v, k + 1) <==> Bit(w, k + 1);
      }
      SameBits(v / 2, w / 2, n - 1);
      assert Bit(v, 0) <==> Bit(w, 0);
    }
  }

  lemma {:induction false} OnesBit(n: nat, k: nat)
    ensures Bit(Pow2(n) - 1, k) <==> k < n
    decreases n
  {
    if n == 0 {
      BitZero(k);
    } else {
      var half := Pow2(n - 1);
      assert (Pow2(n) - 1) / 2 == half - 1 && (Pow2(n) - 1) % 2 == 1;
      if k > 0 {
        OnesBit(n - 1, k - 1);
      }
    }
  }

  predicate AllSet(w: nat, n: nat) {
    forall k :: 0 <= k < n ==> Bit(w, k)
  }

  /** A word of `n` bits is all ones exactly when each of its bits is set. */
  lemma AllOnes(w: nat, n: nat)
    requires w < Pow2(n)
    ensures w == Pow2(n) - 1 <==> AllSet(w, n)
  {
    hide Pow2;
    var ones := Pow2(n) - 1;
    forall k | 0 <= k < n
      ensures Bit(ones, k)
    {
      OnesBit(n, k);
    }
    if AllSet(w, n) {
      SameBits(w, ones, n);
    }
  }

  /** Shifting left moves every bit up. */
  lemma {:induction false} BitShift(w: nat, n: nat, k: nat)
    ensures Bit(w * Pow2(n), k) <==> n <= k && Bit(w, k - n)
    decreases n
  {
    if n > 0 {
      var half := w * Pow2(n - 1);
      assert w * Pow2(n) == 2 * half by {
        MulSwap(w, Pow2(n - 1));
      }
      assert (2 * half) % 2 == 0 && (2 * half) / 2 == half;
      if k > 0 {
        BitShift(w, n - 1, k - 1);
      }
    }
  }

  /** A word of `n` bits keeps the low `n` bits. */
  lemma {:induction false} BitMod(w: nat, n: nat, k: nat)
    requires k < n
    ensures Bit(w % Pow2(n), k) <==> Bit(w, k)
    decreases n
  {
    var p := Pow2(n - 1);
    ModHalf(w, p);
    if k > 0 {
      BitMod(w / 2, n - 1, k - 1);
    }
  }

  lemma ModHalf(w: nat, p: nat)
    requires p > 0
    ensures (w % (2 * p)) / 2 == (w / 2) % p && (w % (2 * p)) % 2 == w % 2
  {
    var q, r := w / (2 * p), w % (2 * p);
    assert w == q * (2 * p) + r;
    assert q * (2 * p) == 2 * (q * p);
    assert w / 2 == q * p + r / 2;
    ModUnique(w / 2, p, q, r / 2);
  }

  lemma ModUnique(x: int, d: int, q: int, r: int)
    requires d > 0 && 0 <= r < d && x == q * d + r
    ensures x / d == q && x % d == r
  {
    var e := x / d - q;
    assert x == x / d * d + x % d;
    assert e * d == r - x % d;
    assert e >= 1 ==> e * d >= d;
    assert e <= -1 ==> e * d <= -d;
  }

  /** Dividing twice is dividing by the product. */
  lemma DivDiv(n: nat, p: nat, q: nat)
    requires p > 0 && q > 0
    ensures p * q > 0 && n / p / q == n / (p * q)
  {
    MulPositive(p, q);
    Division(n, p);
    Division(n / p, q);
    Regrouped(n, n / p, n % p, n / p / q, n / p % q, p, q);
    ModUnique(n, p * q, n / p / q, n / p % q * p + n % p);
  }

  lemma MulPositive(p: nat, q: nat)
    requires p > 0 && q > 0
    ensures p * q > 0
  {
  }

  lemma Division(n: nat, p: nat)
    requires p > 0
    ensures n == n / p * p + n % p && 0 <= n % p < p && 0 <= n / p
  {
  }

  lemma Regrouped(n: nat, a: nat, e: nat, d: nat, r: nat, p: nat, q: nat)
    requires n == a * p + e && a == d * q + r && r < q && e < p
    ensures n == d * (p * q) + (r * p + e) && 0 <= r * p + e < p * q
  {
    calc {
      a * p;
      (d * q + r) * p;
      d * q * p + r * p;
      d * (p * q) + r * p;
    }
    calc {
      r * p + e;
    <  r * p + p;
      (r + 1) * p;
    <= { MulLess(r + 1, q, p); }
      q * p;
      p * q;
    }
  }

  lemma MulLess(a: nat, b: nat, c: nat)
    requires a <= b
    ensures a * c <= b * c
  {
  }
}
