/** Powers of two on unbounded naturals, with the division facts that shifts and masks rest on. */
module PowersOfTwo {

  function Pow2(k: nat): (r: nat)
    ensures r > 0
  {
    if k == 0 then 1 else 2 * Pow2(k - 1)
  }

  lemma Pow2Zero()
    ensures Pow2(0) == 1
  {
  }

  lemma Pow2Step(k: nat)
    requires k > 0
    ensures Pow2(k) == 2 * Pow2(k - 1)
  {
  }

  lemma {:induction false} Pow2Add(a: nat, b: nat)
    ensures Pow2(a + b) == Pow2(a) * Pow2(b)
  {
    if a > 0 {
      Pow2Add(a - 1, b);
      calc {
        Pow2(a + b);
        2 * (Pow2(a - 1) * Pow2(b));
        (2 * Pow2(a - 1)) * Pow2(b);
      }
    }
  }

  lemma {:induction false} Pow2Monotone(a: nat, b: nat)
    requires a <= b
    ensures Pow2(a) <= Pow2(b)
    ensures a < b ==> 2 * Pow2(a) <= Pow2(b)
    decreases b - a
  {
    if a < b {
      Pow2Monotone(a, b - 1);
    }
  }

  /** Quotient and remainder are the only way to split n with a remainder below d. */
  lemma DivModUnique(n: int, d: int, q: int, r: int)
    requires 0 <= r < d
    requires n == q * d + r
    ensures n / d == q
    ensures n % d == r
  {
    var e := n / d - q;
    assert d * e == r - n % d by {
      assert n == d * (n / d) + n % d;
      assert d * (n / d) - d * q == d * e;
    }
    if e > 0 {
      MulAtLeast(d, e);
    } else if e < 0 {
      MulAtLeast(d, -e);
    }
  }

  lemma MulAtLeast(d: int, e: int)
    requires d > 0 && e >= 1
    ensures d * e >= d
  {
  }

  lemma MulMonotone(a: int, b: int, c: int)
    requires a <= b && c >= 0
    ensures a * c <= b * c
  {
  }

  lemma Distribute(a: int, b: int, c: int)
    ensures a * (b + c) == a * b + a * c
  {
  }

  // ---------- Shifts and fields of a word, without multiplication ----------

  /** n << k */
  function Shl(n: nat, k: nat): nat
  {
    if k == 0 then n else 2 * Shl(n, k - 1)
  }

  /** n & ((1 << k) - 1) */
  function Low(n: nat, k: nat): (r: nat)
    ensures r < Pow2(k)
  {
    if k == 0 then 0 else n % 2 + 2 * Low(n / 2, k - 1)
  }

  /** n >> k */
  function High(n: nat, k: nat): nat
  {
    if k == 0 then n else High(n / 2, k - 1)
  }

  lemma {:induction false} ShlIsMul(n: nat, k: nat)
    ensures Shl(n, k) == n * Pow2(k)
  {
    if k > 0 {
      ShlIsMul(n, k - 1);
      MulShuffle(n, 2, Pow2(k - 1));
    }
  }

  lemma MulShuffle(a: int, b: int, c: int)
    ensures a * (b * c) == b * (a * c)
  {
  }

  lemma {:induction false} ShlAdd(m: nat, n: nat, k: nat)
    ensures Shl(m + n, k) == Shl(m, k) + Shl(n, k)
  {
    if k > 0 {
      ShlAdd(m, n, k - 1);
    }
  }

  lemma {:induction false} ShlOne(k: nat)
    ensures Shl(1, k) == Pow2(k) && Shl(0, k) == 0
  {
    if k > 0 {
      ShlOne(k - 1);
    }
  }

  lemma {:induction false} ShlShl(n: nat, a: nat, b: nat)
    ensures Shl(Shl(n, a), b) == Shl(n, a + b)
  {
    if b > 0 {
      ShlShl(n, a, b - 1);
    }
  }

  lemma {:induction false} ShlStrict(m: nat, n: nat, k: nat)
    requires m < n
    ensures Shl(m, k) + Pow2(k) <= Shl(n, k)
  {
    if k > 0 {
      ShlStrict(m, n, k - 1);
    }
  }

  lemma {:induction false} LowHigh(n: nat, k: nat)
    ensures Low(n, k) + Shl(High(n, k), k) == n
  {
    if k > 0 {
      LowHigh(n / 2, k - 1);
    }
  }

  lemma {:induction false} LowHighOfSum(lo: nat, k: nat, hi: nat)
    requires lo < Pow2(k)
    ensures Low(lo + Shl(hi, k), k) == lo
    ensures High(lo + Shl(hi, k), k) == hi
  {
    if k > 0 {
      LowHighOfSum(lo / 2, k - 1, hi);
      assert (lo + Shl(hi, k)) / 2 == lo / 2 + Shl(hi, k - 1);
    }
  }

  /** The fields are remainder and quotient by a power of two. */
  lemma FieldsAreDivMod(n: nat, k: nat)
    ensures Low(n, k) == n % Pow2(k)
    ensures High(n, k) == n / Pow2(k)
  {
    LowHigh(n, k);
    ShlIsMul(High(n, k), k);
    DivModUnique(n, Pow2(k), High(n, k), Low(n, k));
  }

  lemma {:induction false} HighHigh(n: nat, a: nat, b: nat)
    ensures High(High(n, a), b) == High(n, a + b)
  {
    if a > 0 {
      HighHigh(n / 2, a - 1, b);
    }
  }

  lemma LowStep(n: nat, k: nat)
    requires k > 0
    ensures Low(n, k) % 2 == n % 2 && Low(n, k) / 2 == Low(n / 2, k - 1)
  {
  }

  lemma {:induction false} LowOfLow(n: nat, a: nat, b: nat)
    requires a <= b
    ensures Low(Low(n, b), a) == Low(n, a)
  {
    hide Pow2;
    if a > 0 {
      LowStep(n, b);
      LowOfLow(n / 2, a - 1, b - 1);
    }
  }

  lemma {:induction false} HighOfLow(n: nat, a: nat, b: nat)
    requires a <= b
    ensures High(Low(n, b), a) == Low(High(n, a), b - a)
  {
    hide Pow2;
    if a > 0 {
      LowStep(n, b);
      HighOfLow(n / 2, a - 1, b - 1);
    }
  }

  lemma {:induction false} LowSplit(n: nat, a: nat, b: nat)
    ensures Low(n, a + b) == Low(n, a) + Shl(Low(High(n, a), b), a)
  {
    if a > 0 {
      LowSplit(n / 2, a - 1, b);
    }
  }

  lemma {:induction false} LowOfSmall(n: nat, k: nat)
    requires n < Pow2(k)
    ensures Low(n, k) == n && High(n, k) == 0
  {
    if k > 0 {
      LowOfSmall(n / 2, k - 1);
    }
  }
}
