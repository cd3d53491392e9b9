/** The discrete Fourier transform of real signals, for every power of two: it is what the convolvers ask for. */
module FourierTransform {
  import opened Convolution
  import opened PowersOfTwo
  import opened Spectra

  // ---------- Sums ----------

  /** f(0) + ... + f(n - 1) */
  function Total(f: int -> real, n: nat): real {
    if n == 0 then 0.0 else Total(f, n - 1) + f(n - 1)
  }

  lemma {:induction false} TotalSame(f: int -> real, g: int -> real, n: nat)
    requires forall i :: 0 <= i < n ==> f(i) == g(i)
    ensures Total(f, n) == Total(g, n)
  {
    if n > 0 {
      TotalSame(f, g, n - 1);
    }
  }

  lemma {:induction false} TotalPlus(f: int -> real, g: int -> real, s: int -> real, n: nat)
    requires forall i :: 0 <= i < n ==> s(i) == f(i) + g(i)
    ensures Total(s, n) == Total(f, n) + Total(g, n)
  {
    if n > 0 {
      TotalPlus(f, g, s, n - 1);
    }
  }

  lemma {:induction false} TotalTimes(a: real, f: int -> real, s: int -> real, n: nat)
    requires forall i :: 0 <= i < n ==> s(i) == Times(a, f(i))
    ensures Total(s, n) == Times(a, Total(f, n))
  {
    if n > 0 {
      TotalTimes(a, f, s, n - 1);
      TimesAdds(a, Total(f, n - 1), f(n - 1));
    } else {
      TimesAdds(a, 0.0, 0.0);
    }
  }

  lemma {:induction false} TotalZero(f: int -> real, n: nat)
    requires forall i :: 0 <= i < n ==> f(i) == 0.0
    ensures Total(f, n) == 0.0
  {
    if n > 0 {
      TotalZero(f, n - 1);
    }
  }

  /** Only one term counts. */
  lemma {:induction false} TotalOfOne(f: int -> real, n: nat, j: nat)
    requires j < n && forall i :: 0 <= i < n && i != j ==> f(i) == 0.0
    ensures Total(f, n) == f(j)
  {
    if j == n - 1 {
      TotalZero(f, n - 1);
    } else {
      TotalOfOne(f, n - 1, j);
    }
  }

  /** A constant n times. */
  lemma {:induction false} TotalConstant(f: int -> real, n: nat, a: real)
    requires forall i :: 0 <= i < n ==> f(i) == a
    ensures Total(f, n) == Times(n as real, a)
  {
    if n > 0 {
      TotalConstant(f, n - 1, a);
      assert n as real == (n - 1) as real + 1.0;
      assert Times(n as real, a) == Times((n - 1) as real, a) + a;
    }
  }

  lemma {:induction false} TotalCombines(f: int -> real, g: int -> real, s: int -> real, a: real, b: real, n: nat)
    requires forall i :: 0 <= i < n ==> s(i) == Times(a, f(i)) + Times(b, g(i))
    ensures Total(s, n) == Times(a, Total(f, n)) + Times(b, Total(g, n))
  {
    hide Times;
    if n > 0 {
      TotalCombines(f, g, s, a, b, n - 1);
      TimesAdds(a, Total(f, n - 1), f(n - 1));
      TimesAdds(b, Total(g, n - 1), g(n - 1));
    } else {
      TimesAdds(a, 0.0, 0.0);
      TimesAdds(b, 0.0, 0.0);
    }
  }

  function RowOf(f: (int, int) -> real, i: int): int -> real {
    (j: int) => f(i, j)
  }

  function ColumnOf(f: (int, int) -> real, j: int): int -> real {
    (i: int) => f(i, j)
  }

  function RowSums(f: (int, int) -> real, m: nat): int -> real {
    (i: int) => Total(RowOf(f, i), m)
  }

  function ColumnSums(f: (int, int) -> real, n: nat): int -> real {
    (j: int) => Total(ColumnOf(f, j), n)
  }

  /** Row by row or column by column. */
  lemma {:induction false} Exchange(f: (int, int) -> real, n: nat, m: nat)
    ensures Total(RowSums(f, m), n) == Total(ColumnSums(f, n), m)
  {
    if n == 0 {
      TotalZero(ColumnSums(f, 0), m);
    } else {
      Exchange(f, n - 1, m);
      TotalPlus(ColumnSums(f, n - 1), RowOf(f, n - 1), ColumnSums(f, n), m);
    }
  }

  // ---------- Exact sines and cosines ----------

  /** Cosine and sine of every whole number of steps. */
  datatype Circle = Circle(cos: int -> real, sin: int -> real)

  /** The addition formulas for a and b steps. */
  ghost predicate Adds(w: Circle, a: int, b: int) {
    && w.cos(a + b) == Times(w.cos(a), w.cos(b)) - Times(w.sin(a), w.sin(b))
    && w.sin(a + b) == Times(w.sin(a), w.cos(b)) + Times(w.cos(a), w.sin(b))
  }

  ghost predicate Mirrors(w: Circle, a: int) {
    w.cos(-a) == w.cos(a) && w.sin(-a) == -w.sin(a)
  }

  /** h steps make half a turn. */
  ghost predicate Turns(w: Circle, h: nat) {
    && w.cos(0) == 1.0 && w.sin(0) == 0.0 && w.cos(h) == -1.0 && w.sin(h) == 0.0
    && (forall a, b :: Adds(w, a, b)) && (forall a :: Mirrors(w, a))
  }

  lemma HalfTurn(w: Circle, h: nat, a: int)
    requires Turns(w, h)
    ensures w.cos(a + h) == -w.cos(a) && w.sin(a + h) == -w.sin(a)
    ensures w.cos(a + 2 * h) == w.cos(a) && w.sin(a + 2 * h) == w.sin(a)
  {
    assert Adds(w, a, h) && Adds(w, a + h, h);
    assert a + h + h == a + 2 * h;
  }

  lemma {:induction false} WholeTurns(w: Circle, h: nat, a: int, u: nat)
    requires Turns(w, h)
    ensures w.cos(a + u * (2 * h)) == w.cos(a) && w.sin(a + u * (2 * h)) == w.sin(a)
  {
    if u > 0 {
      WholeTurns(w, h, a, u - 1);
      HalfTurn(w, h, a + (u - 1) * (2 * h));
      assert a + u * (2 * h) == a + (u - 1) * (2 * h) + 2 * h;
    } else {
      assert u * (2 * h) == 0;
    }
  }

  /** a minus b steps. */
  lemma Differs(w: Circle, h: nat, a: int, b: int)
    requires Turns(w, h)
    ensures w.cos(a - b) == Times(w.cos(a), w.cos(b)) + Times(w.sin(a), w.sin(b))
    ensures w.sin(a - b) == Times(w.sin(a), w.cos(b)) - Times(w.cos(a), w.sin(b))
  {
    assert Adds(w, a, -b) && Mirrors(w, b);
    assert a + -b == a - b;
  }

  // ---------- The sum of the cosines of equal steps around the circle ----------

  /** Steps of m that are no whole turn pass, after a while, an odd number of half turns. */
  lemma {:induction false} SomeHalfTurn(m: nat, e: nat) returns (r: nat, u: nat)
    requires e > 0 && m % Pow2(e) != 0
    ensures r * m == Pow2(e - 1) + u * (2 * Pow2(e - 1))
  {
    Pow2Step(e);
    if m % 2 == 1 {
      r, u := Pow2(e - 1), m / 2;
      OddHalves(m, Pow2(e - 1));
    } else {
      Doubled(m / 2, e);
      r, u := SomeHalfTurn(m / 2, e - 1);
      Pow2Step(e - 1);
      MulShuffle(r, 2, m / 2);
      MulShuffle(u, 2, 2 * Pow2(e - 2));
    }
  }

  lemma OddHalves(m: nat, h: nat)
    requires m % 2 == 1
    ensures h * m == h + m / 2 * (2 * h)
  {
    var q := m / 2;
    assert m == 2 * q + 1;
    Distribute(h, 2 * q, 1);
    assert h * (2 * q) == q * (2 * h);
  }

  lemma Doubled(m: nat, e: nat)
    requires e > 0
    ensures m % Pow2(e - 1) == 0 ==> 2 * m % Pow2(e) == 0
  {
    var d := Pow2(e - 1);
    Pow2Step(e);
    if m % d == 0 {
      var q := m / d;
      assert m == d * q;
      MulShuffle(2, d, q);
      assert 2 * m == q * (2 * d);
      DivModUnique(2 * m, 2 * d, q, 0);
    }
  }

  /** k steps of m each. */
  function Steps(k: int, m: int): int {
    k * m
  }

  function Cosines(w: Circle, m: int): int -> real {
    (k: int) => w.cos(Steps(k, m))
  }

  function Sines(w: Circle, m: int): int -> real {
    (k: int) => w.sin(Steps(k, m))
  }

  lemma OneStepMore(w: Circle, h: nat, k: int, m: int)
    requires Turns(w, h)
    ensures w.cos(Steps(k + 1, m)) == Times(w.cos(Steps(k, m)), w.cos(m)) - Times(w.sin(Steps(k, m)), w.sin(m))
    ensures w.sin(Steps(k + 1, m)) == Times(w.sin(Steps(k, m)), w.cos(m)) + Times(w.cos(Steps(k, m)), w.sin(m))
  {
    hide Times;
    assert Adds(w, Steps(k, m), m);
    assert Steps(k + 1, m) == Steps(k, m) + m;
  }

  /** Turning the first j terms on by m drops the first and adds another. */
  lemma {:induction false} SumTurns(w: Circle, h: nat, m: int, j: nat)
    requires Turns(w, h)
    ensures var a, b := Total(Cosines(w, m), j), Total(Sines(w, m), j);
      && Times(a, w.cos(m)) - Times(b, w.sin(m)) == a + w.cos(Steps(j, m)) - 1.0
      && Times(b, w.cos(m)) + Times(a, w.sin(m)) == b + w.sin(Steps(j, m))
  {
    hide Times;
    if j > 0 {
      SumTurns(w, h, m, j - 1);
      OneStepMore(w, h, j - 1, m);
      var a, b := Total(Cosines(w, m), j - 1), Total(Sines(w, m), j - 1);
      var c, s := w.cos(Steps(j - 1, m)), w.sin(Steps(j - 1, m));
      TimesSplits(a, c, w.cos(m));
      TimesSplits(a, c, w.sin(m));
      TimesSplits(b, s, w.cos(m));
      TimesSplits(b, s, w.sin(m));
    } else {
      TimesSplits(0.0, 0.0, w.cos(m));
      TimesSplits(0.0, 0.0, w.sin(m));
    }
  }

  lemma TimesSplits(a: real, b: real, c: real)
    ensures Times(a + b, c) == Times(a, c) + Times(b, c) && Times(a - b, c) == Times(a, c) - Times(b, c)
    ensures Times(0.0, c) == 0.0
  {
  }

  /** All around the circle, the sums stay when they are turned on by m, and by any number of steps of m. */
  lemma {:induction false} SumsStay(w: Circle, h: nat, m: nat, r: nat)
    requires Turns(w, h)
    ensures var a, b := Total(Cosines(w, m), 2 * h), Total(Sines(w, m), 2 * h);
      && Times(a, w.cos(Steps(r, m))) - Times(b, w.sin(Steps(r, m))) == a
      && Times(b, w.cos(Steps(r, m))) + Times(a, w.sin(Steps(r, m))) == b
  {
    hide Times;
    var a, b := Total(Cosines(w, m), 2 * h), Total(Sines(w, m), 2 * h);
    if r == 0 {
      assert Steps(0, m) == 0;
      Unturned(a, b);
    } else {
      SumsStay(w, h, m, r - 1);
      SumTurns(w, h, m, 2 * h);
      WholeTurns(w, h, 0, m);
      assert Steps(2 * h, m) == 0 + m * (2 * h);
      OneStepMore(w, h, r - 1, m);
      TurnedTwice(a, b, w.cos(Steps(r - 1, m)), w.sin(Steps(r - 1, m)), w.cos(m), w.sin(m));
    }
  }

  lemma Unturned(a: real, b: real)
    ensures Times(a, 1.0) == a && Times(a, 0.0) == 0.0 && Times(b, 1.0) == b && Times(b, 0.0) == 0.0
  {
  }

  lemma TurnedTwice(a: real, b: real, c: real, s: real, d: real, t: real)
    requires Times(a, c) - Times(b, s) == a && Times(b, c) + Times(a, s) == b
    requires Times(a, d) - Times(b, t) == a && Times(b, d) + Times(a, t) == b
    ensures Times(a, Times(c, d) - Times(s, t)) - Times(b, Times(s, d) + Times(c, t)) == a
    ensures Times(b, Times(c, d) - Times(s, t)) + Times(a, Times(s, d) + Times(c, t)) == b
  {
    hide Times;
    Spread(a, c, s, d, t);
    Spread(b, s, c, d, t);
    Spread(b, c, s, d, t);
    Spread(a, s, c, d, t);
    TimesSplits(Times(a, c), Times(b, s), d);
    TimesSplits(Times(a, s), Times(b, c), t);
    TimesSplits(Times(b, c), Times(a, s), d);
    TimesSplits(Times(a, c), Times(b, s), t);
  }

  lemma Spread(a: real, c: real, s: real, d: real, t: real)
    ensures Times(a, Times(c, d) - Times(s, t)) == Times(Times(a, c), d) - Times(Times(a, s), t)
    ensures Times(a, Times(c, d) + Times(s, t)) == Times(Times(a, c), d) + Times(Times(a, s), t)
  {
  }

  /** The cosines of equal steps around the circle cancel, unless every step is a whole number of turns. */
  lemma CosinesCancel(w: Circle, e: nat, m: nat)
    requires e > 0 && Turns(w, Pow2(e - 1))
    ensures Total(Cosines(w, m), Pow2(e)) == if m % Pow2(e) == 0 then Pow2(e) as real else 0.0
  {
    hide Turns;
    var h := Pow2(e - 1);
    Pow2Step(e);
    if m % Pow2(e) == 0 {
      forall k | 0 <= k < Pow2(e)
        ensures Cosines(w, m)(k) == 1.0
      {
        AllTurns(w, h, k, m);
      }
      TotalConstant(Cosines(w, m), Pow2(e), 1.0);
    } else {
      var r, u := SomeHalfTurn(m, e);
      SumsStay(w, h, m, r);
      OddTurns(w, h, u);
      Negated(Total(Cosines(w, m), 2 * h), Total(Sines(w, m), 2 * h));
    }
  }

  lemma Negated(a: real, b: real)
    ensures Times(a, -1.0) == -a && Times(b, 0.0) == 0.0
  {
  }

  lemma OddTurns(w: Circle, h: nat, u: nat)
    requires Turns(w, h)
    ensures w.cos(h + u * (2 * h)) == -1.0 && w.sin(h + u * (2 * h)) == 0.0
  {
    WholeTurns(w, h, h, u);
  }

  lemma AllTurns(w: Circle, h: nat, k: nat, m: nat)
    requires Turns(w, h) && h > 0 && m % (2 * h) == 0
    ensures w.cos(Steps(k, m)) == 1.0
  {
    var q := m / (2 * h);
    assert m == 2 * h * q;
    WholeTurns(w, h, 0, k * q);
    assert Steps(k, m) == 0 + k * q * (2 * h) by {
      MulShuffle(k, 2 * h, q);
    }
  }

  /** The same for any step, forwards or backwards, of less than two turns. */
  lemma SumAround(w: Circle, e: nat, m: int)
    requires e > 0 && Turns(w, Pow2(e - 1)) && 0 < m + Pow2(e) && m < 2 * Pow2(e)
    ensures Total(Cosines(w, m), Pow2(e)) == if m == 0 || m == Pow2(e) then Pow2(e) as real else 0.0
  {
    hide Turns, Pow2;
    var n := Pow2(e);
    if m >= 0 {
      CosinesCancel(w, e, m);
      Remainders(m, n);
    } else {
      CosinesCancel(w, e, -m);
      Remainders(-m, n);
      forall k | 0 <= k < n
        ensures Cosines(w, m)(k) == Cosines(w, -m)(k)
      {
        Backwards(w, Pow2(e - 1), k, m);
      }
      TotalSame(Cosines(w, m), Cosines(w, -m), n);
    }
  }

  lemma Remainders(m: nat, n: nat)
    requires 0 < n && m < 2 * n
    ensures m % n == 0 <==> m == 0 || m == n
  {
    if m >= n {
      DivModUnique(m, n, 1, m - n);
    } else {
      DivModUnique(m, n, 0, m);
    }
  }

  lemma Backwards(w: Circle, h: nat, k: int, m: int)
    requires Turns(w, h)
    ensures w.cos(Steps(k, -m)) == w.cos(Steps(k, m)) && w.sin(Steps(k, -m)) == -w.sin(Steps(k, m))
  {
    assert Mirrors(w, Steps(k, m));
    assert Steps(k, -m) == -Steps(k, m);
  }

  // ---------- The transform ----------

  function CosTerms(w: Circle, x: seq<real>, k: int): int -> real {
    (i: int) => Times(At(x, i), w.cos(Steps(k, i)))
  }

  function SinTerms(w: Circle, x: seq<real>, k: int): int -> real {
    (i: int) => Times(At(x, i), w.sin(Steps(k, i)))
  }

  /** Bins 0 to n / 2 of n real samples. */
  function Forward(w: Circle, n: nat, x: seq<real>): (s: Spectrum)
    ensures Sized(s, ComplexSize(n))
  {
    Spectrum(seq(ComplexSize(n), k requires 0 <= k < ComplexSize(n) => Total(CosTerms(w, x, k), n)),
             seq(ComplexSize(n), k requires 0 <= k < ComplexSize(n) => -Total(SinTerms(w, x, k), n)))
  }

  /** Bin k of all n bins: those in the upper half are the conjugates of those in the lower half. */
  function ReBin(s: Spectrum, n: nat, k: int): real {
    if k <= n / 2 then At(s.re, k) else At(s.re, n - k)
  }

  function ImBin(s: Spectrum, n: nat, k: int): real {
    if k <= n / 2 then At(s.im, k) else -At(s.im, n - k)
  }

  function BackTerms(w: Circle, n: nat, s: Spectrum, q: int): int -> real {
    (k: int) => Times(ReBin(s, n, k), w.cos(Steps(k, q))) - Times(ImBin(s, n, k), w.sin(Steps(k, q)))
  }

  function Backward(w: Circle, n: nat, s: Spectrum): (x: seq<real>)
    requires n > 0
    ensures |x| == n
  {
    seq(n, q requires 0 <= q < n => Total(BackTerms(w, n, s, q), n) / n as real)
  }

  /** The discrete Fourier transform of n samples and its inverse. */
  function Dft(w: Circle, n: nat): Transform
    requires n > 0
  {
    Transform((x: seq<real>) => Forward(w, n, x), (s: Spectrum) => Backward(w, n, s))
  }

  // ---------- Bins of a product ----------

  lemma ProductBins(a: Spectrum, b: Spectrum, n: nat, k: nat)
    requires Sized(a, ComplexSize(n)) && Sized(b, ComplexSize(n)) && k < n
    ensures ReBin(Mul(a, b), n, k)
      == Times(ReBin(a, n, k), ReBin(b, n, k)) - Times(ImBin(a, n, k), ImBin(b, n, k))
    ensures ImBin(Mul(a, b), n, k)
      == Times(ReBin(a, n, k), ImBin(b, n, k)) + Times(ImBin(a, n, k), ReBin(b, n, k))
  {
    var i := if k <= n / 2 then k else n - k;
    ProductAt(a, b, i);
    hide Times, Mul;
    if k > n / 2 {
      Conjugates(a.re[i], a.im[i], b.re[i], b.im[i]);
    }
  }

  lemma ProductAt(a: Spectrum, b: Spectrum, i: nat)
    requires Sized(a, |a.re|) && Sized(b, |a.re|) && i < |a.re|
    ensures Mul(a, b).re[i] == Times(a.re[i], b.re[i]) - Times(a.im[i], b.im[i])
    ensures Mul(a, b).im[i] == Times(a.re[i], b.im[i]) + Times(a.im[i], b.re[i])
  {
  }

  /** The product of the conjugates is the conjugate of the product. */
  lemma Conjugates(a: real, b: real, c: real, d: real)
    ensures Times(-b, -d) == Times(b, d) && Times(a, -d) == -Times(a, d) && Times(-b, c) == -Times(b, c)
  {
    OppositeLeft(b, -d);
    OppositeLeft(b, c);
    Opposite(b, d);
    Opposite(a, d);
  }

  lemma OppositeLeft(a: real, b: real)
    ensures Times(-a, b) == -Times(a, b)
  {
  }

  /** The bins of a signal are its sums, in the upper half as well. */
  lemma BinsOf(w: Circle, h: nat, x: seq<real>, k: nat)
    requires Turns(w, h) && k < 2 * h
    ensures ReBin(Forward(w, 2 * h, x), 2 * h, k) == Total(CosTerms(w, x, k), 2 * h)
    ensures ImBin(Forward(w, 2 * h, x), 2 * h, k) == -Total(SinTerms(w, x, k), 2 * h)
  {
    hide Times, Turns;
    if k > h {
      forall i | 0 <= i < 2 * h
        ensures CosTerms(w, x, 2 * h - k)(i) == CosTerms(w, x, k)(i)
        ensures SinTerms(w, x, 2 * h - k)(i) == -SinTerms(w, x, k)(i)
      {
        UpperBin(w, h, k, i);
        Opposite(At(x, i), w.sin(Steps(k, i)));
      }
      TotalSame(CosTerms(w, x, 2 * h - k), CosTerms(w, x, k), 2 * h);
      TotalMinus(SinTerms(w, x, k), SinTerms(w, x, 2 * h - k), 2 * h);
    }
  }

  lemma Opposite(a: real, b: real)
    ensures Times(a, -b) == -Times(a, b)
  {
  }

  lemma {:induction false} TotalMinus(f: int -> real, g: int -> real, n: nat)
    requires forall i :: 0 <= i < n ==> g(i) == -f(i)
    ensures Total(g, n) == -Total(f, n)
  {
    if n > 0 {
      TotalMinus(f, g, n - 1);
    }
  }

  lemma UpperBin(w: Circle, h: nat, k: nat, i: nat)
    requires Turns(w, h) && k <= 2 * h
    ensures w.cos(Steps(2 * h - k, i)) == w.cos(Steps(k, i)) && w.sin(Steps(2 * h - k, i)) == -w.sin(Steps(k, i))
  {
    WholeTurns(w, h, -Steps(k, i), i);
    assert Mirrors(w, Steps(k, i));
    assert Steps(2 * h - k, i) == -Steps(k, i) + i * (2 * h);
  }

  // ---------- The convolution theorem ----------

  /** Terms of y's cosine sum at step k, turned by d. */
  function TurnedTerms(w: Circle, y: seq<real>, k: int, d: int): int -> real {
    (j: int) => Times(At(y, j), w.cos(Steps(k, j + d)))
  }

  lemma TurnedSum(w: Circle, h: nat, y: seq<real>, n: nat, k: int, d: int)
    requires Turns(w, h)
    ensures Total(TurnedTerms(w, y, k, d), n)
      == Times(w.cos(Steps(k, d)), Total(CosTerms(w, y, k), n))
         + Times(-w.sin(Steps(k, d)), Total(SinTerms(w, y, k), n))
  {
    hide Turns, Times, TurnedTerms, CosTerms, SinTerms, Steps;
    forall j | 0 <= j < n
      ensures TurnedTerms(w, y, k, d)(j)
        == Times(w.cos(Steps(k, d)), CosTerms(w, y, k)(j)) + Times(-w.sin(Steps(k, d)), SinTerms(w, y, k)(j))
    {
      TurnedAt(w, h, y, k, d, j);
    }
    TotalCombines(CosTerms(w, y, k), SinTerms(w, y, k), TurnedTerms(w, y, k, d),
                  w.cos(Steps(k, d)), -w.sin(Steps(k, d)), n);
  }

  lemma TurnedAt(w: Circle, h: nat, y: seq<real>, k: int, d: int, j: nat)
    requires Turns(w, h)
    ensures TurnedTerms(w, y, k, d)(j)
      == Times(w.cos(Steps(k, d)), CosTerms(w, y, k)(j)) + Times(-w.sin(Steps(k, d)), SinTerms(w, y, k)(j))
  {
    hide Turns, Times, Steps;
    StepsAdd(w, h, k, j, d);
    TurnedTerm(At(y, j), w.cos(Steps(k, j)), w.sin(Steps(k, j)), w.cos(Steps(k, d)), w.sin(Steps(k, d)));
  }

  lemma StepsAdd(w: Circle, h: nat, k: int, j: int, d: int)
    requires Turns(w, h)
    ensures w.cos(Steps(k, j + d)) ==
      Times(w.cos(Steps(k, j)), w.cos(Steps(k, d))) - Times(w.sin(Steps(k, j)), w.sin(Steps(k, d)))
    ensures w.sin(Steps(k, j + d)) ==
      Times(w.sin(Steps(k, j)), w.cos(Steps(k, d))) + Times(w.cos(Steps(k, j)), w.sin(Steps(k, d)))
  {
    hide Times;
    assert Adds(w, Steps(k, j), Steps(k, d));
    Distribute(k, j, d);
    assert Steps(k, j + d) == Steps(k, j) + Steps(k, d);
  }

  lemma TurnedTerm(y: real, c: real, s: real, d: real, t: real)
    ensures Times(y, Times(c, d) - Times(s, t)) == Times(d, Times(y, c)) + Times(-t, Times(y, s))
  {
    hide Times;
    Spread(y, c, s, d, t);
    Regrouped(y, c, d);
    Regrouped(y, s, t);
    Opposite(Times(y, s), t);
  }

  lemma Regrouped(a: real, b: real, c: real)
    ensures Times(a, Times(b, c)) == Times(Times(a, b), c) == Times(c, Times(a, b))
    ensures Times(-c, Times(a, b)) == -Times(c, Times(a, b))
  {
  }

  /** What bin k of the product adds to sample q, as a sum over the samples of x. */
  function BinTerms(w: Circle, x: seq<real>, y: seq<real>, n: nat, q: int): (int, int) -> real {
    (k: int, i: int) => Times(At(x, i), Total(TurnedTerms(w, y, k, i - q), n))
  }

  lemma RowAt(w: Circle, h: nat, x: seq<real>, y: seq<real>, q: int, k: nat, i: nat, cy: real, sy: real)
    requires Turns(w, h) && cy == Total(CosTerms(w, y, k), 2 * h) && sy == Total(SinTerms(w, y, k), 2 * h)
    ensures var c, s := w.cos(Steps(k, q)), w.sin(Steps(k, q));
      RowOf(BinTerms(w, x, y, 2 * h, q), k)(i)
        == Times(Times(cy, c) + Times(sy, s), CosTerms(w, x, k)(i))
           + Times(Times(cy, s) - Times(sy, c), SinTerms(w, x, k)(i))
  {
    hide Times, Turns, Steps, TurnedTerms;
    TurnedSum(w, h, y, 2 * h, k, i - q);
    StepsDiffer(w, h, k, i, q);
    RowTerm(At(x, i), w.cos(Steps(k, i)), w.sin(Steps(k, i)), w.cos(Steps(k, q)), w.sin(Steps(k, q)), cy, sy);
  }

  lemma BinIsSum(w: Circle, h: nat, x: seq<real>, y: seq<real>, q: int, k: nat)
    requires Turns(w, h) && k < 2 * h
    ensures BackTerms(w, 2 * h, Mul(Forward(w, 2 * h, x), Forward(w, 2 * h, y)), q)(k)
      == RowSums(BinTerms(w, x, y, 2 * h, q), 2 * h)(k)
  {
    hide Times, Turns, Mul, Forward, ReBin, ImBin, Steps, RowOf, BinTerms, CosTerms, SinTerms, Total;
    var n := 2 * h;
    ProductBins(Forward(w, n, x), Forward(w, n, y), n, k);
    BinsOf(w, h, x, k);
    BinsOf(w, h, y, k);
    var cx, sx := Total(CosTerms(w, x, k), n), Total(SinTerms(w, x, k), n);
    var cy, sy := Total(CosTerms(w, y, k), n), Total(SinTerms(w, y, k), n);
    var c, s := w.cos(Steps(k, q)), w.sin(Steps(k, q));
    var a, b := Times(cy, c) + Times(sy, s), Times(cy, s) - Times(sy, c);
    forall i | 0 <= i < n
      ensures RowOf(BinTerms(w, x, y, n, q), k)(i) == Times(a, CosTerms(w, x, k)(i)) + Times(b, SinTerms(w, x, k)(i))
    {
      RowAt(w, h, x, y, q, k, i, cy, sy);
    }
    TotalCombines(CosTerms(w, x, k), SinTerms(w, x, k), RowOf(BinTerms(w, x, y, n, q), k), a, b, n);
    BackTerm(cx, sx, cy, sy, c, s);
  }

  lemma StepsDiffer(w: Circle, h: nat, k: int, i: int, q: int)
    requires Turns(w, h)
    ensures w.cos(Steps(k, i - q)) ==
      Times(w.cos(Steps(k, i)), w.cos(Steps(k, q))) + Times(w.sin(Steps(k, i)), w.sin(Steps(k, q)))
    ensures w.sin(Steps(k, i - q)) ==
      Times(w.sin(Steps(k, i)), w.cos(Steps(k, q))) - Times(w.cos(Steps(k, i)), w.sin(Steps(k, q)))
  {
    hide Times;
    Differs(w, h, Steps(k, i), Steps(k, q));
    Distribute(k, i - q, q);
    assert Steps(k, i - q) == Steps(k, i) - Steps(k, q);
  }

  /** One term on plain numbers: x at angle i, against y's sums at angle i - q. */
  lemma RowTerm(x: real, ci: real, si: real, c: real, s: real, cy: real, sy: real)
    ensures Times(x, Times(Times(ci, c) + Times(si, s), cy) + Times(-(Times(si, c) - Times(ci, s)), sy))
      == Times(Times(cy, c) + Times(sy, s), Times(x, ci)) + Times(Times(cy, s) - Times(sy, c), Times(x, si))
  {
  }

  /** One bin on plain numbers. */
  lemma BackTerm(cx: real, sx: real, cy: real, sy: real, c: real, s: real)
    ensures Times(Times(cx, cy) - Times(-sx, -sy), c) - Times(Times(cx, -sy) + Times(-sx, cy), s)
      == Times(Times(cy, c) + Times(sy, s), cx) + Times(Times(cy, s) - Times(sy, c), sx)
  {
  }

  function TurnedGrid(w: Circle, y: seq<real>, d: int): (int, int) -> real {
    (k: int, j: int) => Times(At(y, j), w.cos(Steps(k, j + d)))
  }

  /** Over all steps k, the turned sums of y are n times one sample of y. */
  lemma TurnedSumsSelect(w: Circle, e: nat, y: seq<real>, d: int)
    requires e > 0 && Turns(w, Pow2(e - 1)) && -|y| < d < |y| == Pow2(e)
    ensures Total(RowSums(TurnedGrid(w, y, d), |y|), |y|) == Times(|y| as real, At(y, Wrap(-d, |y|)))
  {
    hide Times, Turns, Pow2;
    var n, j0 := |y|, Wrap(-d, |y|);
    Exchange(TurnedGrid(w, y, d), n, n);
    var columns := ColumnSums(TurnedGrid(w, y, d), n);
    forall j | 0 <= j < n
      ensures columns(j) == if j == j0 then Times(n as real, At(y, j)) else 0.0
    {
      ColumnSelects(w, e, y, d, j);
    }
    TotalOfOne(columns, n, j0);
  }

  lemma ColumnSelects(w: Circle, e: nat, y: seq<real>, d: int, j: nat)
    requires e > 0 && Turns(w, Pow2(e - 1)) && -|y| < d < |y| == Pow2(e) && j < |y|
    ensures ColumnSums(TurnedGrid(w, y, d), |y|)(j)
      == if j == Wrap(-d, |y|) then Times(|y| as real, At(y, j)) else 0.0
  {
    hide Times, Turns, Pow2, Steps;
    var n := |y|;
    TotalTimes(At(y, j), Cosines(w, j + d), ColumnOf(TurnedGrid(w, y, d), j), n);
    SumAround(w, e, j + d);
    TimesAdds(At(y, j), 0.0, 0.0);
    Regrouped(At(y, j), 1.0, n as real);
    TimesCommute(At(y, j), n as real);
  }

  lemma TimesCommute(a: real, b: real)
    ensures Times(a, b) == Times(b, a)
  {
  }

  function CircularTerms(x: seq<real>, y: seq<real>, q: int): int -> real
    requires |y| > 0
  {
    (i: int) => Times(At(x, i), At(y, Wrap(q - i, |y|)))
  }

  lemma {:induction false} CircularIsTotal(x: seq<real>, y: seq<real>, q: int, m: nat)
    requires |x| == |y| > 0 && m <= |x|
    ensures CircularSum(x, y, q, m) == Total(CircularTerms(x, y, q), m)
  {
    hide Times;
    if m > 0 {
      CircularIsTotal(x, y, q, m - 1);
    }
  }

  /** Column i of the bins' terms: sample i of x and the sample of y that it meets. */
  lemma ColumnIs(w: Circle, e: nat, x: seq<real>, y: seq<real>, q: nat, i: nat)
    requires e > 0 && Turns(w, Pow2(e - 1)) && |x| == |y| == Pow2(e) && q < |x| && i < |x|
    ensures ColumnSums(BinTerms(w, x, y, |x|, q), |x|)(i) == Times(|x| as real, CircularTerms(x, y, q)(i))
  {
    hide Times, Turns, Pow2, Total, TurnedTerms, TurnedGrid;
    var n := |x|;
    forall k | 0 <= k < n
      ensures ColumnOf(BinTerms(w, x, y, n, q), i)(k) == Times(At(x, i), RowSums(TurnedGrid(w, y, i - q), n)(k))
    {
      TurnedRow(w, y, n, k, i - q);
    }
    TotalTimes(At(x, i), RowSums(TurnedGrid(w, y, i - q), n), ColumnOf(BinTerms(w, x, y, n, q), i), n);
    TurnedSumsSelect(w, e, y, i - q);
    Regrouped(n as real, At(x, i), At(y, Wrap(q - i, n)));
    Regrouped(At(x, i), At(y, Wrap(q - i, n)), n as real);
    TimesCommute(n as real, At(y, Wrap(q - i, n)));
  }

  lemma TurnedRow(w: Circle, y: seq<real>, n: nat, k: nat, d: int)
    ensures Total(TurnedTerms(w, y, k, d), n) == RowSums(TurnedGrid(w, y, d), n)(k)
  {
    TotalSame(TurnedTerms(w, y, k, d), RowOf(TurnedGrid(w, y, d), k), n);
  }

  /** Back in time, the product of two transforms is the circular convolution, sample by sample. */
  lemma ProductInTime(w: Circle, e: nat, x: seq<real>, y: seq<real>, q: nat)
    requires e > 0 && Turns(w, Pow2(e - 1)) && |x| == |y| == Pow2(e) && q < |x|
    ensures Total(BackTerms(w, |x|, Mul(Forward(w, |x|, x), Forward(w, |x|, y)), q), |x|)
      == Times(|x| as real, CircularSum(x, y, q, |x|))
  {
    hide Times, Turns, Mul, Forward, BackTerms, RowSums, ColumnSums, BinTerms, CircularTerms, Pow2, Total, CircularSum;
    var n, h := |x|, Pow2(e - 1);
    Pow2Step(e);
    var back := BackTerms(w, n, Mul(Forward(w, n, x), Forward(w, n, y)), q);
    forall k | 0 <= k < n
      ensures back(k) == RowSums(BinTerms(w, x, y, n, q), n)(k)
    {
      BinIsSum(w, h, x, y, q, k);
    }
    TotalSame(back, RowSums(BinTerms(w, x, y, n, q), n), n);
    Exchange(BinTerms(w, x, y, n, q), n, n);
    forall i | 0 <= i < n
      ensures ColumnSums(BinTerms(w, x, y, n, q), n)(i) == Times(n as real, CircularTerms(x, y, q)(i))
    {
      ColumnIs(w, e, x, y, q, i);
    }
    TotalTimes(n as real, CircularTerms(x, y, q), ColumnSums(BinTerms(w, x, y, n, q), n), n);
    CircularIsTotal(x, y, q, n);
  }

  lemma Undone(n: nat, a: real)
    requires n > 0
    ensures Times(n as real, a) / n as real == a
  {
  }

  lemma ProductIsCircular(w: Circle, e: nat, x: seq<real>, y: seq<real>)
    requires e > 0 && Turns(w, Pow2(e - 1)) && |x| == |y| == Pow2(e)
    ensures Backward(w, |x|, Mul(Forward(w, |x|, x), Forward(w, |x|, y))) == Circular(x, y)
  {
    hide Times, Turns, Mul, Forward, BackTerms, Pow2, Total, CircularSum;
    var n := |x|;
    var s, c := Backward(w, n, Mul(Forward(w, n, x), Forward(w, n, y))), Circular(x, y);
    forall q | 0 <= q < n
      ensures s[q] == c[q]
    {
      ProductInTime(w, e, x, y, q);
      Undone(n, CircularSum(x, y, q, n));
    }
  }

  lemma BackwardAdds(w: Circle, n: nat, a: Spectrum, b: Spectrum)
    requires n > 0 && Sized(a, ComplexSize(n)) && Sized(b, ComplexSize(n))
    ensures Backward(w, n, Add(a, b)) == AddSamples(Backward(w, n, a), Backward(w, n, b))
  {
    hide Times, Total, BackTerms;
    var u, v := Backward(w, n, Add(a, b)), AddSamples(Backward(w, n, a), Backward(w, n, b));
    forall q | 0 <= q < n
      ensures u[q] == v[q]
    {
      forall k | 0 <= k < n
        ensures BackTerms(w, n, Add(a, b), q)(k) == BackTerms(w, n, a, q)(k) + BackTerms(w, n, b, q)(k)
      {
        BinsAdd(w, n, a, b, q, k);
      }
      TotalPlus(BackTerms(w, n, a, q), BackTerms(w, n, b, q), BackTerms(w, n, Add(a, b), q), n);
      Shared(n, Total(BackTerms(w, n, a, q), n), Total(BackTerms(w, n, b, q), n));
    }
  }

  lemma Shared(n: nat, a: real, b: real)
    requires n > 0
    ensures (a + b) / n as real == a / n as real + b / n as real && 0.0 / n as real == 0.0
  {
  }

  lemma BinsAdd(w: Circle, n: nat, a: Spectrum, b: Spectrum, q: int, k: nat)
    requires Sized(a, ComplexSize(n)) && Sized(b, ComplexSize(n)) && k < n
    ensures BackTerms(w, n, Add(a, b), q)(k) == BackTerms(w, n, a, q)(k) + BackTerms(w, n, b, q)(k)
  {
    hide Times;
    var i := if k <= n / 2 then k else n - k;
    assert Add(a, b).re[i] == a.re[i] + b.re[i] && Add(a, b).im[i] == a.im[i] + b.im[i];
    TimesSplits(ReBin(a, n, k), ReBin(b, n, k), w.cos(Steps(k, q)));
    TimesSplits(ImBin(a, n, k), ImBin(b, n, k), w.sin(Steps(k, q)));
  }

  lemma SilenceBothWays(w: Circle, n: nat)
    requires n > 0
    ensures Forward(w, n, Zeros(n)) == Silence(ComplexSize(n)) && Backward(w, n, Silence(ComplexSize(n))) == Zeros(n)
  {
    hide Times, Total;
    var z, silence := Zeros(n), Silence(ComplexSize(n));
    forall k | 0 <= k < ComplexSize(n)
      ensures Forward(w, n, z).re[k] == 0.0 && Forward(w, n, z).im[k] == 0.0
    {
      forall i | 0 <= i < n
        ensures CosTerms(w, z, k)(i) == 0.0 && SinTerms(w, z, k)(i) == 0.0
      {
        TimesAdds(0.0, w.cos(Steps(k, i)), 0.0);
        TimesAdds(0.0, w.sin(Steps(k, i)), 0.0);
      }
      TotalZero(CosTerms(w, z, k), n);
      TotalZero(SinTerms(w, z, k), n);
    }
    forall q | 0 <= q < n
      ensures Backward(w, n, silence)[q] == 0.0
    {
      forall k | 0 <= k < n
        ensures BackTerms(w, n, silence, q)(k) == 0.0
      {
        SilentBins(n, k);
        TimesAdds(0.0, w.cos(Steps(k, q)), 0.0);
        TimesAdds(0.0, w.sin(Steps(k, q)), 0.0);
      }
      TotalZero(BackTerms(w, n, silence, q), n);
      Shared(n, 0.0, 0.0);
    }
  }

  lemma SilentBins(n: nat, k: nat)
    requires k < n
    ensures ReBin(Silence(ComplexSize(n)), n, k) == 0.0 && ImBin(Silence(ComplexSize(n)), n, k) == 0.0
  {
  }

  /** With exact sines and cosines, the transform of every power of two meets the convolvers' hypothesis. */
  lemma DftConvolves(w: Circle, e: nat)
    requires e > 0 && Turns(w, Pow2(e - 1))
    ensures ConvolutionTheorem(Dft(w, Pow2(e)), Pow2(e))
  {
    hide Turns, Pow2, Mul, Add, Forward, Backward, Circular, Silence, Zeros, AddSamples;
    var n, t := Pow2(e), Dft(w, Pow2(e));
    SilenceBothWays(w, n);
    forall a, b | Sized(a, ComplexSize(n)) && Sized(b, ComplexSize(n))
      ensures t.ifft(Add(a, b)) == AddSamples(t.ifft(a), t.ifft(b))
    {
      BackwardAdds(w, n, a, b);
    }
    forall x, y | |x| == n && |y| == n
      ensures t.ifft(Mul(t.fft(x), t.fft(y))) == Circular(x, y)
    {
      ProductIsCircular(w, e, x, y);
    }
  }

  // ---------- Circles of any fineness ----------

  /** A point of the plane; points are multiplied as complex numbers are. */
  datatype Point = Point(x: real, y: real)

  function Product(a: Point, b: Point): Point {
    Point(Times(a.x, b.x) - Times(a.y, b.y), Times(a.y, b.x) + Times(a.x, b.y))
  }

  function Mirrored(a: Point): Point {
    Point(a.x, -a.y)
  }

  lemma ProductAssociates(a: Point, b: Point, c: Point)
    ensures Product(Product(a, b), c) == Product(a, Product(b, c))
  {
    hide Times;
    Spread(c.x, a.x, a.y, b.x, b.y);
    Spread(c.y, a.y, a.x, b.x, b.y);
    Spread(a.x, b.x, b.y, c.x, c.y);
    Spread(a.y, b.y, b.x, c.x, c.y);
    Spread(c.y, a.x, a.y, b.x, b.y);
    Spread(c.x, a.y, a.x, b.x, b.y);
    Spread(a.x, b.y, b.x, c.x, c.y);
    Spread(a.y, b.x, b.y, c.x, c.y);
    ThreeFactors(a.x, b.x, c.x);
    ThreeFactors(a.x, b.x, c.y);
    ThreeFactors(a.x, b.y, c.x);
    ThreeFactors(a.x, b.y, c.y);
    ThreeFactors(a.y, b.x, c.x);
    ThreeFactors(a.y, b.x, c.y);
    ThreeFactors(a.y, b.y, c.x);
    ThreeFactors(a.y, b.y, c.y);
    TimesSplits(Times(a.x, b.x), Times(a.y, b.y), c.x);
    TimesSplits(Times(a.y, b.x), Times(a.x, b.y), c.y);
    TimesSplits(Times(a.y, b.x), Times(a.x, b.y), c.x);
    TimesSplits(Times(a.x, b.x), Times(a.y, b.y), c.y);
  }

  lemma ThreeFactors(a: real, b: real, c: real)
    ensures Times(Times(a, b), c) == Times(a, Times(b, c))
  {
  }

  lemma ProductCommutes(a: Point, b: Point)
    ensures Product(a, b) == Product(b, a)
  {
  }

  lemma MirroredProduct(a: Point, b: Point)
    ensures Mirrored(Product(a, b)) == Product(Mirrored(a), Mirrored(b))
  {
    hide Times;
    Conjugates(a.x, a.y, b.x, b.y);
    Conjugates(b.x, b.y, a.x, a.y);
  }

  function PointAt(w: Circle, m: int): Point {
    Point(w.cos(m), w.sin(m))
  }

  /** The circle of two steps. */
  function TwoSteps(): Circle {
    Circle((m: int) => if m % 2 == 0 then 1.0 else -1.0, (m: int) => 0.0)
  }

  lemma TwoStepsTurn()
    ensures Turns(TwoSteps(), 1)
  {
    var w := TwoSteps();
    forall a, b
      ensures Adds(w, a, b)
    {
      Parity(a, b);
    }
    forall a
      ensures Mirrors(w, a)
    {
      Parity(a, -a);
    }
  }

  lemma Parity(a: int, b: int)
    ensures (a + b) % 2 == 0 <==> a % 2 == b % 2
    ensures -a % 2 == a % 2
  {
  }

  /** A circle with steps of half the size; r is half a step. */
  function Finer(w: Circle, r: Point): Circle {
    Circle((m: int) => if m % 2 == 0 then w.cos(m / 2) else Product(PointAt(w, m / 2), r).x,
           (m: int) => if m % 2 == 0 then w.sin(m / 2) else Product(PointAt(w, m / 2), r).y)
  }

  /** r lies on the circle, half a step from the beginning. */
  predicate HalfStep(w: Circle, r: Point) {
    Product(r, r) == PointAt(w, 1) && Product(r, Mirrored(r)) == Point(1.0, 0.0)
  }

  lemma FinerAt(w: Circle, r: Point, m: int)
    ensures PointAt(Finer(w, r), 2 * m) == PointAt(w, m)
    ensures PointAt(Finer(w, r), 2 * m + 1) == Product(PointAt(w, m), r)
  {
    assert 2 * m / 2 == m && (2 * m + 1) / 2 == m;
  }

  lemma AddsIs(w: Circle, a: int, b: int)
    ensures Adds(w, a, b) <==> PointAt(w, a + b) == Product(PointAt(w, a), PointAt(w, b))
  {
  }

  lemma FinerAdds(w: Circle, h: nat, r: Point, a: int, b: int)
    requires Turns(w, h) && HalfStep(w, r)
    ensures Adds(Finer(w, r), a, b)
  {
    hide Finer, Product, Turns;
    var f, i, j := Finer(w, r), a / 2, b / 2;
    var p, q := PointAt(w, i), PointAt(w, j);
    FinerAt(w, r, i);
    FinerAt(w, r, j);
    FinerAt(w, r, i + j);
    FinerAt(w, r, i + j + 1);
    WholeSteps(w, h, i, j);
    AddsIs(f, a, b);
    ProductAssociates(p, q, r);
    ProductAssociates(p, r, q);
    ProductCommutes(r, q);
    ProductAssociates(Product(p, r), q, r);
    ProductAssociates(Product(p, q), r, r);
    assert a == 2 * i + a % 2 && b == 2 * j + b % 2;
  }

  lemma WholeSteps(w: Circle, h: nat, i: int, j: int)
    requires Turns(w, h)
    ensures PointAt(w, i + j) == Product(PointAt(w, i), PointAt(w, j))
    ensures PointAt(w, i + j + 1) == Product(PointAt(w, i + j), PointAt(w, 1))
    ensures PointAt(w, -i - 1) == Product(Mirrored(PointAt(w, i)), Mirrored(PointAt(w, 1)))
  {
    hide Times;
    assert Adds(w, i, j) && Adds(w, i + j, 1) && Adds(w, -i, -1) && Mirrors(w, i) && Mirrors(w, 1);
    assert -i + -1 == -i - 1;
  }

  lemma FinerMirrors(w: Circle, h: nat, r: Point, a: int)
    requires Turns(w, h) && HalfStep(w, r)
    ensures Mirrors(Finer(w, r), a)
  {
    hide Finer, Product, Turns;
    var i := a / 2;
    var p := Mirrored(PointAt(w, i));
    assert a == 2 * i + a % 2;
    if a % 2 == 0 {
      FinerAt(w, r, i);
      FinerAt(w, r, -i);
      MirrorsIs(w, h, i);
      assert -a == 2 * -i;
    } else {
      FinerAt(w, r, i);
      FinerAt(w, r, -i - 1);
      WholeSteps(w, h, i, 0);
      MirroredProduct(PointAt(w, i), r);
      MirroredProduct(r, r);
      ProductAssociates(p, Mirrored(r), Mirrored(r));
      ProductAssociates(Product(p, Mirrored(r)), Mirrored(r), r);
      ProductCommutes(Mirrored(r), r);
      TimesOne(Product(p, Mirrored(r)));
      assert -a == 2 * (-i - 1) + 1;
    }
  }

  lemma MirrorsIs(w: Circle, h: nat, i: int)
    requires Turns(w, h)
    ensures PointAt(w, -i) == Mirrored(PointAt(w, i))
  {
    assert Mirrors(w, i);
  }

  lemma TimesOne(a: Point)
    ensures Product(a, Point(1.0, 0.0)) == a
  {
  }

  lemma FinerTurns(w: Circle, h: nat, r: Point)
    requires Turns(w, h) && HalfStep(w, r)
    ensures Turns(Finer(w, r), 2 * h)
  {
    hide Finer, HalfStep;
    FinerAt(w, r, 0);
    FinerAt(w, r, h);
    forall a, b
      ensures Adds(Finer(w, r), a, b)
    {
      FinerAdds(w, h, r, a, b);
    }
    forall a
      ensures Mirrors(Finer(w, r), a)
    {
      FinerMirrors(w, h, r, a);
    }
  }

  /** A number with a square root, as every real number that is not negative. */
  ghost predicate HasRoot(a: real) {
    exists r: real :: r >= 0.0 && Times(r, r) == a
  }

  ghost predicate SquareRoots() {
    forall a: real :: a >= 0.0 ==> HasRoot(a)
  }

  /** Half a step, by the half-angle formulas. */
  lemma HalfStepExists(w: Circle, h: nat) returns (r: Point)
    requires Turns(w, h) && SquareRoots()
    ensures HalfStep(w, r)
  {
    var c, s := w.cos(1), w.sin(1);
    assert Adds(w, 1, -1) && Mirrors(w, 1);
    OnUnitCircle(c, s);
    assert HasRoot((1.0 + c) / 2.0) && HasRoot((1.0 - c) / 2.0);
    var x :| x >= 0.0 && Times(x, x) == (1.0 + c) / 2.0;
    var y :| y >= 0.0 && Times(y, y) == (1.0 - c) / 2.0;
    HalfAngle(c, s, x, y);
    r := Point(x, if s >= 0.0 then y else -y);
  }

  lemma OnUnitCircle(c: real, s: real)
    requires Times(c, c) - Times(s, -s) == 1.0
    ensures -1.0 <= c <= 1.0
  {
    hide Times;
    Opposite(s, s);
    Square(s);
    Square(c);
  }

  lemma Square(a: real)
    ensures Times(a, a) >= 0.0 && (a > 1.0 || a < -1.0 ==> Times(a, a) > 1.0)
  {
  }

  lemma HalfAngle(c: real, s: real, x: real, y: real)
    requires Times(c, c) - Times(s, -s) == 1.0 && x >= 0.0 && y >= 0.0
    requires Times(x, x) == (1.0 + c) / 2.0 && Times(y, y) == (1.0 - c) / 2.0
    ensures var r := Point(x, if s >= 0.0 then y else -y);
      Product(r, r) == Point(c, s) && Product(r, Mirrored(r)) == Point(1.0, 0.0)
  {
    var t := 2.0 * Times(x, y);
    SquareOfProduct(x, y);
    SquareOfHalves(c);
    Opposite(s, s);
    Opposite(y, y);
    assert Times(t, t) == Times(s, s) && t >= 0.0;
    SameSquare(t, if s >= 0.0 then s else -s);
  }

  lemma SquareOfProduct(x: real, y: real)
    ensures Times(2.0 * Times(x, y), 2.0 * Times(x, y)) == 4.0 * Times(Times(x, x), Times(y, y))
    ensures x >= 0.0 && y >= 0.0 ==> Times(x, y) >= 0.0
  {
  }

  lemma SquareOfHalves(c: real)
    ensures 4.0 * Times((1.0 + c) / 2.0, (1.0 - c) / 2.0) == 1.0 - Times(c, c)
  {
  }

  lemma SameSquare(a: real, b: real)
    requires a >= 0.0 && b >= 0.0 && Times(a, a) == Times(b, b)
    ensures a == b
  {
    hide Times;
    SquareGrows(a, b);
    SquareGrows(b, a);
  }

  lemma SquareGrows(a: real, b: real)
    requires a >= 0.0 && b >= 0.0
    ensures a < b ==> Times(a, a) < Times(b, b)
  {
    if a < b {
      assert Times(a, a) <= Times(a, b) && Times(a, b) < Times(b, b);
    }
  }

  /** Where numbers have square roots there is a circle of every fineness. */
  lemma {:induction false} CircleExists(e: nat) returns (w: Circle)
    requires SquareRoots()
    ensures Turns(w, Pow2(e))
  {
    hide Turns;
    if e == 0 {
      TwoStepsTurn();
      w := TwoSteps();
    } else {
      var wider := CircleExists(e - 1);
      var r := HalfStepExists(wider, Pow2(e - 1));
      FinerTurns(wider, Pow2(e - 1), r);
      w := Finer(wider, r);
    }
  }

  /** The convolvers' hypothesis holds of some transform at every size they use: all it takes is square roots. */
  lemma TransformExists(e: nat) returns (t: Transform)
    requires e > 0 && SquareRoots()
    ensures ConvolutionTheorem(t, Pow2(e))
  {
    hide ConvolutionTheorem, Turns;
    var w := CircleExists(e - 1);
    DftConvolves(w, e);
    t := Dft(w, Pow2(e));
  }

  /** Size 2 needs no root. */
  lemma Dft2Convolves()
    ensures ConvolutionTheorem(Dft(TwoSteps(), 2), 2)
  {
    hide ConvolutionTheorem, Turns;
    TwoStepsTurn();
    assert Pow2(0) == 1 && Pow2(1) == 2;
    DftConvolves(TwoSteps(), 1);
  }

  function FourSteps(): Circle {
    Finer(TwoSteps(), Point(0.0, 1.0))
  }

  lemma FourStepsTurn()
    ensures Turns(FourSteps(), 2)
  {
    hide Turns, HalfStep, Finer, TwoSteps;
    TwoStepsTurn();
    QuarterTurn();
    FinerTurns(TwoSteps(), 1, Point(0.0, 1.0));
  }

  lemma QuarterTurn()
    ensures HalfStep(TwoSteps(), Point(0.0, 1.0))
  {
    var r := Point(0.0, 1.0);
    ZerosAndOnes();
    hide Times;
    assert Product(r, r) == Point(-1.0, 0.0) && Product(r, Mirrored(r)) == Point(1.0, 0.0);
    assert PointAt(TwoSteps(), 1) == Point(-1.0, 0.0);
  }

  lemma ZerosAndOnes()
    ensures Times(0.0, 0.0) == 0.0 && Times(0.0, 1.0) == 0.0 && Times(1.0, 0.0) == 0.0 && Times(1.0, 1.0) == 1.0
    ensures Times(1.0, -1.0) == -1.0 && Times(0.0, -1.0) == 0.0 && Times(-1.0, 0.0) == 0.0
  {
  }

  /** Nor does size 4, the smallest with a proper complex bin. */
  lemma Dft4Convolves()
    ensures ConvolutionTheorem(Dft(FourSteps(), 4), 4)
  {
    hide ConvolutionTheorem, Turns, HalfStep, FourSteps;
    FourStepsTurn();
    assert Pow2(1) == 2 && Pow2(2) == 4;
    DftConvolves(FourSteps(), 2);
  }
}
