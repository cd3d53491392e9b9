/** rftfsub and rftbsub of fft_consolver/AudioFFT: the split and merge stages around the complex transform. */
module RealSplit {
  import opened PowersOfTwo

  datatype Complex = Complex(re: real, im: real)

  function Conj(z: Complex): Complex {
    Complex(z.re, -z.im)
  }

  function Plus(a: Complex, b: Complex): Complex {
    Complex(a.re + b.re, a.im + b.im)
  }

  function Minus(a: Complex, b: Complex): Complex {
    Complex(a.re - b.re, a.im - b.im)
  }

  function Times(a: Complex, b: Complex): Complex {
    Complex(a.re * b.re - a.im * b.im, a.re * b.im + a.im * b.re)
  }

  function Scaled(d: real, z: Complex): Complex {
    Complex(d * z.re, d * z.im)
  }

  /** Complex number p of an interleaved array. */
  function At(s: seq<real>, p: nat): Complex
    requires 2 * p + 1 < |s|
  {
    Complex(s[2 * p], s[2 * p + 1])
  }

  /** Pair p of 2h differs from the conjugate of its mirror image by this. */
  function Difference(s: seq<real>, h: nat, p: nat): Complex
    requires 0 < p < h && 4 * h <= |s|
  {
    Minus(At(s, p), Conj(At(s, 2 * h - p)))
  }

  /** 2h pairs take every ks-th of nc table entries, ks = 2 * nc / (2 * h). */
  function TableStep(nc: nat, h: nat): (ks: nat)
    requires h > 0
    ensures h * ks <= nc && (h <= nc ==> ks > 0)
  {
    StepBounds(nc, h);
    nc / h
  }

  lemma StepBounds(nc: nat, h: nat)
    requires h > 0
    ensures nc / h >= 0 && h * (nc / h) <= nc && (h <= nc ==> nc / h > 0)
    ensures nc / h == 2 * nc / (2 * h)
  {
    var q, r := nc / h, nc % h;
    assert nc == h * q + r;
    if q < 0 {
      MulMonotone(q, -1, h);
    } else if q == 0 {
      assert h * q == 0;
    }
    assert 2 * nc == q * (2 * h) + 2 * r;
    DivModUnique(2 * nc, 2 * h, q, 2 * r);
  }

  lemma TableIndex(nc: nat, h: nat, p: nat)
    requires 0 < p < h <= nc
    ensures 0 < p * TableStep(nc, h) < nc
  {
    var ks := TableStep(nc, h);
    MulMonotone(1, p, ks);
    MulMonotone(p + 1, h, ks);
  }

  function Weight(c: seq<real>, nc: nat, h: nat, p: nat): Complex
    requires 0 < p < h <= nc <= |c|
  {
    TableIndex(nc, h, p);
    var kk := p * TableStep(nc, h);
    Complex(0.5 - c[nc - kk], c[kk])
  }

  /** How far the two entries are from the cosine and sine of one angle, halved. */
  function Defect(c: seq<real>, nc: nat, h: nat, p: nat): real
    requires 0 < p < h <= nc <= |c|
  {
    TableIndex(nc, h, p);
    var kk := p * TableStep(nc, h);
    2.0 * (0.25 - c[nc - kk] * c[nc - kk] - c[kk] * c[kk])
  }

  /** Pair p and its mirror image in t are those of s after the split step with weight w. */
  ghost predicate PairSplit(s: seq<real>, t: seq<real>, w: Complex, h: nat, p: nat)
    requires 0 < p < h && 4 * h <= |s| == |t|
  {
    var y := Times(w, Difference(s, h, p));
    At(t, p) == Minus(At(s, p), y) && At(t, 2 * h - p) == Plus(At(s, 2 * h - p), Conj(y))
  }

  /** The same for the merge step. */
  ghost predicate PairMerged(s: seq<real>, t: seq<real>, w: Complex, h: nat, p: nat)
    requires 0 < p < h && 4 * h <= |s| == |t|
  {
    var y := Times(Conj(w), Difference(s, h, p));
    At(t, p) == Conj(Minus(At(s, p), y)) && At(t, 2 * h - p) == Conj(Plus(At(s, 2 * h - p), Conj(y)))
  }

  /** t is s after the split stage, for the pairs before done and their mirror images. */
  ghost predicate IsSplit(s: seq<real>, t: seq<real>, c: seq<real>, nc: nat, h: nat, done: nat)
    requires 0 < done <= h <= nc <= |c| && 4 * h <= |s|
  {
    && |t| == |s|
    && (forall p: nat :: 0 < p < done ==> PairSplit(s, t, Weight(c, nc, h, p), h, p))
    && (forall p: nat :: p == 0 || done <= p <= 2 * h - done ==> p < 2 * h ==> At(t, p) == At(s, p))
    && (forall i :: 4 * h <= i < |s| ==> t[i] == s[i])
  }

  /** t is s after the merge stage, for the pairs before done and their mirror images. */
  ghost predicate IsMerging(s: seq<real>, t: seq<real>, c: seq<real>, nc: nat, h: nat, done: nat)
    requires 0 < done <= h <= nc <= |c| && 4 * h <= |s|
  {
    && |t| == |s|
    && (forall p: nat :: 0 < p < done ==> PairMerged(s, t, Weight(c, nc, h, p), h, p))
    && At(t, 0) == Conj(At(s, 0))
    && (forall p: nat :: 0 < done <= p <= 2 * h - done ==> p < 2 * h ==> At(t, p) == At(s, p))
    && (forall i :: 4 * h <= i < |s| ==> t[i] == s[i])
  }

  /** t is s after the merge stage. */
  ghost predicate IsMerged(s: seq<real>, t: seq<real>, c: seq<real>, nc: nat, h: nat)
    requires 0 < h <= nc <= |c| && 4 * h <= |s|
  {
    && |t| == |s|
    && (forall p: nat :: 0 < p < h ==> PairMerged(s, t, Weight(c, nc, h, p), h, p))
    && At(t, 0) == Conj(At(s, 0)) && At(t, h) == Conj(At(s, h))
    && (forall i :: 4 * h <= i < |s| ==> t[i] == s[i])
  }

  /** Merging after splitting, at one pair: what is left is its conjugate, up to the defect of the table. */
  lemma PairComesBack(a: Complex, b: Complex, w: Complex, d: real)
    requires d == 2.0 * (w.re - w.re * w.re - w.im * w.im)
    ensures var x := Minus(a, Conj(b));
      var y := Times(w, x);
      var a1, b1 := Minus(a, y), Plus(b, Conj(y));
      var y1 := Times(Conj(w), Minus(a1, Conj(b1)));
      && Conj(Minus(a1, y1)) == Conj(Minus(a, Scaled(d, x)))
      && Conj(Plus(b1, Conj(y1))) == Conj(Plus(b, Conj(Scaled(d, x))))
  {
    var x := Minus(a, Conj(b));
    var y := Times(w, x);
    var a1, b1 := Minus(a, y), Plus(b, Conj(y));
    var x1 := Minus(a1, Conj(b1));
    assert x1.re == x.re - 2.0 * y.re && x1.im == x.im - 2.0 * y.im;
    var y1 := Times(Conj(w), x1);
    Cancels(w.re, w.im, x.re, x.im, d);
    assert y.re + y1.re == d * x.re && y.im + y1.im == d * x.im;
  }

  lemma Cancels(p: real, q: real, u: real, v: real, d: real)
    requires d == 2.0 * (p - p * p - q * q)
    ensures var yr, yi := p * u - q * v, p * v + q * u;
      && yr + (p * (u - 2.0 * yr) + q * (v - 2.0 * yi)) == d * u
      && yi + (p * (v - 2.0 * yi) - q * (u - 2.0 * yr)) == d * v
  {
  }

  lemma PairResult(s: seq<real>, t: seq<real>, u: seq<real>, c: seq<real>, nc: nat, h: nat, p: nat)
    requires 0 < p < h <= nc <= |c| && 4 * h <= |s|
    requires IsSplit(s, t, c, nc, h, h) && IsMerged(t, u, c, nc, h)
    ensures var rest := Scaled(Defect(c, nc, h, p), Difference(s, h, p));
      && At(u, p) == Conj(Minus(At(s, p), rest))
      && At(u, 2 * h - p) == Conj(Plus(At(s, 2 * h - p), Conj(rest)))
  {
    hide Minus, Plus, Times, Conj, At, TableStep;
    TableIndex(nc, h, p);
    PairComesBack(At(s, p), At(s, 2 * h - p), Weight(c, nc, h, p), Defect(c, nc, h, p));
  }

  lemma RestVanishes(z: Complex, d: real, x: Complex)
    ensures Conj(Minus(z, Scaled(d, x))) == Conj(z) <==> d == 0.0 || x == Complex(0.0, 0.0)
    ensures d == 0.0 || x == Complex(0.0, 0.0) ==> Conj(Plus(z, Conj(Scaled(d, x)))) == Conj(z)
  {
    Product(d, x.re);
    Product(d, x.im);
  }

  lemma Product(a: real, b: real)
    ensures a * b == 0.0 <==> a == 0.0 || b == 0.0
  {
    if a != 0.0 && b != 0.0 {
      assert a * b / b == a;
    }
  }

  /** Split then merge leaves every pair conjugated exactly when, pair by pair, the table's two entries are half the
      cosine and sine of one angle or the pair equals the conjugate of its mirror image. */
  lemma SplitThenMerge(s: seq<real>, t: seq<real>, u: seq<real>, c: seq<real>, nc: nat, h: nat)
    requires 0 < h <= nc <= |c| && 4 * h <= |s|
    requires IsSplit(s, t, c, nc, h, h) && IsMerged(t, u, c, nc, h)
    ensures (forall p: nat :: p < 2 * h ==> At(u, p) == Conj(At(s, p))) <==>
      (forall p: nat :: 0 < p < h ==> Defect(c, nc, h, p) == 0.0 || Difference(s, h, p) == Complex(0.0, 0.0))
    ensures forall i :: 4 * h <= i < |s| ==> u[i] == s[i]
  {
    hide Minus, Plus, Scaled, Defect, Difference, Conj, At;
    forall p: nat | 0 < p < h
      ensures At(u, p) == Conj(At(s, p)) <==> (Defect(c, nc, h, p) == 0.0 || Difference(s, h, p) == Complex(0.0, 0.0))
      ensures At(u, p) == Conj(At(s, p)) ==> At(u, 2 * h - p) == Conj(At(s, 2 * h - p))
    {
      PairResult(s, t, u, c, nc, h, p);
      RestVanishes(At(s, p), Defect(c, nc, h, p), Difference(s, h, p));
      RestVanishes(At(s, 2 * h - p), Defect(c, nc, h, p), Difference(s, h, p));
    }
    if forall p: nat :: 0 < p < h ==> Defect(c, nc, h, p) == 0.0 || Difference(s, h, p) == Complex(0.0, 0.0) {
      forall p: nat | p < 2 * h
        ensures At(u, p) == Conj(At(s, p))
      {
        if h < p {
          var mirror := 2 * h - p;
          assert At(u, mirror) == Conj(At(s, mirror));
        }
      }
    }
  }

  // ---------- The loops ----------

  /** Only the pairs p and 2h - p have changed. */
  ghost predicate OnlyPair(s: seq<real>, t: seq<real>, h: nat, p: nat)
    requires 0 < p < h && 4 * h <= |s|
  {
    && |t| == |s|
    && (forall i: nat :: i < 2 * h && i != p && i != 2 * h - p ==> At(t, i) == At(s, i))
    && (forall i :: 4 * h <= i < |s| ==> t[i] == s[i])
  }

  /** Writes a pair and its mirror image. */
  method StorePair(a: array<real>, j: nat, k: nat, front: Complex, back: Complex, ghost h: nat, ghost p: nat)
    requires 0 < p < h && 4 * h <= a.Length && j == 2 * p && k == 4 * h - j
    modifies a
    ensures OnlyPair(old(a[..]), a[..], h, p)
    ensures At(a[..], p) == front && At(a[..], 2 * h - p) == back
  {
    a[j] := front.re;
    a[j + 1] := front.im;
    a[k] := back.re;
    a[k + 1] := back.im;
  }

  /** Body of the loop of rftfsub. */
  method SplitPair(a: array<real>, j: nat, k: nat, wkr: real, wki: real, ghost h: nat, ghost p: nat)
    requires 0 < p < h && 4 * h <= a.Length && j == 2 * p && k == 4 * h - j
    modifies a
    ensures OnlyPair(old(a[..]), a[..], h, p)
    ensures PairSplit(old(a[..]), a[..], Complex(wkr, wki), h, p)
  {
    hide OnlyPair;
    var xr := a[j] - a[k];
    var xi := a[j + 1] + a[k + 1];
    var yr := wkr * xr - wki * xi;
    var yi := wkr * xi + wki * xr;
    ghost var s := a[..];
    assert Difference(s, h, p) == Complex(xr, xi);
    assert Times(Complex(wkr, wki), Complex(xr, xi)) == Complex(yr, yi);
    var front, back := Complex(a[j] - yr, a[j + 1] - yi), Complex(a[k] + yr, a[k + 1] - yi);
    assert front == Minus(At(s, p), Complex(yr, yi));
    assert back == Plus(At(s, 2 * h - p), Conj(Complex(yr, yi)));
    StorePair(a, j, k, front, back, h, p);
  }

  lemma ConjTimes(a: real, b: real, u: real, v: real)
    ensures Times(Conj(Complex(a, b)), Complex(u, v)) == Complex(a * u + b * v, a * v - b * u)
  {
    assert (-b) * v == -(b * v) && (-b) * u == -(b * u);
  }

  /** Body of the loop of rftbsub. */
  method MergePair(a: array<real>, j: nat, k: nat, wkr: real, wki: real, ghost h: nat, ghost p: nat)
    requires 0 < p < h && 4 * h <= a.Length && j == 2 * p && k == 4 * h - j
    modifies a
    ensures OnlyPair(old(a[..]), a[..], h, p)
    ensures PairMerged(old(a[..]), a[..], Complex(wkr, wki), h, p)
  {
    hide OnlyPair, Times;
    var xr := a[j] - a[k];
    var xi := a[j + 1] + a[k + 1];
    var yr := wkr * xr + wki * xi;
    var yi := wkr * xi - wki * xr;
    ghost var s := a[..];
    assert Difference(s, h, p) == Complex(xr, xi);
    ConjTimes(wkr, wki, xr, xi);
    var front, back := Complex(a[j] - yr, yi - a[j + 1]), Complex(a[k] + yr, yi - a[k + 1]);
    assert front == Conj(Minus(At(s, p), Complex(yr, yi)));
    assert back == Conj(Plus(At(s, 2 * h - p), Conj(Complex(yr, yi))));
    StorePair(a, j, k, front, back, h, p);
  }

  /** p table steps. */
  ghost function Index(nc: nat, h: nat, p: nat): nat
    requires h > 0
  {
    p * TableStep(nc, h)
  }

  lemma NextIndex(c: seq<real>, nc: nat, h: nat, p: nat)
    requires 0 < p < h <= nc <= |c|
    ensures Index(nc, h, p) == Index(nc, h, p - 1) + TableStep(nc, h)
    ensures 0 < Index(nc, h, p) < nc
    ensures Weight(c, nc, h, p) == Complex(0.5 - c[nc - Index(nc, h, p)], c[Index(nc, h, p)])
  {
    TableIndex(nc, h, p);
  }

  lemma FirstIndex(nc: nat, h: nat)
    requires h > 0
    ensures Index(nc, h, 0) == 0 && 2 * nc / (2 * h) == TableStep(nc, h)
  {
    StepBounds(nc, h);
  }

  method Rftfsub(n: nat, a: array<real>, nc: nat, c: array<real>, ghost h: nat)
    requires n == 4 * h && 0 < h <= nc <= c.Length && n <= a.Length && a != c
    modifies a
    ensures IsSplit(old(a[..]), a[..], c[..], nc, h, h)
  {
    hide Minus, Plus, Times, Conj, At, TableStep, Index, Weight, Difference;
    ghost var s, cs := a[..], c[..];
    FirstIndex(nc, h);
    var m := n / 2;
    var ks := 2 * nc / m;
    var kk := 0;
    var j := 2;
    ghost var p := 1;
    while j < m
      invariant p <= h && j == 2 * p && kk == Index(nc, h, p - 1)
      invariant IsSplit(s, a[..], cs, nc, h, p)
    {
      var k := n - j;
      kk := kk + ks;
      NextIndex(cs, nc, h, p);
      var wkr := 0.5 - c[nc - kk];
      var wki := c[kk];
      ghost var t := a[..];
      SplitPair(a, j, k, wkr, wki, h, p);
      SplitStep(s, t, a[..], cs, nc, h, p);
      p := p + 1;
      j := j + 2;
    }
  }

  lemma SplitStep(s: seq<real>, t: seq<real>, u: seq<real>, c: seq<real>, nc: nat, h: nat, p: nat)
    requires 0 < p < h <= nc <= |c| && 4 * h <= |s|
    requires IsSplit(s, t, c, nc, h, p) && OnlyPair(t, u, h, p) && PairSplit(t, u, Weight(c, nc, h, p), h, p)
    ensures IsSplit(s, u, c, nc, h, p + 1)
  {
    hide Minus, Plus, Times, Conj, At, TableStep, Weight;
    forall r: nat | 0 < r < p + 1
      ensures PairSplit(s, u, Weight(c, nc, h, r), h, r)
    {
      if r < p {
        assert PairSplit(s, t, Weight(c, nc, h, r), h, r);
      } else {
        assert Difference(t, h, p) == Difference(s, h, p);
      }
    }
  }

  lemma MergeStep(s: seq<real>, t: seq<real>, u: seq<real>, c: seq<real>, nc: nat, h: nat, p: nat)
    requires 0 < p < h <= nc <= |c| && 4 * h <= |s|
    requires IsMerging(s, t, c, nc, h, p) && OnlyPair(t, u, h, p) && PairMerged(t, u, Weight(c, nc, h, p), h, p)
    ensures IsMerging(s, u, c, nc, h, p + 1)
  {
    hide Minus, Plus, Times, Conj, At, TableStep, Weight;
    forall r: nat | 0 < r < p + 1
      ensures PairMerged(s, u, Weight(c, nc, h, r), h, r)
    {
      if r < p {
        assert PairMerged(s, t, Weight(c, nc, h, r), h, r);
      } else {
        assert Difference(t, h, p) == Difference(s, h, p);
      }
    }
    assert At(u, 0) == At(t, 0);
  }

  method Rftbsub(n: nat, a: array<real>, nc: nat, c: array<real>, ghost h: nat)
    requires n == 4 * h && 0 < h <= nc <= c.Length && n <= a.Length && a != c
    modifies a
    ensures IsMerged(old(a[..]), a[..], c[..], nc, h)
  {
    ghost var s, cs := a[..], c[..];
    a[1] := -a[1];
    MergeBegins(s, a[..], cs, nc, h);
    hide Minus, Plus, Times, Conj, At, TableStep, Index, Weight, Difference;
    hide IsMerging, IsMerged;
    FirstIndex(nc, h);
    var m := n / 2;
    var ks := 2 * nc / m;
    var kk := 0;
    var j := 2;
    ghost var p := 1;
    while j < m
      invariant p <= h && j == 2 * p && kk == Index(nc, h, p - 1)
      invariant IsMerging(s, a[..], cs, nc, h, p)
    {
      var k := n - j;
      kk := kk + ks;
      NextIndex(cs, nc, h, p);
      var wkr := 0.5 - c[nc - kk];
      var wki := c[kk];
      ghost var t := a[..];
      MergePair(a, j, k, wkr, wki, h, p);
      MergeStep(s, t, a[..], cs, nc, h, p);
      p := p + 1;
      j := j + 2;
    }
    ghost var t := a[..];
    a[m + 1] := -a[m + 1];
    MergeEnds(s, t, a[..], cs, nc, h);
  }

  lemma MergeBegins(s: seq<real>, t: seq<real>, c: seq<real>, nc: nat, h: nat)
    requires 0 < h <= nc <= |c| && 4 * h <= |s| && t == s[1 := -s[1]]
    ensures IsMerging(s, t, c, nc, h, 1)
  {
  }

  lemma MergeEnds(s: seq<real>, t: seq<real>, u: seq<real>, c: seq<real>, nc: nat, h: nat)
    requires 0 < h <= nc <= |c| && 4 * h <= |s| && IsMerging(s, t, c, nc, h, h)
    requires |t| == |s| && u == t[2 * h + 1 := -t[2 * h + 1]]
    ensures IsMerged(s, u, c, nc, h)
  {
    hide Minus, Plus, Times, TableStep, Weight, Difference;
    assert At(t, h) == At(s, h);
    assert At(u, h) == Conj(At(t, h));
    assert At(u, 0) == At(t, 0);
    forall p: nat | 0 < p < h
      ensures PairMerged(s, u, Weight(c, nc, h, p), h, p)
    {
      assert PairMerged(s, t, Weight(c, nc, h, p), h, p);
      assert At(u, p) == At(t, p) && At(u, 2 * h - p) == At(t, 2 * h - p);
    }
  }
}
