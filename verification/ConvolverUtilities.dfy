/** Buffers and the small loops of fft_consolver/Utilities. */
module ConvolverUtilities {
  import opened Convolution
  import opened PowersOfTwo
  import opened Spectra

  /** r is the smallest power of two that is at least v. */
  ghost predicate RoundedUp(v: nat, r: nat) {
    v <= r && (exists k :: r == Pow2(k)) && forall k :: v <= Pow2(k) ==> r <= Pow2(k)
  }

  lemma RoundedUpPositive(v: nat, r: nat)
    requires RoundedUp(v, r)
    ensures v <= r && r > 0
  {
  }

  /** Least power of two that is not below val. */
  method NextPowerOf2(val: nat) returns (r: nat)
    ensures RoundedUp(val, r)
  {
    r := 1;
    ghost var k := 0;
    while r < val
      invariant r == Pow2(k)
      invariant forall j :: val <= Pow2(j) ==> r <= Pow2(j)
      decreases val - r
    {
      forall j | val <= Pow2(j)
        ensures 2 * r <= Pow2(j)
      {
        if j <= k {
          Pow2Monotone(j, k);
        } else {
          Pow2Monotone(k + 1, j);
        }
      }
      r := 2 * r;
      k := k + 1;
    }
  }

  /** result[r..r+len] = a[p..p+len] + b[q..q+len], four samples at a time and then the rest. */
  method Sum(result: array<real>, r: nat, a: array<real>, p: nat, b: array<real>, q: nat, len: nat)
    requires result !in {a, b}
    requires r + len <= result.Length && p + len <= a.Length && q + len <= b.Length
    modifies result
    ensures result[..] == Overwritten(old(result[..]), r, AddSamples(a[p..p + len], b[q..q + len]))
  {
    ghost var before, x, y := result[..], a[p..p + len], b[q..q + len];
    SumBegins(before, r, x, y);
    hide SumDone;
    var end4 := 4 * (len / 4);
    var i := 0;
    ghost var groups := 0;
    while i < end4
      invariant i == 4 * groups && groups <= len / 4
      invariant SumDone(result[..], before, r, x, y, i)
    {
      SumOne(result, r, a, p, b, q, len, i, before);
      SumOne(result, r, a, p, b, q, len, i + 1, before);
      SumOne(result, r, a, p, b, q, len, i + 2, before);
      SumOne(result, r, a, p, b, q, len, i + 3, before);
      i := i + 4;
      groups := groups + 1;
    }
    while i < len
      invariant i <= len
      invariant SumDone(result[..], before, r, x, y, i)
    {
      SumOne(result, r, a, p, b, q, len, i, before);
      i := i + 1;
    }
    SumEnds(result[..], before, r, x, y);
  }

  /** One sample of the sum. */
  method SumOne(result: array<real>, r: nat, a: array<real>, p: nat, b: array<real>, q: nat, len: nat, i: nat,
                ghost before: seq<real>)
    requires result !in {a, b} && i < len
    requires r + len <= result.Length && p + len <= a.Length && q + len <= b.Length
    requires SumDone(result[..], before, r, a[p..p + len], b[q..q + len], i)
    modifies result
    ensures SumDone(result[..], before, r, a[p..p + len], b[q..q + len], i + 1)
  {
    result[r + i] := a[p + i] + b[q + i];
  }

  lemma SumBegins(before: seq<real>, r: nat, a: seq<real>, b: seq<real>)
    requires |a| == |b|
    ensures SumDone(before, before, r, a, b, 0)
  {
  }

  lemma SumEnds(now: seq<real>, before: seq<real>, r: nat, a: seq<real>, b: seq<real>)
    requires |a| == |b| && r + |a| <= |before| && SumDone(now, before, r, a, b, |a|)
    ensures now == Overwritten(before, r, AddSamples(a, b))
  {
  }

  /** The first n sums are in place and nothing else has changed. */
  ghost predicate SumDone(now: seq<real>, before: seq<real>, r: nat, a: seq<real>, b: seq<real>, n: nat)
    requires |a| == |b| && n <= |a|
  {
    |now| == |before| && forall k :: 0 <= k < |now| ==>
      now[k] == if r <= k < r + n then a[k - r] + b[k - r] else before[k]
  }

  /** s with t in place of the samples from r on. */
  function Overwritten(s: seq<real>, r: nat, t: seq<real>): (u: seq<real>)
    requires r + |t| <= |s|
    ensures |u| == |s|
    ensures forall k :: 0 <= k < |s| ==> u[k] == if r <= k < r + |t| then t[k - r] else s[k]
  {
    s[..r] + t + s[r + |t|..]
  }

  /** memcpy between sample buffers */
  method CopySamples(dest: array<real>, d: nat, src: array<real>, s: nat, len: nat)
    requires d + len <= dest.Length && s + len <= src.Length && dest != src
    modifies dest
    ensures dest[..] == Overwritten(old(dest[..]), d, src[s..s + len])
  {
    forall k | d <= k < d + len {
      dest[k] := src[s + (k - d)];
    }
  }

  method SetZero(a: array<real>)
    modifies a
    ensures a[..] == Zeros(a.Length)
  {
    forall k | 0 <= k < a.Length {
      a[k] := 0.0;
    }
  }

  /** Copies src[s..s+size] to the front of dest and zeros behind it. */
  method CopyAndPad(dest: array<real>, src: array<real>, s: nat, size: nat)
    requires size <= dest.Length && s + size <= src.Length && dest != src
    modifies dest
    ensures dest[..] == PadTo(src[s..s + size], dest.Length)
  {
    forall k | 0 <= k < dest.Length {
      dest[k] := if k < size then src[s + k] else 0.0;
    }
  }

  /** Split-complex buffer of one spectrum. */
  class SplitComplex {
    const re: array<real>
    const im: array<real>

    constructor (size: nat)
      ensures re.Length == im.Length == size && re != im && fresh(re) && fresh(im)
      ensures Value() == Silence(size)
    {
      re := new real[size](_ => 0.0);
      im := new real[size](_ => 0.0);
      new;
      assert re[..] == Zeros(size) && im[..] == Zeros(size);
    }

    ghost function Value(): (s: Spectrum)
      reads re, im
    {
      Spectrum(re[..], im[..])
    }

    ghost predicate Holds(size: nat) {
      re.Length == im.Length == size && re != im
    }

    ghost predicate ApartFrom(that: SplitComplex) {
      re != that.re && re != that.im && im != that.re && im != that.im
    }

    method Clear()
      requires re != im
      modifies re, im
      ensures Value() == Spectrum(Zeros(re.Length), Zeros(im.Length))
    {
      SetZero(re);
      SetZero(im);
    }

    method CopyFrom(that: SplitComplex)
      requires Holds(re.Length) && that.Holds(re.Length) && ApartFrom(that)
      modifies re, im
      ensures Value() == that.Value()
    {
      CopySamples(re, 0, that.re, 0, re.Length);
      assert re[..] == that.re[..];
      CopySamples(im, 0, that.im, 0, im.Length);
      assert im[..] == that.im[..];
    }
  }

  /** Writes a spectrum that the transform computed. */
  method StoreSpectrum(dest: SplitComplex, ghost value: Spectrum, re: seq<real>, im: seq<real>)
    requires dest.Holds(|re|) && |im| == |re| && value == Spectrum(re, im)
    modifies dest.re, dest.im
    ensures dest.Value() == value
  {
    forall k | 0 <= k < |re| {
      dest.re[k] := re[k];
    }
    forall k | 0 <= k < |im| {
      dest.im[k] := im[k];
    }
    assert dest.re[..] == re && dest.im[..] == im;
  }

  ghost function Accumulated(r: Spectrum, p: Spectrum, n: nat): (s: Spectrum)
    requires Sized(r, |r.re|) && Sized(p, |r.re|) && n <= |r.re|
  {
    Spectrum(seq(|r.re|, i requires 0 <= i < |r.re| => if i < n then r.re[i] + p.re[i] else r.re[i]),
             seq(|r.re|, i requires 0 <= i < |r.re| => if i < n then r.im[i] + p.im[i] else r.im[i]))
  }

  /** One bin of the running product sum. */
  method AccumulateBin(result: SplitComplex, a: SplitComplex, b: SplitComplex, i: nat,
                       ghost before: Spectrum, ghost product: Spectrum)
    requires result.Holds(result.re.Length) && a.Holds(result.re.Length) && b.Holds(result.re.Length)
    requires result.ApartFrom(a) && result.ApartFrom(b)
    requires i < result.re.Length && Sized(before, result.re.Length)
    requires product == Mul(a.Value(), b.Value()) && result.Value() == Accumulated(before, product, i)
    modifies result.re, result.im
    ensures product == Mul(a.Value(), b.Value()) && result.Value() == Accumulated(before, product, i + 1)
  {
    ghost var was := result.Value();
    assert was.re[i] == before.re[i] && was.im[i] == before.im[i];
    var re := a.re[i] * b.re[i] - a.im[i] * b.im[i];
    var im := a.re[i] * b.im[i] + a.im[i] * b.re[i];
    assert re == product.re[i] && im == product.im[i];
    result.re[i] := result.re[i] + re;
    result.im[i] := result.im[i] + im;
    assert a.Value() == old(a.Value()) && b.Value() == old(b.Value());
    AccumulatedStep(before, product, i);
    assert result.re[..] == was.re[i := was.re[i] + re];
    assert result.im[..] == was.im[i := was.im[i] + im];
  }

  lemma AccumulatedStep(r: Spectrum, p: Spectrum, i: nat)
    requires Sized(r, |r.re|) && Sized(p, |r.re|) && i < |r.re|
    ensures var was := Accumulated(r, p, i);
      Accumulated(r, p, i + 1) == Spectrum(was.re[i := r.re[i] + p.re[i]], was.im[i := r.im[i] + p.im[i]])
  {
  }

  /** Adds the product of a and b to result, bin by bin, four at a time and then the rest. */
  method ComplexMultiplyAccumulate(result: SplitComplex, a: SplitComplex, b: SplitComplex)
    requires result.Holds(result.re.Length) && a.Holds(result.re.Length) && b.Holds(result.re.Length)
    requires result.ApartFrom(a) && result.ApartFrom(b)
    modifies result.re, result.im
    ensures result.Value() == Add(old(result.Value()), Mul(a.Value(), b.Value()))
  {
    ghost var before, product := result.Value(), Mul(a.Value(), b.Value());
    AccumulatedEnds(before, product);
    hide Accumulated, Mul, Add, SplitComplex.Value, Sized;
    var len, quarters := result.re.Length, result.re.Length / 4;
    var end4 := 4 * quarters;
    var i := 0;
    ghost var groups := 0;
    while i < end4
      invariant i == 4 * groups && groups <= quarters
      invariant product == Mul(a.Value(), b.Value()) && result.Value() == Accumulated(before, product, i)
    {
      AccumulateFour(result, a, b, i, before, product);
      i := i + 4;
      groups := groups + 1;
    }
    while i < len
      invariant i <= len
      invariant product == Mul(a.Value(), b.Value()) && result.Value() == Accumulated(before, product, i)
    {
      AccumulateBin(result, a, b, i, before, product);
      i := i + 1;
    }
  }

  /** Four bins, one after the other. */
  method AccumulateFour(result: SplitComplex, a: SplitComplex, b: SplitComplex, i: nat,
                        ghost before: Spectrum, ghost product: Spectrum)
    requires result.Holds(result.re.Length) && a.Holds(result.re.Length) && b.Holds(result.re.Length)
    requires result.ApartFrom(a) && result.ApartFrom(b)
    requires i + 4 <= result.re.Length && Sized(before, result.re.Length)
    requires product == Mul(a.Value(), b.Value()) && result.Value() == Accumulated(before, product, i)
    modifies result.re, result.im
    ensures product == Mul(a.Value(), b.Value()) && result.Value() == Accumulated(before, product, i + 4)
  {
    hide Accumulated, Mul, SplitComplex.Value, Sized;
    AccumulateBin(result, a, b, i, before, product);
    AccumulateBin(result, a, b, i + 1, before, product);
    AccumulateBin(result, a, b, i + 2, before, product);
    AccumulateBin(result, a, b, i + 3, before, product);
  }

  lemma AccumulatedEnds(r: Spectrum, p: Spectrum)
    requires Sized(r, |r.re|) && Sized(p, |r.re|)
    ensures Accumulated(r, p, 0) == r
    ensures Accumulated(r, p, |r.re|) == Add(r, p)
  {
    assert Accumulated(r, p, 0).re == r.re && Accumulated(r, p, 0).im == r.im;
  }
}
