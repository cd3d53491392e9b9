/** Half spectra of real signals, and what the convolvers need from a Fourier transform. */
module Spectra {
  import opened Convolution

  datatype Spectrum = Spectrum(re: seq<real>, im: seq<real>)

  predicate Sized(s: Spectrum, n: nat) {
    |s.re| == n && |s.im| == n
  }

  function Silence(n: nat): (s: Spectrum)
    ensures Sized(s, n)
  {
    Spectrum(Zeros(n), Zeros(n))
  }

  function Add(a: Spectrum, b: Spectrum): (s: Spectrum)
    requires Sized(a, |a.re|) && Sized(b, |a.re|)
    ensures Sized(s, |a.re|)
  {
    Spectrum(seq(|a.re|, i requires 0 <= i < |a.re| => a.re[i] + b.re[i]),
             seq(|a.re|, i requires 0 <= i < |a.re| => a.im[i] + b.im[i]))
  }

  /** Product bin by bin. */
  function Mul(a: Spectrum, b: Spectrum): (s: Spectrum)
    requires Sized(a, |a.re|) && Sized(b, |a.re|)
    ensures Sized(s, |a.re|)
  {
    Spectrum(seq(|a.re|, i requires 0 <= i < |a.re| => a.re[i] * b.re[i] - a.im[i] * b.im[i]),
             seq(|a.re|, i requires 0 <= i < |a.re| => a.re[i] * b.im[i] + a.im[i] * b.re[i]))
  }

  lemma MulCommutes(a: Spectrum, b: Spectrum)
    requires Sized(a, |a.re|) && Sized(b, |a.re|)
    ensures Mul(a, b) == Mul(b, a)
  {
    forall i | 0 <= i < |a.re|
      ensures a.re[i] * b.re[i] - a.im[i] * b.im[i] == b.re[i] * a.re[i] - b.im[i] * a.im[i]
      ensures a.re[i] * b.im[i] + a.im[i] * b.re[i] == b.re[i] * a.im[i] + b.im[i] * a.re[i]
    {
    }
  }

  function ComplexSize(size: nat): nat {
    size / 2 + 1
  }

  function AddSamples(a: seq<real>, b: seq<real>): (s: seq<real>)
    requires |a| == |b|
    ensures |s| == |a| && forall i :: 0 <= i < |s| ==> s[i] == a[i] + b[i]
  {
    seq(|a|, i requires 0 <= i < |a| => a[i] + b[i])
  }

  /** A transform pair for one size. */
  datatype Transform = Transform(fft: seq<real> -> Spectrum, ifft: Spectrum -> seq<real>)

  /** The inverse is additive, and products of spectra are circular convolutions. */
  ghost predicate ConvolutionTheorem(t: Transform, n: nat) {
    && (forall x :: |x| == n ==> Sized(t.fft(x), ComplexSize(n)))
    && t.fft(Zeros(n)) == Silence(ComplexSize(n))
    && (forall s :: Sized(s, ComplexSize(n)) ==> |t.ifft(s)| == n)
    && t.ifft(Silence(ComplexSize(n))) == Zeros(n)
    && (forall a, b :: Sized(a, ComplexSize(n)) && Sized(b, ComplexSize(n)) ==>
          t.ifft(Add(a, b)) == AddSamples(t.ifft(a), t.ifft(b)))
    && (forall x, y :: |x| == n && |y| == n ==> t.ifft(Mul(t.fft(x), t.fft(y))) == Circular(x, y))
  }
}
