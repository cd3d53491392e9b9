/** The uniformly partitioned convolver of fft_consolver/FFTConvolver. */
module FFTConvolvers {
  import opened Convolution
  import opened ConvolverUtilities
  import opened PowersOfTwo
  import opened Spectra

  // ---------- Spectra of the parts and blocks, and of their product sums ----------

  ghost function PartSpectrum(t: Transform, h: seq<real>, b: nat, i: nat): Spectrum {
    t.fft(PadTo(Part(h, i, b), 2 * b))
  }

  ghost function BlockSpectrum(t: Transform, x: seq<real>, b: nat, start: int): Spectrum {
    t.fft(PadTo(Block(x, start, b), 2 * b))
  }

  /** Sum over parts i in [lo, hi) of part i times the block i blocks before start. */
  ghost function ProductSum(t: Transform, h: seq<real>, x: seq<real>, b: nat, start: int, lo: nat,
                            hi: nat): (s: Spectrum)
    requires ConvolutionTheorem(t, 2 * b) && lo <= hi
    ensures Sized(s, ComplexSize(2 * b))
    decreases hi
  {
    if lo == hi then Silence(ComplexSize(2 * b)) else
      Add(ProductSum(t, h, x, b, start, lo, hi - 1),
          Mul(PartSpectrum(t, h, b, hi - 1), BlockSpectrum(t, x, b, Back(start, hi - 1, b))))
  }

  lemma NoProducts(t: Transform, h: seq<real>, x: seq<real>, b: nat, start: int)
    requires ConvolutionTheorem(t, 2 * b)
    ensures ProductSum(t, h, x, b, start, 1, 1) == Silence(ComplexSize(2 * b))
  {
  }

  lemma ProductNext(t: Transform, h: seq<real>, x: seq<real>, b: nat, start: int, i: nat)
    requires ConvolutionTheorem(t, 2 * b) && i >= 1
    ensures Sized(PartSpectrum(t, h, b, i), ComplexSize(2 * b))
    ensures Sized(BlockSpectrum(t, x, b, Back(start, i, b)), ComplexSize(2 * b))
    ensures ProductSum(t, h, x, b, start, 1, i + 1) ==
      Add(ProductSum(t, h, x, b, start, 1, i), Mul(PartSpectrum(t, h, b, i), BlockSpectrum(t, x, b, Back(start, i, b))))
  {
  }

  lemma ProductAt(t: Transform, h: seq<real>, x: seq<real>, b: nat, i: nat, start: int, q: nat)
    requires ConvolutionTheorem(t, 2 * b) && q < 2 * b
    ensures t.ifft(Mul(PartSpectrum(t, h, b, i), BlockSpectrum(t, x, b, start)))[q]
      == Conv(Part(h, i, b), Block(x, start, b), q)
  {
    CircularOfPads(Part(h, i, b), Block(x, start, b), q);
  }

  lemma IfftOfSum(t: Transform, a: Spectrum, b: Spectrum, n: nat, q: nat)
    requires ConvolutionTheorem(t, n) && Sized(a, ComplexSize(n)) && Sized(b, ComplexSize(n)) && q < n
    ensures |t.ifft(a)| == |t.ifft(b)| == |t.ifft(Add(a, b))| == n
    ensures t.ifft(Add(a, b))[q] == t.ifft(a)[q] + t.ifft(b)[q]
  {
    assert t.ifft(Add(a, b)) == AddSamples(t.ifft(a), t.ifft(b));
  }

  /** Back in time, a product sum is the sum of the partial convolutions. */
  lemma {:induction false} IfftOfProductSum(t: Transform, h: seq<real>, x: seq<real>, b: nat, start: int,
                                            lo: nat, hi: nat, q: nat)
    requires ConvolutionTheorem(t, 2 * b) && lo <= hi && q < 2 * b
    ensures t.ifft(ProductSum(t, h, x, b, start, lo, hi))[q] == PartsSum(h, x, b, start, q, lo, hi)
  {
    hide Tiles, ConvolutionTheorem, Mul, Add;
    if lo < hi {
      IfftOfProductSum(t, h, x, b, start, lo, hi - 1, q);
      SpectraSized(t, h, x, b, hi - 1, Back(start, hi - 1, b));
      var before := ProductSum(t, h, x, b, start, lo, hi - 1);
      var product := Mul(PartSpectrum(t, h, b, hi - 1), BlockSpectrum(t, x, b, Back(start, hi - 1, b)));
      IfftOfSum(t, before, product, 2 * b, q);
      ProductAt(t, h, x, b, hi - 1, Back(start, hi - 1, b), q);
    } else {
      IfftOfSilence(t, 2 * b, q);
    }
  }

  lemma IfftOfSilence(t: Transform, n: nat, q: nat)
    requires ConvolutionTheorem(t, n) && q < n
    ensures |t.ifft(Silence(ComplexSize(n)))| == n && t.ifft(Silence(ComplexSize(n)))[q] == 0.0
  {
  }

  lemma SpectraSized(t: Transform, h: seq<real>, x: seq<real>, b: nat, i: nat, start: int)
    requires ConvolutionTheorem(t, 2 * b)
    ensures Sized(PartSpectrum(t, h, b, i), ComplexSize(2 * b))
    ensures Sized(BlockSpectrum(t, x, b, start), ComplexSize(2 * b))
  {
  }

  lemma {:induction false} PartsSumFirst(h: seq<real>, x: seq<real>, b: nat, start: int, q: int, s: nat)
    requires s > 0
    ensures PartsSum(h, x, b, start, q, 0, s) ==
      PartsSum(h, x, b, start, q, 1, s) + Conv(Part(h, 0, b), Block(x, start, b), q)
  {
    if s > 1 {
      PartsSumFirst(h, x, b, start, q, s - 1);
    } else {
      assert PartsSum(h, x, b, start, q, 0, 0) == 0.0;
      BackSteps(start, 0, b);
    }
  }

  /** What process computes for one block: the cached sum plus the newest block times the first part. */
  lemma BlockOutput(t: Transform, h: seq<real>, x: seq<real>, b: nat, start: int, s: nat, q: nat)
    requires ConvolutionTheorem(t, 2 * b) && s > 0 && q < 2 * b
    ensures var conv := Add(ProductSum(t, h, x, b, start, 1, s),
                            Mul(BlockSpectrum(t, x, b, start), PartSpectrum(t, h, b, 0)));
      |t.ifft(conv)| == 2 * b && t.ifft(conv)[q] == PartsSum(h, x, b, start, q, 0, s)
  {
    hide Mul, Add, ConvolutionTheorem, PartsSum, ProductSum, PartSpectrum, BlockSpectrum, Conv;
    SpectraSized(t, h, x, b, 0, start);
    MulCommutes(BlockSpectrum(t, x, b, start), PartSpectrum(t, h, b, 0));
    IfftOfProductSum(t, h, x, b, start, 1, s, q);
    IfftOfSum(t, ProductSum(t, h, x, b, start, 1, s),
              Mul(PartSpectrum(t, h, b, 0), BlockSpectrum(t, x, b, start)), 2 * b, q);
    ProductAt(t, h, x, b, 0, start, q);
    PartsSumFirst(h, x, b, start, q, s);
  }

  // ---------- The past does not change when the input goes on ----------

  lemma BlockStays(x: seq<real>, more: seq<real>, start: int, b: nat)
    requires start + b <= |x|
    ensures Block(x + more, start, b) == Block(x, start, b)
  {
    var u, v := Block(x + more, start, b), Block(x, start, b);
    forall q | 0 <= q < b
      ensures u[q] == v[q]
    {
      assert u[q] == At(x + more, start + q) && v[q] == At(x, start + q);
    }
  }

  lemma {:induction false} PartsSumStays(h: seq<real>, x: seq<real>, more: seq<real>, b: nat, start: int, q: int,
                                         s: nat)
    requires start + b <= |x|
    ensures PartsSum(h, x + more, b, start, q, 0, s) == PartsSum(h, x, b, start, q, 0, s)
  {
    if s > 0 {
      PartsSumStays(h, x, more, b, start, q, s - 1);
      BackSteps(start, s - 1, b);
      BlockStays(x, more, Back(start, s - 1, b), b);
    }
  }

  lemma {:induction false} ProductSumStays(t: Transform, h: seq<real>, x: seq<real>, more: seq<real>, b: nat,
                                           start: int, s: nat)
    requires ConvolutionTheorem(t, 2 * b) && s > 0 && start <= |x|
    ensures ProductSum(t, h, x + more, b, start, 1, s) == ProductSum(t, h, x, b, start, 1, s)
  {
    hide Tiles, ConvolutionTheorem, Mul, Add;
    if s > 1 {
      ProductSumStays(t, h, x, more, b, start, s - 1);
      BackSteps(start, s - 2, b);
      BlockStays(x, more, Back(start, s - 1, b), b);
    }
  }

  /** What the blocks before start still contribute q samples into the block at start. */
  function Carry(h: seq<real>, x: seq<real>, b: nat, start: int, s: nat, q: nat): real {
    PartsSum(h, x, b, start - b, b + q, 0, s)
  }

  /** One sample of the output: what the block at start contributes and what the blocks before it do. */
  lemma OutputSample(h: seq<real>, x: seq<real>, b: nat, start: int, p: nat, s: nat)
    requires b > 0 && p < b && Tiles(s, b, |h|)
    ensures PartsSum(h, x, b, start, p, 0, s) + Carry(h, x, b, start, s, p) == Conv(h, x, start + p)
  {
    PartitionedConv(h, x, b, start, p, s);
  }

  lemma BlockSpectrumStays(t: Transform, x: seq<real>, more: seq<real>, b: nat, start: int, i: nat)
    requires 1 <= i && start <= |x|
    ensures BlockSpectrum(t, x + more, b, Back(start, i, b)) == BlockSpectrum(t, x, b, Back(start, i, b))
  {
    BackSteps(start, i - 1, b);
    BackSteps(start - b, i - 1, b);
    BlockStays(x, more, Back(start, i, b), b);
  }

  // ---------- The ring of segments ----------

  /** (current + i) % count without the division. */
  function Ring(current: nat, i: nat, count: nat): (r: nat)
    requires current < count && i <= count
    ensures r < count
  {
    if current + i < count then current + i else current + i - count
  }

  lemma RingIsMod(current: nat, i: nat, count: nat)
    requires current < count && i <= count
    ensures (current + i) % count == Ring(current, i, count)
  {
    if current + i < count {
      DivModUnique(current + i, count, 0, current + i);
    } else {
      DivModUnique(current + i, count, 1, current + i - count);
    }
  }

  /** Samples below 1e-6 in magnitude at the end of a response do not count. */
  predicate NearZero(v: real) {
    -0.000001 < v < 0.000001
  }

  function Trimmed(h: seq<real>): (r: seq<real>)
    ensures r <= h && (r != [] ==> !NearZero(r[|r| - 1]))
    ensures forall i :: |r| <= i < |h| ==> NearZero(h[i])
  {
    if h == [] || !NearZero(h[|h| - 1]) then h else Trimmed(h[..|h| - 1])
  }

  /** Samples left after dropping the near-zero ones at the end. */
  method TrimmedLength(h: array<real>, first: nat, len: nat) returns (r: nat)
    requires first + len <= h.Length
    ensures r <= len && h[first..first + r] == Trimmed(h[first..first + len])
  {
    r := len;
    while r > 0 && NearZero(h[first + r - 1])
      invariant r <= len
      invariant Trimmed(h[first..first + r]) == Trimmed(h[first..first + len])
    {
      assert h[first..first + r][..r - 1] == h[first..first + r - 1];
      r := r - 1;
    }
  }

  /** ceil(len / b); the source rounds in single precision, which is exact up to 2^24 samples. */
  function CeilDiv(len: nat, b: nat): (r: nat)
    requires b > 0
    ensures len <= r * b < len + b && (len > 0 ==> r > 0)
  {
    CeilDivBounds(len, b);
    (len + b - 1) / b
  }

  lemma CeilDivBounds(len: nat, b: nat)
    requires b > 0
    ensures (len + b - 1) / b >= 0 && len <= (len + b - 1) / b * b < len + b
    ensures len > 0 ==> (len + b - 1) / b > 0
  {
    var q := (len + b - 1) / b;
    assert len + b - 1 == b * q + (len + b - 1) % b;
    assert b * q == q * b;
  }

  /** Silent spectra in buffers of their own. */
  method NewSpectra(count: nat, size: nat) returns (s: seq<SplitComplex>, ghost arrays: set<object>)
    ensures |s| == count && fresh(arrays)
    ensures forall i :: 0 <= i < count ==> s[i].re in arrays && s[i].im in arrays
    ensures forall i :: 0 <= i < count ==> s[i].Holds(size) && s[i].Value() == Silence(size)
    ensures forall i, k :: 0 <= i < k < count ==> s[i].ApartFrom(s[k])
  {
    s, arrays := [], {};
    var i := 0;
    while i < count
      invariant i <= count && |s| == i && fresh(arrays)
      invariant forall i :: 0 <= i < |s| ==> s[i].re in arrays && s[i].im in arrays
      invariant forall i :: 0 <= i < |s| ==> s[i].Holds(size) && s[i].Value() == Silence(size)
      invariant forall i, k :: 0 <= i < k < |s| ==> s[i].ApartFrom(s[k])
    {
      var next := new SplitComplex(size);
      s, arrays := s + [next], arrays + {next.re, next.im};
      i := i + 1;
    }
  }

  lemma SliceOfSlice(s: seq<real>, first: nat, len: nat, i: nat, n: nat)
    requires first + len <= |s| && i + n <= len
    ensures s[first + i..first + i + n] == s[first..first + len][i..i + n]
  {
    var u, v := s[first + i..first + i + n], s[first..first + len][i..i + n];
    assert forall k :: 0 <= k < n ==> u[k] == v[k];
  }

  lemma TheoremAtBlockSize(transforms: nat -> Transform, v: nat, b: nat)
    requires forall k :: k > 0 ==> ConvolutionTheorem(transforms(Pow2(k)), Pow2(k))
    requires RoundedUp(v, b)
    ensures ConvolutionTheorem(transforms(2 * b), 2 * b)
  {
    hide Tiles, ConvolutionTheorem;
    var k: nat :| b == Pow2(k);
    assert Pow2(k + 1) == 2 * b;
  }

  ghost function ArraysOf(s: seq<SplitComplex>): (r: set<object>)
    ensures forall i :: 0 <= i < |s| ==> s[i].re in r && s[i].im in r
  {
    (set i | 0 <= i < |s| :: s[i].re as object) + (set i | 0 <= i < |s| :: s[i].im as object)
  }

  lemma SilentBlock(start: int, b: nat)
    ensures Block([], start, b) == Zeros(b)
  {
    var silent := Block([], start, b);
    forall q | 0 <= q < b
      ensures silent[q] == 0.0
    {
      assert silent[q] == At([], start + q);
    }
  }

  lemma {:induction false} SilentPartsSum(h: seq<real>, b: nat, start: int, q: int, s: nat)
    ensures PartsSum(h, [], b, start, q, 0, s) == 0.0
  {
    if s > 0 {
      SilentPartsSum(h, b, start, q, s - 1);
      SilentBlock(Back(start, s - 1, b), b);
      PartialSumSilent(Part(h, s - 1, b), Zeros(b), q, b);
    }
  }

  lemma PartInside(h: seq<real>, b: nat, i: nat, count: nat)
    requires i < count && Tiles(count, b, |h|)
    ensures i * b <= |h|
  {
    var rest := count - 1 - i;
    assert count * b == i * b + b + rest * b;
    assert rest * b >= 0;
  }

  lemma PaddedPart(h: seq<real>, b: nat, i: nat, start: nat, size: nat)
    requires start == i * b <= |h| && size == if |h| - start >= b then b else |h| - start
    ensures PadTo(h[start..start + size], 2 * b) == PadTo(Part(h, i, b), 2 * b)
  {
    var part := Part(h, i, b);
    assert forall k :: 0 <= k < b ==> part[k] == At(h, start + k);
    var s, t := PadTo(h[start..start + size], 2 * b), PadTo(part, 2 * b);
    assert forall k :: 0 <= k < 2 * b ==> s[k] == t[k];
  }

  class FFTConvolver {
    const transforms: nat -> Transform
    var blockSize: nat
    var segSize: nat
    var segCount: nat
    var fftComplexSize: nat
    var segments: seq<SplitComplex>
    var segmentsIR: seq<SplitComplex>
    var fftBuffer: array<real>
    var fft: Transform
    var preMultiplied: SplitComplex
    var conv: SplitComplex
    var overlap: array<real>
    var current: nat
    var inputBuffer: array<real>
    var inputBufferFill: nat
    ghost var ir: seq<real>
    ghost var history: seq<real>
    ghost var Repr: set<object>

    constructor (transforms: nat -> Transform)
      ensures Valid() && fresh(Repr)
      ensures segCount == 0 && ir == [] && history == [] && this.transforms == transforms
    {
      this.transforms := transforms;
      blockSize, segSize, segCount, fftComplexSize := 0, 0, 0, 0;
      segments, segmentsIR := [], [];
      fft := transforms(0);
      fftBuffer, overlap, inputBuffer := new real[0], new real[0], new real[0];
      preMultiplied := new SplitComplex(0);
      conv := new SplitComplex(0);
      current, inputBufferFill := 0, 0;
      ir, history := [], [];
      Repr := {this};
    }

    /** All sizes and positions as after construction. */
    method ClearCounts()
      modifies this`blockSize, this`segSize, this`segCount, this`fftComplexSize, this`current, this`inputBufferFill
      modifies this`ir, this`history
      ensures segCount == 0 && current == 0 && inputBufferFill == 0 && ir == [] && history == []
    {
      blockSize, segSize, segCount, fftComplexSize := 0, 0, 0, 0;
      current, inputBufferFill := 0, 0;
      ir, history := [], [];
    }

    method Reset()
      modifies this
      ensures Valid() && fresh(Repr - {this}) && segCount == 0 && ir == [] && history == []
      ensures current == 0 && inputBufferFill == 0
    {
      hide Shape, PartsKnown, BlocksKnown, SumsKnown, ConvolutionTheorem, Zeros, Silence, SplitComplex.Value;
      hide SplitComplex.Holds, SplitComplex.ApartFrom;
      ClearCounts();
      fft := transforms(0);
      segments, segmentsIR := [], [];
      fftBuffer, overlap, inputBuffer := new real[0], new real[0], new real[0];
      var empty, arrays := NewSpectra(2, 0);
      preMultiplied, conv := empty[0], empty[1];
      Repr := {this};
    }

    method AllocateSamples(b: nat)
      modifies this`fftBuffer, this`overlap, this`inputBuffer
      ensures fresh(fftBuffer) && fresh(overlap) && fresh(inputBuffer)
      ensures fftBuffer.Length == 2 * b && overlap.Length == b && inputBuffer.Length == b
      ensures fftBuffer != overlap && fftBuffer != inputBuffer && overlap != inputBuffer
      ensures inputBuffer[..] == Zeros(b) && overlap[..] == Zeros(b)
    {
      fftBuffer, overlap, inputBuffer := new real[2 * b], new real[b], new real[b];
      SetZero(overlap);
      SetZero(inputBuffer);
    }

    method AllocateSpectra(count: nat, size: nat)
      modifies this`segments, this`segmentsIR, this`preMultiplied, this`conv, this`fftComplexSize, this`Repr
      ensures |segments| == count && |segmentsIR| == count && fftComplexSize == size
      ensures Distinct()
      ensures this in Repr && {inputBuffer, overlap, fftBuffer} <= Repr
      ensures fresh(Repr - {this, inputBuffer, overlap, fftBuffer})
      ensures forall i :: 0 <= i < count ==> segments[i].Value() == Silence(size)
    {
      hide Zeros, Silence, Distinct, Own;
      hide SplitComplex.Value, SplitComplex.Holds, SplitComplex.ApartFrom;
      var spectra, arrays := NewSpectra(2 * count + 2, size);
      fftComplexSize := size;
      segments := spectra[..count];
      segmentsIR := spectra[count..2 * count];
      preMultiplied, conv := spectra[2 * count], spectra[2 * count + 1];
      Repr := {this, inputBuffer, overlap, fftBuffer} + arrays;
      OwnAll(spectra, arrays);
      DistinctSlices(spectra);
    }

    lemma OwnAll(spectra: seq<SplitComplex>, arrays: set<object>)
      requires arrays <= Repr && arrays !! {inputBuffer, overlap, fftBuffer}
      requires forall i :: 0 <= i < |spectra| ==> spectra[i].re in arrays && spectra[i].im in arrays
      requires forall i :: 0 <= i < |spectra| ==> spectra[i].Holds(fftComplexSize)
      ensures forall i :: 0 <= i < |spectra| ==> Own(spectra[i])
    {
    }

    lemma DistinctSlices(spectra: seq<SplitComplex>)
      requires |spectra| == 2 * |segments| + 2 && |segmentsIR| == |segments|
      requires forall i :: 0 <= i < |spectra| ==> Own(spectra[i])
      requires forall i, k :: 0 <= i < k < |spectra| ==> spectra[i].ApartFrom(spectra[k])
      requires segments == spectra[..|segments|]
      requires segmentsIR == spectra[|segments|..2 * |segments|]
      requires preMultiplied == spectra[2 * |segments|] && conv == spectra[2 * |segments| + 1]
      ensures Distinct()
    {
      var n := |segments|;
      forall i | 0 <= i < n
        ensures segments[i] == spectra[i] && segmentsIR[i] == spectra[n + i]
      {
      }
    }

    /** Buffers for count parts of b samples, all silent. */
    method Allocate(b: nat, count: nat, ghost h: seq<real>)
      requires b > 0 && count > 0 && ConvolutionTheorem(transforms(2 * b), 2 * b)
      requires Tiles(count, b, |h|)
      requires history == [] && current == 0 && inputBufferFill == 0
      modifies this
      ensures Shape() && fresh(Repr - {this}) && blockSize == b && segCount == count && ir == h && history == []
      ensures current == 0 && inputBufferFill == 0
      ensures inputBuffer[..] == Zeros(b) && overlap[..] == Zeros(b)
      ensures forall i :: 0 <= i < count ==> segments[i].Value() == Silence(fftComplexSize)
    {
      hide Tiles, ConvolutionTheorem, Zeros, Silence, Distinct, ArraysOf, SplitComplex.Value, Own, Sizes;
      SetSizes(b, count, h);
      AllocateSamples(b);
      AllocateSpectra(count, ComplexSize(2 * b));
      NowSized(b);
    }

    method SetSizes(b: nat, count: nat, ghost h: seq<real>)
      modifies this`blockSize, this`segSize, this`segCount, this`ir, this`fft
      ensures blockSize == b && segSize == 2 * b && segCount == count && ir == h && fft == transforms(2 * b)
    {
      blockSize, segSize, segCount, ir := b, 2 * b, count, h;
      fft := transforms(segSize);
    }

    lemma NowSized(b: nat)
      requires b > 0 && blockSize == b && segSize == 2 * b && fftComplexSize == ComplexSize(2 * b)
      requires ConvolutionTheorem(fft, 2 * b) && Tiles(segCount, b, |ir|)
      requires |segments| == segCount && |segmentsIR| == segCount
      requires fftBuffer.Length == 2 * b && overlap.Length == b && inputBuffer.Length == b
      requires fftBuffer != overlap && fftBuffer != inputBuffer && overlap != inputBuffer
      requires this in Repr && {inputBuffer, overlap, fftBuffer} <= Repr
      ensures Sizes()
    {
    }

    lemma ShapeOwns()
      requires Shape()
      ensures {fftBuffer} + ArraysOf(segmentsIR) <= Repr
    {
      hide Tiles, ConvolutionTheorem, Own;
      OwnedArrays();
    }

    lemma OwnedArrays()
      requires Distinct()
      ensures ArraysOf(segmentsIR) <= Repr && ArraysOf(segments) <= Repr
      ensures forall i :: 0 <= i < |segments| ==> Own(segments[i])
      ensures forall i :: 0 <= i < |segmentsIR| ==> Own(segmentsIR[i])
      ensures forall i, k :: 0 <= i < k < |segmentsIR| ==> segmentsIR[i].ApartFrom(segmentsIR[k])
    {
    }

    /** The buffers of blocks, of parts, of sums and of samples have nothing in common. */
    lemma Separation()
      requires Distinct()
      ensures ArraysOf(segments) !! ArraysOf(segmentsIR) && ArraysOf(segments) + ArraysOf(segmentsIR) <= Repr
      ensures OutsideSpectra(this)
      ensures OutsideSpectra(preMultiplied.re) && OutsideSpectra(preMultiplied.im)
      ensures OutsideSpectra(conv.re) && OutsideSpectra(conv.im)
      ensures OutsideSpectra(inputBuffer) && OutsideSpectra(overlap) && OutsideSpectra(fftBuffer)
      ensures {preMultiplied.re, preMultiplied.im} !! {conv.re, conv.im}
      ensures {inputBuffer, overlap, fftBuffer} !! {preMultiplied.re, preMultiplied.im, conv.re, conv.im}
      ensures {preMultiplied.re, preMultiplied.im, conv.re, conv.im} <= Repr
    {
    }

    ghost predicate OutsideSpectra(o: object)
      reads this`segments, this`segmentsIR
    {
      o !in ArraysOf(segments) && o !in ArraysOf(segmentsIR)
    }

    /** Pads and transforms part i of the response. */
    method PreparePart(i: nat, response: array<real>, first: nat, len: nat)
      requires Sizes() && i < segCount && Own(segmentsIR[i]) && response !in Repr
      requires first + len <= response.Length && ir == response[first..first + len]
      modifies fftBuffer, segmentsIR[i].re, segmentsIR[i].im
      ensures segmentsIR[i].Value() == PartSpectrum(fft, ir, blockSize, i)
    {
      hide ConvolutionTheorem, Tiles, PadTo, Part;
      PartInside(ir, blockSize, i, segCount);
      var start := i * blockSize;
      var remaining := len - start;
      var sizeCopy := if remaining >= blockSize then blockSize else remaining;
      CopyAndPad(fftBuffer, response, first + start, sizeCopy);
      PaddedPart(ir, blockSize, i, start, sizeCopy);
      SliceOfSlice(response[..], first, len, start, sizeCopy);
      assert fftBuffer[..] == PadTo(Part(ir, i, blockSize), 2 * blockSize);
      SpectraSized(fft, ir, [], blockSize, i, 0);
      var spectrum := fft.fft(fftBuffer[..]);
      StoreSpectrum(segmentsIR[i], spectrum, spectrum.re, spectrum.im);
    }

    /** The first n parts are transformed. */
    ghost predicate PartsBelow(n: nat)
      requires n <= |segmentsIR|
      reads this`segmentsIR, this`fft, this`ir, this`blockSize, ArraysOf(segmentsIR)
    {
      forall i :: 0 <= i < n ==> segmentsIR[i].Value() == PartSpectrum(fft, ir, blockSize, i)
    }

    /** Writing part i does not touch the parts before it. */
    lemma PartApart(i: nat)
      requires Distinct() && i < |segmentsIR|
      ensures Own(segmentsIR[i]) && segmentsIR[i].re in ArraysOf(segmentsIR) && segmentsIR[i].im in ArraysOf(segmentsIR)
      ensures forall k :: 0 <= k < i ==>
        && segmentsIR[k].re !in {segmentsIR[i].re, segmentsIR[i].im}
        && segmentsIR[k].im !in {segmentsIR[i].re, segmentsIR[i].im}
    {
      hide Own;
      forall k | 0 <= k < i
        ensures segmentsIR[k].ApartFrom(segmentsIR[i])
      {
      }
    }

    method PrepareNext(i: nat, response: array<real>, first: nat, len: nat)
      requires Shape() && i < segCount && response !in Repr && PartsBelow(i)
      requires first + len <= response.Length && ir == response[first..first + len]
      modifies fftBuffer, segmentsIR[i].re, segmentsIR[i].im
      ensures PartsBelow(i + 1)
    {
      hide Tiles, ConvolutionTheorem, PartSpectrum, Distinct, SplitComplex.Value, Sizes, ArraysOf;
      UseSizes();
      Separation();
      PartApart(i);
      PreparePart(i, response, first, len);
    }

    /** Transforms the parts of the response. */
    method PrepareIR(response: array<real>, first: nat, len: nat)
      requires Shape() && response !in Repr
      requires first + len <= response.Length && ir == response[first..first + len]
      modifies fftBuffer, ArraysOf(segmentsIR)
      ensures PartsKnown()
    {
      hide Tiles, ConvolutionTheorem, PartSpectrum, Distinct, SplitComplex.Value, Sizes, ArraysOf;
      UseSizes();
      Separation();
      var i := 0;
      while i < segCount
        invariant i <= segCount && PartsBelow(i)
      {
        PartApart(i);
        PrepareNext(i, response, first, len);
        i := i + 1;
      }
    }

    /** init: false for a zero block size, nothing to do for a response that is near zero throughout. */
    method Init(newBlockSize: nat, response: array<real>, first: nat, len: nat) returns (ok: bool)
      requires first + len <= response.Length
      requires forall k :: k > 0 ==> ConvolutionTheorem(transforms(Pow2(k)), Pow2(k))
      modifies this
      ensures Valid() && fresh(Repr - {this}) && history == []
      ensures ok <==> newBlockSize > 0
      ensures ir == if ok then Trimmed(response[first..first + len]) else []
      ensures segCount == 0 <==> ir == []
      ensures segCount > 0 ==> RoundedUp(newBlockSize, blockSize)
    {
      hide ConvolutionTheorem, Trimmed, Shape, Pow2, Valid, RoundedUp;
      Reset();
      if newBlockSize == 0 {
        return false;
      }
      var irLen := TrimmedLength(response, first, len);
      if irLen == 0 {
        return true;
      }
      var b := NextPowerOf2(newBlockSize);
      RoundedUpPositive(newBlockSize, b);
      TheoremAtBlockSize(transforms, newBlockSize, b);
      var count := CeilDiv(irLen, b);
      Allocate(b, count, response[first..first + irLen]);
      ShapeOwns();
      StartState(response, first, irLen);
      return true;
    }

    /** The freshly allocated buffers are those of a silent past. */
    lemma SilentBlocks()
      requires Shape()
      requires forall i :: 0 <= i < segCount ==> segments[i].Value() == Silence(fftComplexSize)
      ensures BlocksKnown([], 0)
    {
      hide Block, Distinct, Back;
      forall i | 1 <= i < segCount
        ensures BlockSpectrum(fft, [], blockSize, Back(0, i, blockSize)) == Silence(fftComplexSize)
      {
        SilentBlock(Back(0, i, blockSize), blockSize);
        assert PadTo(Zeros(blockSize), 2 * blockSize) == Zeros(2 * blockSize);
      }
    }

    lemma SilentSums()
      requires Shape() && inputBufferFill == 0 && overlap[..] == Zeros(blockSize)
      ensures SumsKnown([], 0)
    {
      hide PartsSum, ProductSum, Distinct, ConvolutionTheorem;
      forall q | 0 <= q < blockSize
        ensures Carry(ir, [], blockSize, 0, segCount, q) == 0.0
        ensures overlap[q] == 0.0
      {
        SilentPartsSum(ir, blockSize, 0 - blockSize, blockSize + q, segCount);
        assert overlap[..][q] == 0.0;
      }
    }

    method StartState(response: array<real>, first: nat, len: nat)
      requires Shape() && response !in Repr && history == [] && inputBufferFill == 0
      requires first + len <= response.Length && ir == response[first..first + len]
      requires inputBuffer[..] == Zeros(blockSize) && overlap[..] == Zeros(blockSize)
      requires forall i :: 0 <= i < segCount ==> segments[i].Value() == Silence(fftComplexSize)
      modifies fftBuffer, ArraysOf(segmentsIR)
      ensures Valid()
    {
      hide PartsKnown, BlocksKnown, SumsKnown, ConvolutionTheorem, Distinct, Sizes, Block, ArraysOf;
      hide SplitComplex.Value, Silence, Zeros;
      UseSizes();
      Separation();
      SilentBlock(0, blockSize);
      SilentBlocks();
      SilentSums();
      PrepareIR(response, first, len);
    }

    /** Buffer sizes, for the number and size of the parts. */
    ghost predicate Sizes()
      reads this`blockSize, this`segSize, this`segCount, this`fftComplexSize, this`fft, this`ir, this`Repr
      reads this`segments, this`segmentsIR, this`inputBuffer, this`overlap, this`fftBuffer
    {
      && this in Repr && blockSize > 0 && segSize == 2 * blockSize && fftComplexSize == ComplexSize(segSize)
      && ConvolutionTheorem(fft, 2 * blockSize)
      && Tiles(segCount, blockSize, |ir|)
      && |segments| == segCount && |segmentsIR| == segCount
      && inputBuffer.Length == blockSize && overlap.Length == blockSize && fftBuffer.Length == segSize
      && inputBuffer != overlap && inputBuffer != fftBuffer && overlap != fftBuffer
      && {inputBuffer, overlap, fftBuffer} <= Repr
    }

    /** No two spectra share a buffer. */
    ghost predicate Distinct()
      reads this`fftComplexSize, this`Repr, this`preMultiplied, this`conv
      reads this`segments, this`segmentsIR, this`inputBuffer, this`overlap, this`fftBuffer
    {
      && Own(preMultiplied) && Own(conv) && preMultiplied.ApartFrom(conv)
      && (forall i :: 0 <= i < |segments| ==>
            Own(segments[i]) && segments[i].ApartFrom(preMultiplied) && segments[i].ApartFrom(conv))
      && (forall i :: 0 <= i < |segmentsIR| ==>
            Own(segmentsIR[i]) && segmentsIR[i].ApartFrom(preMultiplied) && segmentsIR[i].ApartFrom(conv))
      && (forall i, k :: 0 <= i < k < |segments| ==> segments[i].ApartFrom(segments[k]))
      && (forall i, k :: 0 <= i < k < |segmentsIR| ==> segmentsIR[i].ApartFrom(segmentsIR[k]))
      && (forall i, k :: 0 <= i < |segments| && 0 <= k < |segmentsIR| ==> segments[i].ApartFrom(segmentsIR[k]))
    }

    ghost predicate Shape()
      reads this
    {
      && Sizes() && Distinct()
      && current < segCount && inputBufferFill < blockSize && inputBufferFill <= |history|
    }

    lemma UseSizes()
      requires Sizes()
      ensures blockSize > 0 && inputBuffer.Length == blockSize && overlap.Length == blockSize
      ensures ConvolutionTheorem(fft, 2 * blockSize)
      ensures |segments| == segCount && |segmentsIR| == segCount && fftBuffer.Length == 2 * blockSize
      ensures {inputBuffer, overlap, fftBuffer} <= Repr
      ensures inputBuffer != overlap && inputBuffer != fftBuffer && overlap != fftBuffer
      ensures this in Repr
    {
    }

    ghost predicate Own(s: SplitComplex)
      reads this`fftComplexSize, this`Repr, this`inputBuffer, this`overlap, this`fftBuffer
    {
      && s.Holds(fftComplexSize) && {s.re, s.im} <= Repr
      && s.re !in {inputBuffer, overlap, fftBuffer} && s.im !in {inputBuffer, overlap, fftBuffer}
    }

    /** Where in the input the block being filled begins. */
    ghost function Start(): int
      reads this
    {
      |history| - inputBufferFill
    }

    ghost predicate PartsKnown()
      requires |segmentsIR| == segCount
      reads this`segCount, this`segmentsIR, this`fft, this`ir, this`blockSize, ArraysOf(segmentsIR)
    {
      forall i :: 0 <= i < segCount ==> segmentsIR[i].Value() == PartSpectrum(fft, ir, blockSize, i)
    }

    /** Segment (current + i) % segCount is the spectrum of the block i blocks before start. */
    ghost predicate BlocksKnown(x: seq<real>, start: int)
      requires |segments| == segCount && current < segCount
      reads this`segCount, this`segments, this`current, this`fft, this`blockSize, ArraysOf(segments)
    {
      forall i :: 1 <= i < segCount ==>
        segments[Ring(current, i, segCount)].Value() == BlockSpectrum(fft, x, blockSize, Back(start, i, blockSize))
    }

    /** The cached sum and the saved overlap are those of the blocks before start. */
    ghost predicate SumsKnown(x: seq<real>, start: int)
      requires ConvolutionTheorem(fft, 2 * blockSize) && segCount > 0 && overlap.Length == blockSize
      reads this`segCount, this`preMultiplied, this`overlap, this`inputBufferFill, this`fft, this`ir, this`blockSize
      reads preMultiplied.re, preMultiplied.im, overlap
    {
      && (inputBufferFill > 0 ==>
            preMultiplied.Value() == ProductSum(fft, ir, x, blockSize, start, 1, segCount))
      && OverlapKnown(x, start)
    }

    ghost predicate OverlapKnown(x: seq<real>, start: int)
      requires overlap.Length == blockSize
      reads this`segCount, this`overlap, this`ir, this`blockSize, overlap
    {
      forall q :: 0 <= q < blockSize ==> overlap[q] == Carry(ir, x, blockSize, start, segCount, q)
    }

    ghost predicate Valid()
      reads this, Repr
    {
      && this in Repr
      && (segCount == 0 ==> ir == [])
      && (segCount > 0 ==>
            && Shape() && PartsKnown()
            && inputBuffer[..] == Block(history, Start(), blockSize)
            && BlocksKnown(history, Start()) && SumsKnown(history, Start()))
    }

    lemma PastStays(more: seq<real>)
      requires segCount > 0 && Valid()
      ensures BlocksKnown(history + more, Start()) && SumsKnown(history + more, Start())
    {
      hide Tiles, ConvolutionTheorem, PartSpectrum, BlockSpectrum, ProductSum, PartsSum, Own;
      var x, start := history, Start();
      forall i | 1 <= i < segCount
        ensures BlockSpectrum(fft, x + more, blockSize, Back(start, i, blockSize))
          == BlockSpectrum(fft, x, blockSize, Back(start, i, blockSize))
      {
        BlockSpectrumStays(fft, x, more, blockSize, start, i);
      }
      ProductSumStays(fft, ir, x, more, blockSize, start, segCount);
      forall q | 0 <= q < blockSize
        ensures Carry(ir, x + more, blockSize, start, segCount, q) == Carry(ir, x, blockSize, start, segCount, q)
      {
        PartsSumStays(ir, x, more, blockSize, start - blockSize, blockSize + q, segCount);
      }
    }

    // ---------- The steps of process ----------

    /** Appends n samples to the block being filled. */
    method TakeInput(input: array<real>, inPos: nat, n: nat)
      requires Shape() && inputBuffer[..] == Block(history, Start(), blockSize)
      requires n <= blockSize - inputBufferFill && inPos + n <= input.Length && input != inputBuffer
      modifies inputBuffer
      ensures inputBuffer[..] == Block(history + input[inPos..inPos + n], Start(), blockSize)
    {
      hide Tiles, ConvolutionTheorem;
      ghost var more := input[inPos..inPos + n];
      ghost var was := inputBuffer[..];
      CopySamples(inputBuffer, inputBufferFill, input, inPos, n);
      ghost var nu := Block(history + more, Start(), blockSize);
      forall q | 0 <= q < blockSize
        ensures inputBuffer[..][q] == nu[q]
      {
        assert was[q] == At(history, Start() + q);
        assert nu[q] == At(history + more, Start() + q);
      }
    }

    method ForwardTransform(dest: SplitComplex, ghost x: seq<real>, ghost start: int)
      requires Sizes() && Own(dest) && inputBuffer[..] == Block(x, start, blockSize)
      modifies fftBuffer, dest.re, dest.im
      ensures dest.Value() == BlockSpectrum(fft, x, blockSize, start)
    {
      hide Tiles, ConvolutionTheorem;
      SpectraSized(fft, [], x, blockSize, 0, start);
      CopyAndPad(fftBuffer, inputBuffer, 0, blockSize);
      assert inputBuffer[0..blockSize] == inputBuffer[..];
      var spectrum := fft.fft(fftBuffer[..]);
      StoreSpectrum(dest, spectrum, spectrum.re, spectrum.im);
    }

    lemma ProductReady(i: nat)
      requires Shape() && 1 <= i < segCount
      ensures var segment := segments[Ring(current, i, segCount)];
        && preMultiplied.Holds(preMultiplied.re.Length)
        && segmentsIR[i].Holds(preMultiplied.re.Length) && segment.Holds(preMultiplied.re.Length)
        && preMultiplied.ApartFrom(segmentsIR[i]) && preMultiplied.ApartFrom(segment)
        && segment.re in ArraysOf(segments) && segment.im in ArraysOf(segments)
        && segmentsIR[i].re in ArraysOf(segmentsIR) && segmentsIR[i].im in ArraysOf(segmentsIR)
    {
      hide Tiles, ConvolutionTheorem;
    }

    /** Part i times the block i blocks ago. */
    method AddProduct(i: nat, ghost x: seq<real>, ghost start: int)
      requires Shape() && 1 <= i < segCount && PartsKnown() && BlocksKnown(x, start)
      requires preMultiplied.Value() == ProductSum(fft, ir, x, blockSize, start, 1, i)
      modifies preMultiplied.re, preMultiplied.im
      ensures preMultiplied.Value() == ProductSum(fft, ir, x, blockSize, start, 1, i + 1)
    {
      hide Mul, Add, ConvolutionTheorem, PartSpectrum, BlockSpectrum, Distinct, Sizes, SplitComplex.Value, Back;
      hide SplitComplex.Holds, ProductSum, ArraysOf, Ring;
      UseSizes();
      ProductReady(i);
      ProductNext(fft, ir, x, blockSize, start, i);
      RingIsMod(current, i, segCount);
      var indexAudio := (current + i) % segCount;
      ComplexMultiplyAccumulate(preMultiplied, segmentsIR[i], segments[indexAudio]);
    }

    /** Recomputes the cached sum over all complete blocks. */
    method SumHistory(ghost x: seq<real>, ghost start: int)
      requires Shape() && PartsKnown() && BlocksKnown(x, start)
      modifies preMultiplied.re, preMultiplied.im
      ensures preMultiplied.Value() == ProductSum(fft, ir, x, blockSize, start, 1, segCount)
    {
      hide ConvolutionTheorem, PartsKnown, BlocksKnown, Distinct, Sizes, SplitComplex.Value, ArraysOf, Silence;
      hide ProductSum;
      UseSizes();
      Separation();
      OwnSums();
      preMultiplied.Clear();
      ClearedIsSilent();
      NoProducts(fft, ir, x, blockSize, start);
      assert preMultiplied.Value() == ProductSum(fft, ir, x, blockSize, start, 1, 1);
      var i := 1;
      while i < segCount
        invariant 1 <= i <= segCount && PartsKnown() && BlocksKnown(x, start)
        invariant preMultiplied.Value() == ProductSum(fft, ir, x, blockSize, start, 1, i)
      {
        AddProduct(i, x, start);
        i := i + 1;
      }
    }

    lemma OwnSums()
      requires Shape()
      ensures Own(preMultiplied) && fftComplexSize == ComplexSize(2 * blockSize)
    {
    }

    lemma ClearedIsSilent()
      requires Own(preMultiplied) && fftComplexSize == ComplexSize(2 * blockSize)
      ensures Spectrum(Zeros(preMultiplied.re.Length), Zeros(preMultiplied.im.Length))
        == Silence(ComplexSize(2 * blockSize))
    {
    }

    /** fftBuffer is the sum of all partial convolutions of the block at start. */
    ghost predicate SummedUp(x: seq<real>, start: int)
      reads this`fftBuffer, this`blockSize, this`ir, this`segCount, fftBuffer
    {
      && fftBuffer.Length == 2 * blockSize
      && forall q :: 0 <= q < fftBuffer.Length ==> fftBuffer[q] == PartsSum(ir, x, blockSize, start, q, 0, segCount)
    }

    /** Adds the newest block's product to a copy of the cached sum and goes back in time. */
    method Combine(ghost x: seq<real>, ghost start: int)
      requires Sizes() && segCount > 0 && current < |segments| && 0 < |segmentsIR|
      requires Own(preMultiplied) && Own(conv) && Own(segments[current]) && Own(segmentsIR[0])
      requires conv.ApartFrom(preMultiplied) && conv.ApartFrom(segments[current]) && conv.ApartFrom(segmentsIR[0])
      requires preMultiplied.Value() == ProductSum(fft, ir, x, blockSize, start, 1, segCount)
      requires segments[current].Value() == BlockSpectrum(fft, x, blockSize, start)
      requires segmentsIR[0].Value() == PartSpectrum(fft, ir, blockSize, 0)
      modifies conv.re, conv.im, fftBuffer
      ensures SummedUp(x, start)
    {
      hide Tiles, ConvolutionTheorem, ProductSum, BlockSpectrum, PartSpectrum, Mul, Add, PartsSum;
      conv.CopyFrom(preMultiplied);
      ComplexMultiplyAccumulate(conv, segments[current], segmentsIR[0]);
      var time := fft.ifft(Spectrum(conv.re[..], conv.im[..]));
      forall q: nat | q < 2 * blockSize
        ensures |time| == 2 * blockSize && time[q] == PartsSum(ir, x, blockSize, start, q, 0, segCount)
      {
        BlockOutput(fft, ir, x, blockSize, start, segCount, q);
      }
      assert time[0] == PartsSum(ir, x, blockSize, start, 0, 0, segCount);
      forall k | 0 <= k < fftBuffer.Length {
        fftBuffer[k] := time[k];
      }
    }

    /** Adds the overlap and hands out n samples of the block. */
    method Emit(output: array<real>, outPos: nat, n: nat, ghost x: seq<real>, ghost start: int)
      requires Sizes() && segCount > 0 && inputBufferFill + n <= blockSize && outPos + n <= output.Length
      requires Tiles(segCount, blockSize, |ir|)
      requires output !in {overlap, fftBuffer}
      requires SummedUp(x, start)
      requires OverlapKnown(x, start)
      modifies output
      ensures output[..] == Overwritten(old(output[..]), outPos, Response(ir, x, start + inputBufferFill, n))
    {
      hide ConvolutionTheorem, PartsSum, Conv, Tiles, Carry, Overwritten;
      Sum(output, outPos, fftBuffer, inputBufferFill, overlap, inputBufferFill, n);
      ghost var a, b := fftBuffer[inputBufferFill..inputBufferFill + n], overlap[inputBufferFill..inputBufferFill + n];
      ghost var response := Response(ir, x, start + inputBufferFill, n);
      forall k | 0 <= k < n
        ensures AddSamples(a, b)[k] == response[k]
      {
        OutputSample(ir, x, blockSize, start, inputBufferFill + k, segCount);
        assert a[k] == fftBuffer[inputBufferFill + k] && b[k] == overlap[inputBufferFill + k];
        assert response[k] == Conv(ir, x, start + inputBufferFill + k);
      }
      assert AddSamples(a, b) == response;
    }

    /** The block is full: its second half becomes the overlap. */
    method SaveOverlap(ghost x: seq<real>, ghost start: int)
      requires Sizes() && SummedUp(x, start) && segCount > 0
      modifies this`inputBufferFill, inputBuffer, overlap
      ensures inputBufferFill == 0 && inputBuffer[..] == Zeros(blockSize)
      ensures SumsKnown(x, start + blockSize)
    {
      hide Tiles, ConvolutionTheorem, PartsSum, ProductSum;
      SetZero(inputBuffer);
      inputBufferFill := 0;
      CopySamples(overlap, 0, fftBuffer, blockSize, blockSize);
      forall q | 0 <= q < blockSize
        ensures overlap[q] == Carry(ir, x, blockSize, start + blockSize, segCount, q)
      {
        assert overlap[..][q] == fftBuffer[blockSize + q];
      }
    }

    /** The ring turns by one: what was current becomes the block before. */
    method TurnRing(ghost x: seq<real>, ghost start: int)
      requires |segments| == segCount && current < segCount && BlocksKnown(x, start)
      requires segments[current].Value() == BlockSpectrum(fft, x, blockSize, start)
      modifies this`current
      ensures current < segCount && BlocksKnown(x, start + blockSize)
    {
      hide BlockSpectrum, SplitComplex.Value;
      ghost var was := current;
      current := if current > 0 then current - 1 else segCount - 1;
      forall i | 1 <= i < segCount
        ensures segments[Ring(current, i, segCount)].Value()
          == BlockSpectrum(fft, x, blockSize, Back(start + blockSize, i, blockSize))
      {
        assert Ring(current, i, segCount) == Ring(was, i - 1, segCount);
        BackSteps(start, i - 1, blockSize);
      }
    }

    /** Section "Input buffer full => Next block" of process. */
    method NextBlock(ghost x: seq<real>, ghost start: int)
      requires Shape() && BlocksKnown(x, start) && SummedUp(x, start) && PartsKnown()
      requires segments[current].Value() == BlockSpectrum(fft, x, blockSize, start)
      modifies this`inputBufferFill, this`current, inputBuffer, overlap
      ensures Shape() && inputBufferFill == 0
      ensures inputBuffer[..] == Zeros(blockSize) && PartsKnown()
      ensures BlocksKnown(x, start + blockSize) && SumsKnown(x, start + blockSize)
    {
      hide Tiles, ConvolutionTheorem, Distinct, SplitComplex.Value, SumsKnown, SummedUp, Zeros;
      hide ArraysOf, Sizes, BlockSpectrum, PartSpectrum, Back;
      UseSizes();
      OwnedArrays();
      TurnRing(x, start);
      SaveOverlap(x, start);
    }

    /** Everything about the block at start is computed from the input x. */
    ghost predicate Computed(x: seq<real>, start: int)
      reads this, Repr, ArraysOf(segments), ArraysOf(segmentsIR), inputBuffer, overlap, fftBuffer
      reads preMultiplied.re, preMultiplied.im
    {
      && Shape() && PartsKnown() && BlocksKnown(x, start)
      && inputBuffer[..] == Block(x, start, blockSize)
      && segments[current].Value() == BlockSpectrum(fft, x, blockSize, start)
      && preMultiplied.Value() == ProductSum(fft, ir, x, blockSize, start, 1, segCount)
      && OverlapKnown(x, start) && SummedUp(x, start)
    }

    /** Takes in n samples and transforms the block as far as it is filled. */
    method HearBlock(input: array<real>, inPos: nat, n: nat)
      requires segCount > 0 && Valid()
      requires 0 < n <= blockSize - inputBufferFill && inPos + n <= input.Length && input !in Repr
      modifies inputBuffer, fftBuffer, segments[current].re, segments[current].im
      ensures Shape() && PartsKnown() && Heard(history + input[inPos..inPos + n], Start())
    {
      hide Tiles, ConvolutionTheorem, BlockSpectrum, PartsKnown, SumsKnown, Distinct, Sizes, SplitComplex.Value;
      hide Block, Back, ArraysOf;
      ghost var x, start := history + input[inPos..inPos + n], Start();
      UseSizes();
      Separation();
      OwnedArrays();
      PastStays(input[inPos..inPos + n]);
      CurrentApart();
      TakeInput(input, inPos, n);
      ForwardTransform(segments[current], x, start);
    }

    /** Writing the current segment does not touch the other ones. */
    lemma CurrentApart()
      requires Shape()
      ensures segments[current].re in ArraysOf(segments) && segments[current].im in ArraysOf(segments)
      ensures forall i :: 1 <= i < segCount ==>
        && segments[Ring(current, i, segCount)].re !in {segments[current].re, segments[current].im}
        && segments[Ring(current, i, segCount)].im !in {segments[current].re, segments[current].im}
    {
      hide Tiles, ConvolutionTheorem, Own;
      forall i | 1 <= i < segCount
        ensures segments[Ring(current, i, segCount)].ApartFrom(segments[current])
      {
        var k := Ring(current, i, segCount);
        assert if k < current then segments[k].ApartFrom(segments[current])
               else segments[current].ApartFrom(segments[k]);
      }
    }

    /** The newest block is transformed, the sums are still those of the blocks before. */
    ghost predicate Heard(x: seq<real>, start: int)
      requires |segments| == segCount && current < segCount
      requires ConvolutionTheorem(fft, 2 * blockSize) && segCount > 0 && overlap.Length == blockSize
      reads this, ArraysOf(segments), segments[current].re, segments[current].im, preMultiplied.re, preMultiplied.im
      reads overlap, inputBuffer
    {
      && BlocksKnown(x, start) && SumsKnown(x, start)
      && inputBuffer[..] == Block(x, start, blockSize)
      && segments[current].Value() == BlockSpectrum(fft, x, blockSize, start)
    }

    lemma CombineReady()
      requires Shape()
      ensures Own(preMultiplied) && Own(conv) && Own(segments[current]) && Own(segmentsIR[0])
      ensures conv.ApartFrom(preMultiplied) && conv.ApartFrom(segments[current]) && conv.ApartFrom(segmentsIR[0])
      ensures segmentsIR[0].re in ArraysOf(segmentsIR) && segmentsIR[0].im in ArraysOf(segmentsIR)
    {
      hide Tiles, ConvolutionTheorem;
    }

    lemma FirstPart()
      requires |segmentsIR| == segCount > 0 && PartsKnown()
      ensures segmentsIR[0].Value() == PartSpectrum(fft, ir, blockSize, 0)
    {
    }

    /** The two sums of one block. */
    method SumBlock(ghost x: seq<real>, ghost start: int)
      requires Shape() && PartsKnown() && Heard(x, start)
      modifies preMultiplied.re, preMultiplied.im, conv.re, conv.im, fftBuffer
      ensures Computed(x, start)
    {
      hide Tiles, ConvolutionTheorem, BlockSpectrum, PartSpectrum, ProductSum, PartsSum, Carry, SplitComplex.Value;
      hide SummedUp, Block, Back, ArraysOf, Sizes, BlocksKnown, PartsKnown, Distinct, Own, SplitComplex.ApartFrom;
      hide OverlapKnown;
      UseSizes();
      Separation();
      CombineReady();
      CurrentApart();
      if inputBufferFill == 0 {
        SumHistory(x, start);
      }
      FirstPart();
      Combine(x, start);
    }

    method ComputeBlock(input: array<real>, inPos: nat, n: nat)
      requires segCount > 0 && Valid()
      requires 0 < n <= blockSize - inputBufferFill && inPos + n <= input.Length && input !in Repr
      modifies Repr - {this}
      ensures Computed(history + input[inPos..inPos + n], Start())
    {
      hide Tiles, ConvolutionTheorem, PartsKnown, SumsKnown, BlocksKnown, Heard, Computed, Sizes, Block, ArraysOf;
      UseSizes();
      OwnedArrays();
      Separation();
      HearBlock(input, inPos, n);
      SumBlock(history + input[inPos..inPos + n], Start());
    }

    /** Moves on by n samples, to the next block when this one is full. */
    method Advance(n: nat, ghost x: seq<real>)
      requires segCount > 0 && Computed(x, Start()) && this in Repr
      requires 0 < n <= blockSize - inputBufferFill && |x| == |history| + n
      modifies Repr
      ensures Valid() && Repr == old(Repr) && segCount == old(segCount) && ir == old(ir) && blockSize == old(blockSize)
      ensures history == x
    {
      hide Tiles, ConvolutionTheorem, BlockSpectrum, PartSpectrum, ProductSum, PartsSum, Carry, Distinct, Sizes;
      hide SplitComplex.Value, SummedUp, Back, PartsKnown, BlocksKnown, OverlapKnown, ArraysOf;
      UseSizes();
      Separation();
      if inputBufferFill + n == blockSize {
        NextBlock(x, Start());
      } else {
        inputBufferFill := inputBufferFill + n;
      }
      history := x;
      if inputBufferFill == 0 {
        BlockAfterEnd(x, blockSize);
      }
    }

    /** One pass of the loop in process: at most to the end of the block being filled. */
    method ProcessChunk(input: array<real>, inPos: nat, output: array<real>, outPos: nat, n: nat)
      requires segCount > 0 && Valid()
      requires 0 < n <= blockSize - inputBufferFill && inPos + n <= input.Length && outPos + n <= output.Length
      requires input != output && input !in Repr && output !in Repr
      modifies Repr, output
      ensures Valid() && Repr == old(Repr) && segCount == old(segCount) && ir == old(ir) && blockSize == old(blockSize)
      ensures history == old(history) + input[inPos..inPos + n]
      ensures output[..] == Overwritten(old(output[..]), outPos, Response(ir, history, |old(history)|, n))
    {
      hide Tiles, ConvolutionTheorem, BlockSpectrum, PartSpectrum, ProductSum, PartsSum, Carry, Overwritten;
      ghost var x, start := history + input[inPos..inPos + n], Start();
      ComputeBlock(input, inPos, n);
      Emit(output, outPos, n, x, start);
      Advance(n, x);
    }

    /** process: for any split of the input, the output is direct convolution of the whole input so far. */
    method Process(input: array<real>, inStart: nat, output: array<real>, outStart: nat, len: nat)
      requires Valid()
      requires inStart + len <= input.Length && outStart + len <= output.Length
      requires input != output && input !in Repr && output !in Repr
      modifies Repr, output
      ensures Valid() && Repr == old(Repr) && ir == old(ir)
      ensures history == old(history) + input[inStart..inStart + len]
      ensures output[..] == Overwritten(old(output[..]), outStart, Response(ir, history, |old(history)|, len))
    {
      hide Valid, Overwritten, Response;
      FillIsShort();
      if segCount == 0 {
        ProcessSilence(input, inStart, output, outStart, len);
        return;
      }
      var processed := 0;
      ghost var o, first := output[..], |history|;
      NothingYet(input[inStart..inStart], o, outStart, Response(ir, history, first, 0));
      while processed < len
        invariant processed <= len && Valid() && Repr == old(Repr) && ir == old(ir) && segCount > 0
        invariant history == old(history) + input[inStart..inStart + processed]
        invariant output[..] == Overwritten(o, outStart, Response(ir, history, first, processed))
      {
        FillIsShort();
        var n := if len - processed < blockSize - inputBufferFill then len - processed else blockSize - inputBufferFill;
        ghost var was, o1 := history, output[..];
        ProcessChunk(input, inStart + processed, output, outStart + processed, n);
        ProcessedMore(input[..], inStart, old(history), was, history, ir, o, o1, output[..], outStart, processed, n);
        processed := processed + n;
      }
    }

    method ProcessSilence(input: array<real>, inStart: nat, output: array<real>, outStart: nat, len: nat)
      requires Valid() && segCount == 0
      requires inStart + len <= input.Length && outStart + len <= output.Length
      requires input != output && input !in Repr && output !in Repr
      modifies this`history, output
      ensures Valid() && Repr == old(Repr) && ir == old(ir)
      ensures history == old(history) + input[inStart..inStart + len]
      ensures output[..] == Overwritten(old(output[..]), outStart, Response(ir, history, |old(history)|, len))
    {
      forall k | outStart <= k < outStart + len {
        output[k] := 0.0;
      }
      history := history + input[inStart..inStart + len];
      SilentResponse(history, |old(history)|, len);
    }

    lemma FillIsShort()
      requires Valid()
      ensures this in Repr && (segCount > 0 ==> inputBufferFill < blockSize)
    {
    }
  }

  /** One pass of the loop in process, on values. */
  lemma ProcessedMore(input: seq<real>, inStart: nat, h0: seq<real>, was: seq<real>, now: seq<real>, ir: seq<real>,
                      o: seq<real>, o1: seq<real>, o2: seq<real>, outStart: nat, p: nat, n: nat)
    requires inStart + p + n <= |input| && outStart + p + n <= |o| == |o1|
    requires was == h0 + input[inStart..inStart + p] && now == was + input[inStart + p..inStart + p + n]
    requires o1 == Overwritten(o, outStart, Response(ir, was, |h0|, p))
    requires o2 == Overwritten(o1, outStart + p, Response(ir, now, |was|, n))
    ensures now == h0 + input[inStart..inStart + p + n]
    ensures o2 == Overwritten(o, outStart, Response(ir, now, |h0|, p + n))
  {
    hide Overwritten, Response;
    SlicesJoin(input, inStart, inStart + p, inStart + p + n);
    ResponseExtends(ir, was, input[inStart + p..inStart + p + n], |h0|, p, n);
    OverwrittenTwice(o, outStart, Response(ir, was, |h0|, p), Response(ir, now, |was|, n));
  }

  lemma BlockAfterEnd(x: seq<real>, b: nat)
    ensures Block(x, |x|, b) == Zeros(b)
  {
    var after := Block(x, |x|, b);
    forall q | 0 <= q < b
      ensures after[q] == 0.0
    {
      assert after[q] == At(x, |x| + q);
    }
  }

  lemma SlicesJoin(s: seq<real>, i: nat, j: nat, k: nat)
    requires i <= j <= k <= |s|
    ensures s[i..j] + s[j..k] == s[i..k]
  {
  }

  lemma NothingYet(none: seq<real>, o: seq<real>, r: nat, t: seq<real>)
    requires none == [] && t == [] && r <= |o|
    ensures Overwritten(o, r, t) == o
  {
  }

  lemma SilentResponse(x: seq<real>, first: int, n: nat)
    ensures Response([], x, first, n) == Zeros(n)
  {
    var r := Response([], x, first, n);
    forall k | 0 <= k < n
      ensures r[k] == 0.0
    {
      assert r[k] == Conv([], x, first + k);
    }
  }

  lemma ResponseExtends(h: seq<real>, x: seq<real>, more: seq<real>, first: nat, p: nat, n: nat)
    requires |x| == first + p && |more| == n
    ensures Response(h, x + more, first, p + n) == Response(h, x, first, p) + Response(h, x + more, first + p, n)
  {
    var all := Response(h, x + more, first, p + n);
    var old', new' := Response(h, x, first, p), Response(h, x + more, first + p, n);
    forall k | 0 <= k < p + n
      ensures all[k] == (old' + new')[k]
    {
      assert all[k] == Conv(h, x + more, first + k);
      if k < p {
        ConvExtendInput(h, x, more, first + k);
        assert old'[k] == Conv(h, x, first + k);
      } else {
        assert new'[k - p] == Conv(h, x + more, first + p + (k - p));
      }
    }
  }

  lemma OverwrittenTwice(s: seq<real>, r: nat, t: seq<real>, u: seq<real>)
    requires r + |t| + |u| <= |s|
    ensures Overwritten(Overwritten(s, r, t), r + |t|, u) == Overwritten(s, r, t + u)
  {
  }

  /** n samples of the response of h to x from time first on. */
  function Response(h: seq<real>, x: seq<real>, first: int, n: nat): (r: seq<real>)
    ensures |r| == n
  {
    seq(n, k requires 0 <= k < n => Conv(h, x, first + k))
  }
}
