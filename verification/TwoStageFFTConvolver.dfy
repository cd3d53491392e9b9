/** The two-stage convolver of fft_consolver/TwoStageFFTConvolver: a head with short blocks and two delayed tails. */
module TwoStageConvolvers {
  import opened Convolution
  import opened ConvolverUtilities
  import opened FFTConvolvers
  import opened PowersOfTwo
  import opened Spectra

  lemma ResponseStays(h: seq<real>, x: seq<real>, more: seq<real>, first: int, n: nat)
    requires first + n <= |x|
    ensures Response(h, x + more, first, n) == Response(h, x, first, n)
  {
    var u, v := Response(h, x + more, first, n), Response(h, x, first, n);
    forall k | 0 <= k < n
      ensures u[k] == v[k]
    {
      ConvExtendInput(h, x, more, first + k);
      assert u[k] == Conv(h, x + more, first + k) && v[k] == Conv(h, x, first + k);
    }
  }

  lemma ResponseSlice(h: seq<real>, x: seq<real>, first: int, n: nat, i: nat, m: nat)
    requires i + m <= n
    ensures Response(h, x, first, n)[i..i + m] == Response(h, x, first + i, m)
  {
    var u, v := Response(h, x, first, n)[i..i + m], Response(h, x, first + i, m);
    forall k | 0 <= k < m
      ensures u[k] == v[k]
    {
      assert u[k] == Response(h, x, first, n)[i + k] == Conv(h, x, first + (i + k));
      assert v[k] == Conv(h, x, first + i + k);
    }
  }

  /** The impulse response the three stages add up to: each of the first two parts fills t samples. */
  function Effective(head: seq<real>, tail0: seq<real>, tail: seq<real>, t: nat): seq<real>
    requires |head| <= t && |tail0| <= t
  {
    PadTo(head, t) + PadTo(tail0, t) + tail
  }

  /** Head, first tail t samples late and second tail 2t samples late are one convolution. */
  lemma StagesAddUp(head: seq<real>, tail0: seq<real>, tail: seq<real>, t: nat, x: seq<real>, n: int)
    requires |head| <= t && |tail0| <= t
    ensures Conv(Effective(head, tail0, tail, t), x, n)
      == Conv(head, x, n) + Conv(tail0, x, n - t) + Conv(tail, x, n - 2 * t)
  {
    ConvAppend(PadTo(head, t) + PadTo(tail0, t), tail, x, n);
    ConvAppend(PadTo(head, t), PadTo(tail0, t), x, n);
    ConvPad(head, x, n, t);
    ConvPad(tail0, x, n - t, t);
  }

  lemma ResponsesAddUp(head: seq<real>, tail0: seq<real>, tail: seq<real>, t: nat, x: seq<real>, first: int, n: nat)
    requires |head| <= t && |tail0| <= t
    ensures AddSamples(AddSamples(Response(head, x, first, n), Response(tail0, x, first - t, n)),
                       Response(tail, x, first - 2 * t, n))
      == Response(Effective(head, tail0, tail, t), x, first, n)
  {
    hide Conv, Effective;
    var u := Response(head, x, first, n);
    var v := Response(tail0, x, first - t, n);
    var w := Response(tail, x, first - 2 * t, n);
    var all := Response(Effective(head, tail0, tail, t), x, first, n);
    forall k | 0 <= k < n
      ensures u[k] + v[k] + w[k] == all[k]
    {
      StagesAddUp(head, tail0, tail, t, x, first + k);
    }
  }

  // ---------- Multiples of the head block size ----------

  ghost predicate Multiple(a: nat, h: nat) {
    exists m: nat :: a == m * h
  }

  /** The part of a that fills whole blocks of h. */
  function Whole(a: nat, h: nat): (r: nat)
    requires h > 0
    ensures r <= a < r + h
  {
    a - a % h
  }

  lemma WholeIsMultiple(a: nat, h: nat)
    requires h > 0
    ensures Multiple(Whole(a, h), h)
    ensures a % h == 0 ==> Whole(a, h) == a
  {
    assert a == h * (a / h) + a % h;
    assert h * (a / h) == (a / h) * h;
    assert Whole(a, h) == (a / h) * h;
  }

  lemma MultiplesStep(a: nat, b: nat, h: nat)
    requires h > 0 && Multiple(a, h) && Multiple(b, h) && a < b
    ensures a + h <= b
  {
    var m: nat :| a == m * h;
    var n: nat :| b == n * h;
    if n <= m {
      MulMonotone(n, m, h);
    }
    MulMonotone(m + 1, n, h);
  }

  /** Going on by at most the rest of the block either stays inside it or ends it. */
  lemma WholeAfter(a: nat, n: nat, h: nat)
    requires h > 0 && n <= h - a % h
    ensures (a + n) % h == 0 && n > 0 ==> Whole(a, h) + h == a + n
    ensures (a + n) % h != 0 ==> Whole(a + n, h) == Whole(a, h)
    ensures Multiple(Whole(a, h), h)
  {
    WholeIsMultiple(a, h);
    var q, r := a / h, a % h;
    assert a == q * h + r;
    if r + n < h {
      DivModUnique(a + n, h, q, r + n);
    } else {
      DivModUnique(a + n, h, q + 1, 0);
    }
  }

  lemma PowersAreMultiples(h: nat, t: nat)
    requires h <= t && (exists k :: h == Pow2(k)) && (exists k :: t == Pow2(k))
    ensures Multiple(t, h)
  {
    var j: nat :| h == Pow2(j);
    var k: nat :| t == Pow2(k);
    if j > k {
      Pow2Monotone(k, j);
    }
    Pow2Add(k - j, j);
    assert t == Pow2(k - j) * h;
  }

  lemma HeadFitsTail(h: nat, t: nat, nextHead: nat, nextTail: nat)
    requires h <= t && RoundedUp(h, nextHead) && RoundedUp(t, nextTail)
    ensures Multiple(nextTail, nextHead)
  {
    var k :| nextTail == Pow2(k);
    assert h <= Pow2(k);
    PowersAreMultiples(nextHead, nextTail);
  }

  lemma FillGrows(was: seq<real>, fill: nat, more: seq<real>, x: seq<real>, start: nat)
    requires fill + |more| <= |was| && |x| == start + fill && was[..fill] == x[start..]
    ensures Overwritten(was, fill, more)[..fill + |more|] == (x + more)[start..start + fill + |more|]
  {
    var u, v := Overwritten(was, fill, more), x + more;
    forall k | 0 <= k < fill + |more|
      ensures u[k] == v[start + k]
    {
      if k < fill {
        assert was[..fill][k] == x[start..][k];
      }
    }
  }

  /** A response taken apart the way init does it, each part losing its own near-zero end. */
  function InParts(h: seq<real>, t: nat): seq<real>
    requires |h| >= 2 * t
  {
    Effective(Trimmed(h[..t]), Trimmed(h[t..2 * t]), Trimmed(h[2 * t..]), t)
  }

  lemma PartIsClose(part: seq<real>, i: nat)
    requires i < |part|
    ensures var padded := PadTo(Trimmed(part), |part|);
      padded[i] == part[i] || (NearZero(part[i]) && padded[i] == 0.0)
  {
  }

  /** The taking apart costs at most samples below the threshold. */
  lemma InPartsIsClose(h: seq<real>, t: nat)
    requires |h| > 2 * t && h == Trimmed(h)
    ensures |InParts(h, t)| == |h|
    ensures forall i :: 0 <= i < |h| ==>
      InParts(h, t)[i] == h[i] || (NearZero(h[i]) && InParts(h, t)[i] == 0.0 && i < 2 * t)
  {
    hide Trimmed, NearZero, PadTo;
    LastPartStays(h, t);
    var a, b, e := PadTo(Trimmed(h[..t]), t), PadTo(Trimmed(h[t..2 * t]), t), InParts(h, t);
    forall i | 0 <= i < |h|
      ensures e[i] == h[i] || (NearZero(h[i]) && e[i] == 0.0 && i < 2 * t)
    {
      if i < t {
        PartIsClose(h[..t], i);
        assert e[i] == a[i];
      } else if i < 2 * t {
        PartIsClose(h[t..2 * t], i - t);
        assert e[i] == b[i - t];
      }
    }
  }

  /** The parts of a response are slices of the array it comes from. */
  lemma ThreeSlices(s: seq<real>, irLen: nat, t: nat)
    requires 2 * t < irLen <= |s|
    ensures s[..irLen][..t] == s[0..0 + t] && s[..irLen][t..2 * t] == s[t..t + t]
    ensures s[..irLen][2 * t..] == s[2 * t..2 * t + (irLen - 2 * t)]
  {
  }

  /** Trimming takes nothing but zeros off the part. */
  predicate TrimsOnlyZeros(p: seq<real>) {
    forall i :: |Trimmed(p)| <= i < |p| ==> p[i] == 0.0
  }

  lemma PaddedAt(p: seq<real>, i: nat)
    requires i < |p|
    ensures PadTo(Trimmed(p), |p|)[i] == if i < |Trimmed(p)| then p[i] else 0.0
  {
    hide Trimmed;
  }

  lemma PaddedBack(p: seq<real>)
    ensures PadTo(Trimmed(p), |p|) == p <==> TrimsOnlyZeros(p)
  {
    hide Trimmed, PadTo;
    var padded := PadTo(Trimmed(p), |p|);
    forall i | 0 <= i < |p|
      ensures padded[i] == if i < |Trimmed(p)| then p[i] else 0.0
    {
      PaddedAt(p, i);
    }
    if TrimsOnlyZeros(p) {
      assert padded == p;
    } else {
      var i :| |Trimmed(p)| <= i < |p| && p[i] != 0.0;
      assert padded[i] != p[i];
    }
  }

  /** The response in force is the trimmed one exactly when the two inner parts end in zeros where they are cut. */
  lemma InPartsIsExact(h: seq<real>, t: nat)
    requires |h| > 2 * t && h == Trimmed(h)
    ensures InParts(h, t) == h <==> TrimsOnlyZeros(h[..t]) && TrimsOnlyZeros(h[t..2 * t])
  {
    hide Trimmed, PadTo, TrimsOnlyZeros;
    LastPartStays(h, t);
    PaddedBack(h[..t]);
    PaddedBack(h[t..2 * t]);
    InThree(h, t);
    SamePieces(PadTo(Trimmed(h[..t]), t), PadTo(Trimmed(h[t..2 * t]), t), h[..t], h[t..2 * t], h[2 * t..]);
  }

  lemma InThree(h: seq<real>, t: nat)
    requires |h| >= 2 * t
    ensures h == h[..t] + h[t..2 * t] + h[2 * t..]
  {
  }

  lemma SamePieces(a: seq<real>, b: seq<real>, p: seq<real>, q: seq<real>, rest: seq<real>)
    requires |a| == |p| && |b| == |q|
    ensures a + b + rest == p + q + rest <==> a == p && b == q
  {
    var s, u := a + b + rest, p + q + rest;
    assert s[..|a|] == a && s[|a|..|a| + |b|] == b;
    assert u[..|a|] == p && u[|a|..|a| + |b|] == q;
  }

  lemma LastPartStays(h: seq<real>, t: nat)
    requires |h| > 2 * t && h == Trimmed(h)
    ensures Trimmed(h[2 * t..]) == h[2 * t..]
  {
    assert h[2 * t..][|h| - 2 * t - 1] == h[|h| - 1];
  }

  /** What that means for process, which plays InParts: it convolves every input with the trimmed response exactly
      when the inner parts end in zeros where they are cut. */
  lemma OutputIsThatOfTrimmed(h: seq<real>, t: nat)
    requires |h| > 2 * t && h == Trimmed(h)
    ensures (forall x: seq<real>, first: int, n: nat ::
        Response(InParts(h, t), x, first, n) == Response(h, x, first, n))
      <==> TrimsOnlyZeros(h[..t]) && TrimsOnlyZeros(h[t..2 * t])
  {
    hide Trimmed, TrimsOnlyZeros;
    InPartsIsExact(h, t);
    InPartsIsClose(h, t);
    var e := InParts(h, t);
    if forall x: seq<real>, first: int, n: nat :: Response(e, x, first, n) == Response(h, x, first, n) {
      assert Response(e, [1.0], 0, |h|) == Response(h, [1.0], 0, |h|);
      forall i | 0 <= i < |h|
        ensures e[i] == h[i]
      {
        ImpulseResponse(e, i);
        ImpulseResponse(h, i);
        assert Response(e, [1.0], 0, |h|)[i] == Conv(e, [1.0], 0 + i);
        assert Response(h, [1.0], 0, |h|)[i] == Conv(h, [1.0], 0 + i);
      }
      assert e == h;
    }
  }

  /** A small sample at the end of the head's part is lost, although it is not at the end of the response. */
  lemma SmallSampleLost()
    ensures var h := [0.0000005, 1.0, 1.0];
      h == Trimmed(h) && InParts(h, 1) == [0.0, 1.0, 1.0] && Conv(InParts(h, 1), [1.0], 0) != Conv(h, [1.0], 0)
  {
    var h := [0.0000005, 1.0, 1.0];
    assert h[..1] == [0.0000005] && h[1..2] == [1.0] && h[2..] == [1.0];
    assert Trimmed(h[..1]) == [];
    assert InParts(h, 1) == PadTo([], 1) + PadTo([1.0], 1) + [1.0] == [0.0, 1.0, 1.0];
    ImpulseResponse(h, 0);
    ImpulseResponse(InParts(h, 1), 0);
  }

  /** Before there is any input there is no response. */
  lemma SilentPast(h: seq<real>, first: int, n: nat)
    ensures Response(h, [], first, n) == Zeros(n)
  {
    var r := Response(h, [], first, n);
    forall k | 0 <= k < n
      ensures r[k] == 0.0
    {
      assert r[k] == Conv(h, [], first + k);
      PartialSumSilent(h, [], first + k, |h|);
    }
  }

  method NewConvolvers(transforms: nat -> Transform)
    returns (head: FFTConvolver, tail0: FFTConvolver, tail: FFTConvolver)
    ensures head.Valid() && tail0.Valid() && tail.Valid()
    ensures head in head.Repr && tail0 in tail0.Repr && tail in tail.Repr
    ensures fresh(head.Repr) && fresh(tail0.Repr) && fresh(tail.Repr)
    ensures head.Repr !! tail0.Repr && head.Repr !! tail.Repr && tail0.Repr !! tail.Repr
    ensures head.history == [] && head.ir == []
    ensures head.transforms == transforms && tail0.transforms == transforms && tail.transforms == transforms
  {
    hide FFTConvolver.Valid;
    head := new FFTConvolver(transforms);
    tail0 := new FFTConvolver(transforms);
    tail := new FFTConvolver(transforms);
    head.FillIsShort();
    tail0.FillIsShort();
    tail.FillIsShort();
  }

  /** Six silent sample buffers. */
  method NewBuffers(size: nat) returns (b: seq<array<real>>, ghost all: set<object>)
    ensures |b| == 6 && fresh(all) && forall i :: 0 <= i < 6 ==> b[i] in all
    ensures forall i, k :: 0 <= i < k < 6 ==> b[i] != b[k]
    ensures forall i :: 0 <= i < 6 ==> b[i].Length == size && b[i][..] == Zeros(size)
  {
    b, all := [], {};
    while |b| < 6
      invariant |b| <= 6 && fresh(all) && forall i :: 0 <= i < |b| ==> b[i] in all
      invariant forall i, k :: 0 <= i < k < |b| ==> b[i] != b[k]
      invariant forall i :: 0 <= i < |b| ==> b[i].Length == size && b[i][..] == Zeros(size)
    {
      var next := new real[size](_ => 0.0);
      assert next[..] == Zeros(size);
      assert next !in all;
      b, all := b + [next], all + {next};
    }
  }

  class TwoStageFFTConvolver {
    const headConvolver: FFTConvolver
    const tailConvolver0: FFTConvolver
    const tailConvolver: FFTConvolver
    var headBlockSize: nat
    var tailBlockSize: nat
    var tailOutput0: array<real>
    var tailPrecalculated0: array<real>
    var tailOutput: array<real>
    var tailPrecalculated: array<real>
    var tailInput: array<real>
    var tailInputFill: nat
    var precalculatedPos: nat
    var backgroundProcessingInput: array<real>
    ghost var history: seq<real>
    ghost var Repr: set<object>

    /** The six sample buffers. */
    ghost function Buffers(): set<object>
      reads this`tailOutput0, this`tailPrecalculated0, this`tailOutput, this`tailPrecalculated
      reads this`tailInput, this`backgroundProcessingInput
    {
      {tailOutput0, tailPrecalculated0, tailOutput, tailPrecalculated, tailInput, backgroundProcessingInput}
    }

    ghost predicate DistinctBuffers()
      reads this`tailOutput0, this`tailPrecalculated0, this`tailOutput, this`tailPrecalculated
      reads this`tailInput, this`backgroundProcessingInput
    {
      && tailOutput0 !in {tailPrecalculated0, tailOutput, tailPrecalculated, tailInput, backgroundProcessingInput}
      && tailPrecalculated0 !in {tailOutput, tailPrecalculated, tailInput, backgroundProcessingInput}
      && tailOutput !in {tailPrecalculated, tailInput, backgroundProcessingInput}
      && tailPrecalculated !in {tailInput, backgroundProcessingInput}
      && tailInput != backgroundProcessingInput
    }

    /** Nothing is shared between the three convolvers. */
    ghost predicate Apart()
      reads headConvolver, tailConvolver0, tailConvolver
    {
      && headConvolver in headConvolver.Repr && tailConvolver0 in tailConvolver0.Repr
      && tailConvolver in tailConvolver.Repr
      && headConvolver.Repr !! tailConvolver0.Repr && headConvolver.Repr !! tailConvolver.Repr
      && tailConvolver0.Repr !! tailConvolver.Repr
      && this !in headConvolver.Repr && this !in tailConvolver0.Repr && this !in tailConvolver.Repr
    }

    /** Nothing is shared between the buffers and the three convolvers. */
    ghost predicate Separate()
      reads this, headConvolver, tailConvolver0, tailConvolver
    {
      && DistinctBuffers() && Apart()
      && {this} + Buffers() + headConvolver.Repr + tailConvolver0.Repr + tailConvolver.Repr <= Repr
      && Buffers() !! headConvolver.Repr && Buffers() !! tailConvolver0.Repr && Buffers() !! tailConvolver.Repr
    }

    ghost predicate Convolvers()
      reads headConvolver, tailConvolver0, tailConvolver
      reads headConvolver.Repr, tailConvolver0.Repr, tailConvolver.Repr
    {
      headConvolver.Valid() && tailConvolver0.Valid() && tailConvolver.Valid()
    }

    /** Block sizes and buffer lengths after a successful init. */
    ghost predicate Sized()
      reads this, headConvolver, tailConvolver0
    {
      && 0 < headBlockSize && Multiple(tailBlockSize, headBlockSize) && tailInputFill < tailBlockSize
      && precalculatedPos == tailInputFill
      && tailOutput0.Length == tailBlockSize && tailPrecalculated0.Length == tailBlockSize
      && tailOutput.Length == tailBlockSize && tailPrecalculated.Length == tailBlockSize
      && tailInput.Length == tailBlockSize && backgroundProcessingInput.Length == tailBlockSize
      && |headConvolver.ir| <= tailBlockSize && |tailConvolver0.ir| <= tailBlockSize
    }

    /** The first tail has heard x up to base samples into the tail block at start, the second one up to start;
        their outputs, one and two tail blocks late, are in the buffers. */
    ghost predicate Heard(x: seq<real>, start: nat, base: nat)
      requires start + tailInputFill <= |x| && base <= tailInputFill
      requires tailInputFill <= tailInput.Length && tailInputFill <= tailOutput0.Length
      reads this, tailConvolver0, tailConvolver, Buffers()
    {
      && tailConvolver0.history == x[..start + base]
      && tailConvolver.history == x[..start]
      && tailInput[..tailInputFill] == x[start..start + tailInputFill]
      && tailPrecalculated0[..] == Response(tailConvolver0.ir, x, start - tailBlockSize, tailBlockSize)
      && tailOutput0[..base] == Response(tailConvolver0.ir, x, start, base)
      && tailPrecalculated[..] == Response(tailConvolver.ir, x, start - 2 * tailBlockSize, tailBlockSize)
      && tailOutput[..] == Response(tailConvolver.ir, x, start - tailBlockSize, tailBlockSize)
    }

    /** Between calls the first tail has heard all whole head blocks. */
    ghost predicate TailsKnown(x: seq<real>, start: nat)
      requires headBlockSize > 0 && start + tailInputFill <= |x|
      requires tailInputFill <= tailInput.Length && tailInputFill <= tailOutput0.Length
      reads this, tailConvolver0, tailConvolver, Buffers()
    {
      Heard(x, start, Whole(tailInputFill, headBlockSize))
    }

    ghost predicate Valid()
      reads this, Repr, headConvolver, tailConvolver0, tailConvolver
    {
      && Separate() && Convolvers()
      && headConvolver.history == history
      && (tailInput.Length == 0 ==> headConvolver.ir == [])
      && (tailInput.Length > 0 ==>
            Sized() && tailInputFill <= |history| && TailsKnown(history, |history| - tailInputFill))
    }

    /** The state of the tails when they have heard x. */
    ghost predicate Running(x: seq<real>)
      reads this, Repr, headConvolver, tailConvolver0, tailConvolver
    {
      && Separate() && Convolvers() && tailInput.Length > 0 && Sized() && tailInputFill <= |x|
      && TailsKnown(x, |x| - tailInputFill)
    }

    /** The impulse response in force. */
    ghost function Ir(): seq<real>
      requires tailInput.Length > 0 ==> Sized()
      reads this, headConvolver, tailConvolver0, tailConvolver
    {
      if tailInput.Length == 0 then [] else
        Effective(headConvolver.ir, tailConvolver0.ir, tailConvolver.ir, tailBlockSize)
    }

    constructor (transforms: nat -> Transform)
      ensures Valid() && fresh(Repr) && history == [] && tailInput.Length == 0
      ensures headConvolver.transforms == transforms
      ensures tailConvolver0.transforms == transforms && tailConvolver.transforms == transforms
    {
      hide FFTConvolver.Valid, Sized, TailsKnown, Zeros, Buffers, Separate;
      var head, tail0, tail := NewConvolvers(transforms);
      headConvolver, tailConvolver0, tailConvolver := head, tail0, tail;
      headBlockSize, tailBlockSize, tailInputFill, precalculatedPos := 0, 0, 0, 0;
      var none := new real[0];
      tailOutput0, tailPrecalculated0, tailInput := none, none, none;
      tailOutput, tailPrecalculated, backgroundProcessingInput := none, none, none;
      history, Repr := [], {};
      new;
      Resize(0);
      assert tailInput in BufferList();
    }

    // ---------- reset and init ----------

    ghost function BufferList(): seq<array<real>>
      reads this`tailOutput0, this`tailPrecalculated0, this`tailOutput, this`tailPrecalculated
      reads this`tailInput, this`backgroundProcessingInput
    {
      [tailOutput0, tailPrecalculated0, tailOutput, tailPrecalculated, tailInput, backgroundProcessingInput]
    }

    method ResetConvolvers()
      requires Apart()
      modifies headConvolver, tailConvolver0, tailConvolver
      ensures Apart() && Convolvers()
      ensures fresh(headConvolver.Repr - {headConvolver}) && fresh(tailConvolver0.Repr - {tailConvolver0})
      ensures fresh(tailConvolver.Repr - {tailConvolver})
      ensures headConvolver.ir == [] && headConvolver.history == []
    {
      hide FFTConvolver.Valid;
      headConvolver.Reset();
      tailConvolver0.Reset();
      tailConvolver.Reset();
      headConvolver.FillIsShort();
      tailConvolver0.FillIsShort();
      tailConvolver.FillIsShort();
    }

    /** Fresh silent buffers of size samples each. */
    method ResizeBuffers(size: nat)
      modifies this`tailOutput0, this`tailPrecalculated0, this`tailOutput, this`tailPrecalculated
      modifies this`tailInput, this`backgroundProcessingInput
      ensures fresh(Buffers()) && DistinctBuffers()
      ensures forall b :: b in BufferList() ==> b.Length == size && b[..] == Zeros(size)
    {
      hide Zeros;
      var b, all := NewBuffers(size);
      tailOutput0, tailPrecalculated0, tailOutput := b[0], b[1], b[2];
      tailPrecalculated, tailInput, backgroundProcessingInput := b[3], b[4], b[5];
    }

    /** The resize calls of init. */
    method Resize(size: nat)
      requires Apart() && Convolvers()
      modifies this`tailOutput0, this`tailPrecalculated0, this`tailOutput, this`tailPrecalculated
      modifies this`tailInput, this`backgroundProcessingInput, this`Repr
      ensures Separate() && Convolvers() && fresh(Buffers())
      ensures Repr == {this} + Buffers() + headConvolver.Repr + tailConvolver0.Repr + tailConvolver.Repr
      ensures forall b :: b in BufferList() ==> b.Length == size && b[..] == Zeros(size)
    {
      hide Zeros, Convolvers, Separate, Buffers, DistinctBuffers, BufferList;
      ResizeBuffers(size);
      Repr := {this} + Buffers() + headConvolver.Repr + tailConvolver0.Repr + tailConvolver.Repr;
      NowSeparate(Buffers());
    }

    lemma NowSeparate(all: set<object>)
      requires Apart() && DistinctBuffers() && Buffers() <= all
      requires all !! headConvolver.Repr && all !! tailConvolver0.Repr && all !! tailConvolver.Repr
      requires Repr == {this} + Buffers() + headConvolver.Repr + tailConvolver0.Repr + tailConvolver.Repr
      ensures Separate()
    {
      hide Buffers, DistinctBuffers;
    }

    method Reset()
      requires Valid()
      modifies this, headConvolver, tailConvolver0, tailConvolver
      ensures Valid() && fresh(Repr - {this, headConvolver, tailConvolver0, tailConvolver})
      ensures history == [] && tailInput.Length == 0 && headBlockSize == 0 && tailBlockSize == 0
    {
      hide FFTConvolver.Valid, Zeros, Sized, TailsKnown, DistinctBuffers, Convolvers, Buffers, Apart;
      assert Apart();
      headBlockSize, tailBlockSize, tailInputFill, precalculatedPos, history := 0, 0, 0, 0, [];
      ResetConvolvers();
      Resize(0);
      assert tailInput in BufferList();
    }

    /** Every transform the three stages may ask for is one the convolution theorem holds for. */
    ghost predicate TransformsFit() {
      forall k :: k > 0 ==>
        && ConvolutionTheorem(headConvolver.transforms(Pow2(k)), Pow2(k))
        && ConvolutionTheorem(tailConvolver0.transforms(Pow2(k)), Pow2(k))
        && ConvolutionTheorem(tailConvolver.transforms(Pow2(k)), Pow2(k))
    }

    /** The three parts of the response go to the three convolvers. */
    method InitConvolvers(h: nat, t: nat, response: array<real>, irLen: nat, ghost r: seq<real>)
      requires Apart() && TransformsFit()
      requires 0 < h && 0 < t && 2 * t < irLen <= response.Length && r == response[..irLen]
      modifies headConvolver, tailConvolver0, tailConvolver
      ensures Apart() && Convolvers()
      ensures fresh(headConvolver.Repr - {headConvolver}) && fresh(tailConvolver0.Repr - {tailConvolver0})
      ensures fresh(tailConvolver.Repr - {tailConvolver})
      ensures headConvolver.ir == Trimmed(r[..t]) && tailConvolver0.ir == Trimmed(r[t..2 * t])
      ensures tailConvolver.ir == Trimmed(r[2 * t..])
      ensures headConvolver.history == [] && tailConvolver0.history == [] && tailConvolver.history == []
    {
      hide FFTConvolver.Valid, ConvolutionTheorem, Trimmed, RoundedUp, Pow2;
      ThreeSlices(response[..], irLen, t);
      InitPart(headConvolver, h, response, 0, t, r[..t]);
      InitPart(tailConvolver0, h, response, t, t, r[t..2 * t]);
      InitPart(tailConvolver, t, response, 2 * t, irLen - 2 * t, r[2 * t..]);
    }

    /** One part of the response goes to one convolver. */
    method InitPart(c: FFTConvolver, b: nat, response: array<real>, first: nat, len: nat, ghost part: seq<real>)
      requires b > 0 && first + len <= response.Length && part == response[..][first..first + len]
      requires forall k :: k > 0 ==> ConvolutionTheorem(c.transforms(Pow2(k)), Pow2(k))
      modifies c
      ensures c.Valid() && c in c.Repr && fresh(c.Repr - {c}) && c.history == [] && c.ir == Trimmed(part)
    {
      hide FFTConvolver.Valid, ConvolutionTheorem, Trimmed, RoundedUp, Pow2;
      assert part == response[first..first + len];
      var _ := c.Init(b, response, first, len);
      c.FillIsShort();
    }

    /** The part of init that follows the checks. */
    method InitStages(h: nat, t: nat, response: array<real>, irLen: nat, ghost r: seq<real>)
      requires Apart() && TransformsFit()
      requires 0 < h && 0 < t && 2 * t < irLen <= response.Length && Multiple(t, h)
      requires r == response[..irLen]
      modifies this, headConvolver, tailConvolver0, tailConvolver
      ensures Valid() && fresh(Repr - {this, headConvolver, tailConvolver0, tailConvolver}) && history == []
      ensures tailInput.Length > 0 && headBlockSize == h && tailBlockSize == t && Sized()
      ensures Ir() == InParts(r, t)
    {
      hide FFTConvolver.Valid, Zeros, DistinctBuffers, Convolvers, Buffers, Apart, TransformsFit, Trimmed, Separate;
      hide TailsKnown, Heard, Sized, Effective, Multiple, BufferList, Valid;
      headBlockSize, tailBlockSize, tailInputFill, precalculatedPos, history := h, t, 0, 0, [];
      InitConvolvers(h, t, response, irLen, r);
      InitBuffers(t);
    }

    /** The buffers of init, for convolvers without a past. */
    method InitBuffers(t: nat)
      requires Apart() && Convolvers() && history == []
      requires headConvolver.history == [] && tailConvolver0.history == [] && tailConvolver.history == []
      requires tailBlockSize == t > 0 && headBlockSize > 0 && tailInputFill == precalculatedPos == 0
      requires Multiple(tailBlockSize, headBlockSize)
      requires |headConvolver.ir| <= t && |tailConvolver0.ir| <= t
      modifies this`tailOutput0, this`tailPrecalculated0, this`tailOutput, this`tailPrecalculated
      modifies this`tailInput, this`backgroundProcessingInput, this`Repr
      ensures Valid() && fresh(Buffers()) && tailInput.Length > 0 && Sized()
      ensures Repr == {this} + Buffers() + headConvolver.Repr + tailConvolver0.Repr + tailConvolver.Repr
      ensures Ir() == Effective(headConvolver.ir, tailConvolver0.ir, tailConvolver.ir, tailBlockSize)
    {
      hide FFTConvolver.Valid, Zeros, DistinctBuffers, Convolvers, Buffers, Apart, Separate, TailsKnown, Heard, Sized;
      hide Effective, Multiple, BufferList, Valid;
      Resize(t);
      InitialTails(t);
      NowValid();
    }

    lemma NowValid()
      requires headConvolver.history == history == [] && tailInputFill == 0
      requires Separate() && Convolvers() && Sized() && TailsKnown([], 0)
      ensures Valid() && tailInput.Length > 0
      ensures Ir() == Effective(headConvolver.ir, tailConvolver0.ir, tailConvolver.ir, tailBlockSize)
    {
      hide FFTConvolver.Valid, Separate, Convolvers, Heard, Multiple;
    }

    /** Silent buffers are what stages without a past would have left behind. */
    lemma InitialTails(t: nat)
      requires headConvolver.history == [] && tailConvolver0.history == [] && tailConvolver.history == []
      requires tailBlockSize == t > 0 && headBlockSize > 0 && tailInputFill == precalculatedPos == 0
      requires Multiple(tailBlockSize, headBlockSize)
      requires forall b :: b in BufferList() ==> b.Length == t && b[..] == Zeros(t)
      requires |headConvolver.ir| <= t && |tailConvolver0.ir| <= t
      ensures Sized() && TailsKnown([], 0)
    {
      hide Multiple, Zeros, Response;
      var list := BufferList();
      assert list[0] == tailOutput0 && list[1] == tailPrecalculated0 && list[2] == tailOutput;
      assert list[3] == tailPrecalculated && list[4] == tailInput && list[5] == backgroundProcessingInput;
      SilentPast(tailConvolver0.ir, 0 - t, t);
      SilentPast(tailConvolver.ir, 0 - 2 * t, t);
      SilentPast(tailConvolver.ir, 0 - t, t);
    }

    /** init: a head block size above the tail's is exchanged with it; a response that the trimming leaves with two
        tail blocks or less is refused, and then process stays silent. */
    method Init(newHeadBlockSize: nat, newTailBlockSize: nat, response: array<real>, len: nat) returns (ok: bool)
      requires Valid() && TransformsFit() && len <= response.Length
      modifies this, headConvolver, tailConvolver0, tailConvolver
      ensures Valid() && fresh(Repr - {this, headConvolver, tailConvolver0, tailConvolver}) && history == []
      ensures newHeadBlockSize == 0 || newTailBlockSize == 0 ==> !ok
      ensures newHeadBlockSize > 0 && newTailBlockSize > 0 ==>
        && RoundedUp(if newHeadBlockSize < newTailBlockSize then newHeadBlockSize else newTailBlockSize, headBlockSize)
        && RoundedUp(if newHeadBlockSize < newTailBlockSize then newTailBlockSize else newHeadBlockSize, tailBlockSize)
        && (ok <==> |Trimmed(response[..len])| > 2 * tailBlockSize)
      ensures ok ==> Ir() == InParts(Trimmed(response[..len]), tailBlockSize)
      ensures !ok ==> Ir() == []
    {
      hide FFTConvolver.Valid, Trimmed, TransformsFit, Pow2, Multiple, Effective, Apart, Valid, Convolvers, InParts;
      hide Sized, RoundedUp;
      Reset();
      ValidApart();
      if newHeadBlockSize == 0 || newTailBlockSize == 0 {
        return false;
      }
      var h, t := newHeadBlockSize, newTailBlockSize;
      if h > t {
        h, t := t, h;
      }
      assert response[0..len] == response[..len];
      var irLen := TrimmedLength(response, 0, len);
      assert response[0..irLen] == response[..irLen];
      var nextHead := NextPowerOf2(h);
      var nextTail := NextPowerOf2(t);
      RoundedUpPositive(h, nextHead);
      RoundedUpPositive(t, nextTail);
      HeadFitsTail(h, t, nextHead, nextTail);
      if irLen <= 2 * nextTail {
        SetBlockSizes(nextHead, nextTail);
        return false;
      }
      InitStages(nextHead, nextTail, response, irLen, Trimmed(response[..len]));
      ValidApart();
      return true;
    }

    lemma ValidApart()
      requires Valid()
      ensures Apart() && (tailInput.Length > 0 ==> Sized())
    {
      hide Apart, FFTConvolver.Valid;
    }

    method SetBlockSizes(h: nat, t: nat)
      requires Valid() && tailInput.Length == 0
      modifies this`headBlockSize, this`tailBlockSize
      ensures Valid() && headBlockSize == h && tailBlockSize == t
    {
      hide FFTConvolver.Valid;
      headBlockSize, tailBlockSize := h, t;
    }

    // ---------- The steps of process ----------

    /** Buffers the input of the tails. */
    method TakeInput(input: array<real>, inPos: nat, n: nat, ghost x: seq<real>, ghost start: nat)
      requires tailInputFill + n <= tailInput.Length && inPos + n <= input.Length && input != tailInput
      requires |x| == start + tailInputFill && tailInput[..tailInputFill] == x[start..start + tailInputFill]
      modifies this`tailInputFill, this`precalculatedPos, tailInput
      ensures tailInputFill == old(tailInputFill) + n && precalculatedPos == old(precalculatedPos) + n
      ensures tailInput[..tailInputFill] == (x + input[inPos..inPos + n])[start..start + tailInputFill]
    {
      hide Overwritten;
      precalculatedPos := precalculatedPos + n;
      ghost var was := tailInput[..];
      CopySamples(tailInput, tailInputFill, input, inPos, n);
      FillGrows(was, tailInputFill, input[inPos..inPos + n], x, start);
      tailInputFill := tailInputFill + n;
      assert tailInput[..tailInputFill] == tailInput[..][..tailInputFill];
    }

    /** First tail: runs on the head block that has just become full. */
    method RunTail0(ghost x: seq<real>, ghost start: nat, ghost base: nat)
      requires this !in tailConvolver0.Repr && tailConvolver0.Valid() && tailInput !in tailConvolver0.Repr
        && tailOutput0 !in tailConvolver0.Repr
      requires tailInput != tailOutput0 && tailOutput0.Length == tailInput.Length
      requires base + headBlockSize == tailInputFill <= tailInput.Length && |x| == start + tailInputFill
      requires tailConvolver0.history == x[..start + base]
      requires tailInput[..tailInputFill] == x[start..start + tailInputFill]
      requires tailOutput0[..base] == Response(tailConvolver0.ir, x, start, base)
      modifies tailConvolver0.Repr, tailOutput0
      ensures tailConvolver0.Valid() && tailConvolver0.Repr == old(tailConvolver0.Repr)
      ensures tailConvolver0.ir == old(tailConvolver0.ir) && tailConvolver0.history == x
      ensures tailOutput0[..tailInputFill] == Response(tailConvolver0.ir, x, start, tailInputFill)
    {
      hide FFTConvolver.Valid, Response;
      ghost var was := tailOutput0[..];
      var blockOffset := tailInputFill - headBlockSize;
      tailConvolver0.Process(tailInput, blockOffset, tailOutput0, blockOffset, headBlockSize);
      assert tailInput[blockOffset..tailInputFill] == x[start + base..];
      assert x[..start + base] + x[start + base..] == x;
      ResponseSlice(tailConvolver0.ir, x, start, tailInputFill, 0, base);
      ResponseSlice(tailConvolver0.ir, x, start, tailInputFill, base, headBlockSize);
      ghost var r := Response(tailConvolver0.ir, x, start, tailInputFill);
      assert r == r[0..base] + r[base..base + headBlockSize];
      assert tailOutput0[..tailInputFill] == was[..base] + Response(tailConvolver0.ir, x, start + base, headBlockSize);
    }

    /** Second tail, on a whole tail block: startBackgroundProcessing ends in doBackgroundProcessing. */
    method RunTail(ghost x: seq<real>, ghost start: nat)
      requires this !in tailConvolver.Repr && tailInput !in tailConvolver.Repr
      requires tailConvolver.Valid() && backgroundProcessingInput !in tailConvolver.Repr
        && tailOutput !in tailConvolver.Repr
      requires backgroundProcessingInput != tailOutput && tailInput != backgroundProcessingInput
      requires tailInput != tailOutput
      requires tailInput.Length == backgroundProcessingInput.Length == tailOutput.Length == tailBlockSize
      requires |x| == start + tailBlockSize && tailConvolver.history == x[..start]
      requires tailInput[..] == x[start..]
      modifies tailConvolver.Repr, tailOutput, backgroundProcessingInput
      ensures tailConvolver.Valid() && tailConvolver.Repr == old(tailConvolver.Repr)
      ensures tailConvolver.ir == old(tailConvolver.ir) && tailConvolver.history == x
      ensures tailOutput[..] == Response(tailConvolver.ir, x, start, tailBlockSize)
    {
      hide FFTConvolver.Valid, Response;
      CopySamples(backgroundProcessingInput, 0, tailInput, 0, tailBlockSize);
      assert tailInput[0..tailBlockSize] == tailInput[..];
      assert backgroundProcessingInput[..] == x[start..];
      tailConvolver.Process(backgroundProcessingInput, 0, tailOutput, 0, tailBlockSize);
      assert backgroundProcessingInput[0..tailBlockSize] == x[start..];
      assert x[..start] + x[start..] == x;
    }

    /** Buffer lengths and separation, whatever the fill. */
    ghost predicate Built()
      reads this, headConvolver, tailConvolver0, tailConvolver
    {
      && Separate() && 0 < headBlockSize <= tailBlockSize && precalculatedPos == tailInputFill <= tailBlockSize
      && tailOutput0.Length == tailBlockSize && tailPrecalculated0.Length == tailBlockSize
      && tailOutput.Length == tailBlockSize && tailPrecalculated.Length == tailBlockSize
      && tailInput.Length == tailBlockSize && backgroundProcessingInput.Length == tailBlockSize
    }

    /** Takes in n samples; the outputs computed so far stay what they are. */
    method HearMore(input: array<real>, inPos: nat, n: nat, ghost x: seq<real>, ghost start: nat, ghost base: nat)
      requires Built() && Convolvers() && |x| == start + tailInputFill && base <= tailInputFill && Heard(x, start, base)
      requires tailInputFill + n <= tailBlockSize && inPos + n <= input.Length && input !in Repr
      modifies this`tailInputFill, this`precalculatedPos, tailInput
      ensures Built() && Convolvers() && Unchanged() && tailInputFill == old(tailInputFill) + n
      ensures Heard(x + input[inPos..inPos + n], start, base)
    {
      hide FFTConvolver.Valid, Response;
      ghost var more, t := input[inPos..inPos + n], tailBlockSize;
      ResponseStays(tailConvolver0.ir, x, more, start - t, t);
      ResponseStays(tailConvolver0.ir, x, more, start, base);
      ResponseStays(tailConvolver.ir, x, more, start - 2 * t, t);
      ResponseStays(tailConvolver.ir, x, more, start - t, t);
      TakeInput(input, inPos, n, x, start);
      assert x[..start + base] == (x + more)[..start + base] && x[..start] == (x + more)[..start];
    }

    /** The two convolution sections of process for the first tail. */
    method RunFirst(ghost x: seq<real>, ghost start: nat, ghost base: nat)
      requires Built() && Convolvers() && |x| == start + tailInputFill && base + headBlockSize == tailInputFill
      requires Heard(x, start, base)
      modifies this`tailPrecalculated0, this`tailOutput0, tailConvolver0.Repr, tailOutput0
      ensures Built() && Convolvers() && Unchanged()
      ensures tailInputFill < tailBlockSize ==> Heard(x, start, tailInputFill)
      ensures tailInputFill == tailBlockSize ==> TurnedFirst(x, start)
    {
      hide FFTConvolver.Valid, Response;
      RunTail0(x, start, base);
      if tailInputFill == tailBlockSize {
        tailPrecalculated0, tailOutput0 := tailOutput0, tailPrecalculated0;
      }
    }

    /** The first tail has changed over to the next tail block, the second one has not yet. */
    ghost predicate TurnedFirst(x: seq<real>, start: nat)
      requires |x| == start + tailBlockSize
      reads this, tailConvolver0, tailConvolver, Buffers()
    {
      && tailConvolver0.history == x
      && tailConvolver.history == x[..start]
      && tailInput[..] == x[start..]
      && tailPrecalculated0[..] == Response(tailConvolver0.ir, x, start, tailBlockSize)
      && tailOutput[..] == Response(tailConvolver.ir, x, start - tailBlockSize, tailBlockSize)
    }

    /** Exchanges the second tail's finished output with the one that has been used up. */
    method SwapTail()
      requires Built() && Convolvers()
      modifies this`tailPrecalculated, this`tailOutput
      ensures Built() && Convolvers() && Unchanged()
      ensures tailPrecalculated == old(tailOutput) && tailOutput == old(tailPrecalculated)
    {
      hide FFTConvolver.Valid;
      tailPrecalculated, tailOutput := tailOutput, tailPrecalculated;
    }

    /** The second tail at the end of a tail block. */
    method RunSecond(ghost x: seq<real>, ghost start: nat)
      requires Built() && Convolvers() && tailInputFill == tailBlockSize && |x| == start + tailBlockSize
      requires TurnedFirst(x, start)
      modifies this`tailPrecalculated, this`tailOutput, this`tailInputFill, this`precalculatedPos
      modifies tailConvolver.Repr, tailPrecalculated, backgroundProcessingInput
      ensures Built() && Convolvers() && Unchanged()
      ensures tailInputFill == 0 && Heard(x, |x|, 0)
    {
      hide FFTConvolver.Valid, Response;
      SwapTail();
      RunTail(x, start);
      tailInputFill := 0;
      precalculatedPos := 0;
      assert Response(tailConvolver0.ir, x, |x|, 0) == [];
    }

    /** Everything in process that follows the sums, for one chunk. */
    method FeedTails(input: array<real>, inPos: nat, n: nat, ghost x: seq<real>)
      requires Running(x) && 0 < n <= headBlockSize - tailInputFill % headBlockSize
      requires inPos + n <= input.Length && input !in Repr
      modifies this, Buffers(), tailConvolver0.Repr, tailConvolver.Repr
      ensures Running(x + input[inPos..inPos + n]) && Unchanged()
    {
      hide Running, Response, Multiple, Heard, Built, Separate, Convolvers, Sized, TailsKnown, TurnedFirst, Whole;
      InRepr(x);
      RunningParts(x);
      ghost var start, fill := |x| - tailInputFill, tailInputFill;
      ghost var base, y := Whole(fill, headBlockSize), x + input[inPos..inPos + n];
      ChunkFits(fill, n);
      HearMore(input, inPos, n, x, start, base);
      assert start + tailInputFill == |y|;
      if tailInputFill % headBlockSize == 0 {
        RunFirst(y, start, base);
      }
      if tailInputFill == tailBlockSize {
        RunSecond(y, start);
      }
      PartsRun(y);
    }

    lemma RunningParts(x: seq<real>)
      requires Running(x)
      ensures Built() && Convolvers() && tailInputFill <= |x| && tailInputFill < tailBlockSize
        && Multiple(tailBlockSize, headBlockSize)
      ensures |headConvolver.ir| <= tailBlockSize && |tailConvolver0.ir| <= tailBlockSize
      ensures headBlockSize > 0 && tailInput.Length == tailBlockSize == tailOutput0.Length
      ensures Heard(x, |x| - tailInputFill, Whole(tailInputFill, headBlockSize))
    {
      hide Separate, Convolvers, Heard, Multiple;
      BlockFits();
    }

    lemma BlockFits()
      requires Sized()
      ensures headBlockSize <= tailBlockSize
    {
      assert 0 == 0 * headBlockSize;
      MultiplesStep(0, tailBlockSize, headBlockSize);
    }

    lemma PartsRun(x: seq<real>)
      requires Built() && Convolvers() && tailInputFill < tailBlockSize && Multiple(tailBlockSize, headBlockSize)
      requires |headConvolver.ir| <= tailBlockSize && |tailConvolver0.ir| <= tailBlockSize
      requires tailInputFill <= |x|
      requires Heard(x, |x| - tailInputFill, Whole(tailInputFill, headBlockSize))
      ensures Running(x)
    {
      hide Separate, Convolvers, Heard, Multiple;
    }

    /** A chunk never runs past the tail block. */
    lemma ChunkFits(fill: nat, n: nat)
      requires headBlockSize > 0 && Multiple(tailBlockSize, headBlockSize) && fill < tailBlockSize
      requires 0 < n <= headBlockSize - fill % headBlockSize
      ensures fill + n <= tailBlockSize && headBlockSize <= tailBlockSize
      ensures (fill + n) % headBlockSize == 0 ==> Whole(fill, headBlockSize) + headBlockSize == fill + n
      ensures (fill + n) % headBlockSize == 0 ==> Whole(fill + n, headBlockSize) == fill + n
      ensures Whole(0, headBlockSize) == 0
      ensures (fill + n) % headBlockSize != 0 ==>
        Whole(fill + n, headBlockSize) == Whole(fill, headBlockSize) && fill + n < tailBlockSize
    {
      WholeAfter(fill, n, headBlockSize);
      WholeIsMultiple(fill + n, headBlockSize);
      MultiplesStep(Whole(fill, headBlockSize), tailBlockSize, headBlockSize);
      if fill + n == tailBlockSize {
        var m: nat :| tailBlockSize == m * headBlockSize;
        DivModUnique(fill + n, headBlockSize, m, 0);
      }
    }

    /** The parts of the state that a chunk leaves alone. */
    twostate predicate Unchanged()
      reads this, headConvolver, tailConvolver0, tailConvolver
    {
      && Repr == old(Repr) && Buffers() == old(Buffers())
      && headBlockSize == old(headBlockSize) && tailBlockSize == old(tailBlockSize)
      && headConvolver.Repr == old(headConvolver.Repr) && headConvolver.ir == old(headConvolver.ir)
      && headConvolver.history == old(headConvolver.history)
      && tailConvolver0.Repr == old(tailConvolver0.Repr) && tailConvolver.Repr == old(tailConvolver.Repr)
      && tailConvolver0.ir == old(tailConvolver0.ir) && tailConvolver.ir == old(tailConvolver.ir)
      && tailInput == old(tailInput) && history == old(history)
    }

    /** The delayed outputs of both tails for the next n samples are waiting in the precalculated buffers. */
    lemma TailsReady(x: seq<real>, more: seq<real>, n: nat)
      requires Running(x) && 0 < n <= headBlockSize - tailInputFill % headBlockSize
      ensures precalculatedPos + n <= tailPrecalculated0.Length && precalculatedPos + n <= tailPrecalculated.Length
      ensures tailPrecalculated0[precalculatedPos..precalculatedPos + n]
        == Response(tailConvolver0.ir, x + more, |x| - tailBlockSize, n)
      ensures tailPrecalculated[precalculatedPos..precalculatedPos + n]
        == Response(tailConvolver.ir, x + more, |x| - 2 * tailBlockSize, n)
    {
      hide FFTConvolver.Valid, Response, Multiple, Separate, Convolvers;
      var pos, t := precalculatedPos, tailBlockSize;
      ChunkFits(tailInputFill, n);
      DelayedSlice(tailConvolver0.ir, x, more, tailPrecalculated0[..], |x| - pos - t, t, pos, n);
      DelayedSlice(tailConvolver.ir, x, more, tailPrecalculated[..], |x| - pos - 2 * t, t, pos, n);
    }

    lemma InRepr(x: seq<real>)
      requires Running(x)
      ensures {this, headConvolver, tailConvolver0, tailConvolver} + Buffers() <= Repr
      ensures headConvolver.Repr + tailConvolver0.Repr + tailConvolver.Repr <= Repr
      ensures tailPrecalculated0 in Buffers() && tailPrecalculated in Buffers()
      ensures this !in tailConvolver0.Repr && this !in tailConvolver.Repr
    {
      hide FFTConvolver.Valid, Sized, TailsKnown;
    }

    /** The sum section of process: both delayed tails are added to the head's output. */
    method AddTails(output: array<real>, processed: nat, n: nat, ghost x: seq<real>, ghost more: seq<real>)
      requires Running(x) && 0 < n <= headBlockSize - tailInputFill % headBlockSize
      requires processed + n <= output.Length && output !in Repr
      modifies output
      ensures Running(x)
      ensures output[..] == Overwritten(old(output[..]), processed,
        Sum3(old(output[processed..processed + n]),
             Response(tailConvolver0.ir, x + more, |x| - tailBlockSize, n),
             Response(tailConvolver.ir, x + more, |x| - 2 * tailBlockSize, n)))
    {
      hide Running, Overwritten, Response, AddSamples;
      ghost var o, pos := output[..], precalculatedPos;
      TailsReady(x, more, n);
      InRepr(x);
      AddDelayed(output, processed, n, tailPrecalculated0, precalculatedPos);
      ghost var o1 := output[..];
      AddDelayed(output, processed, n, tailPrecalculated, precalculatedPos);
      AddedTwice(o, o1, output[..], processed, n,
        Response(tailConvolver0.ir, x + more, |x| - tailBlockSize, n),
        Response(tailConvolver.ir, x + more, |x| - 2 * tailBlockSize, n));
    }

    /** One pass of the loop: the delayed tails are added to the head's output, then the tails are fed. */
    method ProcessChunk(input: array<real>, output: array<real>, processed: nat, n: nat, ghost x: seq<real>)
      requires Running(x) && 0 < n <= headBlockSize - tailInputFill % headBlockSize
      requires processed + n <= input.Length && processed + n <= output.Length
      requires input != output && input !in Repr && output !in Repr
      modifies this, Buffers(), tailConvolver0.Repr, tailConvolver.Repr, output
      ensures Running(x + input[processed..processed + n]) && Unchanged()
      ensures output[..] == Overwritten(old(output[..]), processed,
        Sum3(old(output[processed..processed + n]),
             Response(tailConvolver0.ir, x + input[processed..processed + n], |x| - tailBlockSize, n),
             Response(tailConvolver.ir, x + input[processed..processed + n], |x| - 2 * tailBlockSize, n)))
    {
      hide Running, Overwritten, Response, AddSamples, Sum3;
      InRepr(x);
      AddTails(output, processed, n, x, input[processed..processed + n]);
      FeedTails(input, processed, n, x);
    }

    /** One pass of the loop: n more samples of the output are those of the whole response. */
    method Pass(input: array<real>, output: array<real>, processed: nat, n: nat, len: nat, ghost first: nat,
                ghost x: seq<real>, ghost o: seq<real>, ghost effective: seq<real>)
      requires Running(x) && Sized() && effective == Ir() && 0 < n <= headBlockSize - tailInputFill % headBlockSize
      requires processed + n <= len <= input.Length && len <= output.Length == |o| && |x| == first + processed
      requires input != output && input !in Repr && output !in Repr
      requires o[..len] == Response(headConvolver.ir, x + input[processed..len], first, len)
      requires output[..] == Overwritten(o, 0, Response(effective, x, first, processed))
      modifies this, Buffers(), tailConvolver0.Repr, tailConvolver.Repr, output
      ensures Running(x + input[processed..processed + n]) && Unchanged()
      ensures output[..]
        == Overwritten(o, 0, Response(effective, x + input[processed..processed + n], first, processed + n))
    {
      hide Running, Overwritten, Response, Effective, Separate, Convolvers, Sized, TailsKnown, Sum3, AddSamples;
      hide Ir, Whole, Multiple, Buffers;
      ghost var head, tail0, tail, t := headConvolver.ir, tailConvolver0.ir, tailConvolver.ir, tailBlockSize;
      FillFits(x);
      InRepr(x);
      ghost var o1, more, rest := output[..], input[processed..processed + n], input[processed + n..len];
      assert input[processed..len] == more + rest;
      assert x + (more + rest) == x + more + rest;
      ProcessChunk(input, output, processed, n, x);
      PassStep(head, tail0, tail, t, x, more, rest, first, processed, n, o, o1, output[..], len);
    }

    /** The loop of process, after the head has written its part of the output. */
    method ProcessTails(input: array<real>, output: array<real>, len: nat, ghost x: seq<real>)
      requires Running(x) && len <= input.Length && len <= output.Length
      requires output[..len] == Response(headConvolver.ir, x + input[..len], |x|, len)
      requires input != output && input !in Repr && output !in Repr
      modifies this, Buffers(), tailConvolver0.Repr, tailConvolver.Repr, output
      ensures Running(x + input[..len]) && Unchanged() && Sized()
      ensures output[..] == Overwritten(old(output[..]), 0, Response(Ir(), x + input[..len], |x|, len))
    {
      hide Running, Overwritten, Response, Effective, Separate, Convolvers, Sized, TailsKnown, Sum3, AddSamples;
      hide Ir;
      ghost var o, y := output[..], x;
      FillFits(x);
      InRepr(x);
      ghost var effective := Ir();
      var processed := 0;
      FirstPass(o, input[..0], x, effective);
      while processed < len
        invariant processed <= len && Running(y) && |y| == |x| + processed && Unchanged()
        invariant y + input[processed..len] == x + input[..len]
        invariant output[..] == Overwritten(o, 0, Response(effective, y, |x|, processed))
      {
        FillFits(y);
        var room := headBlockSize - tailInputFill % headBlockSize;
        var n := if len - processed < room then len - processed else room;
        Pass(input, output, processed, n, len, |x|, y, o, effective);
        assert input[processed..len] == input[processed..processed + n] + input[processed + n..len];
        y, processed := y + input[processed..processed + n], processed + n;
      }
      FillFits(y);
      assert y == x + input[..len];
    }

    lemma FillFits(x: seq<real>)
      requires Running(x)
      ensures headBlockSize > 0 && tailInputFill % headBlockSize < headBlockSize
      ensures Sized() && |headConvolver.ir| <= tailBlockSize && |tailConvolver0.ir| <= tailBlockSize
      ensures Ir() == Effective(headConvolver.ir, tailConvolver0.ir, tailConvolver.ir, tailBlockSize)
    {
      hide Separate, Convolvers, TailsKnown;
    }

    /** The head's share of process. */
    method RunHead(input: array<real>, output: array<real>, len: nat)
      requires Valid() && len <= input.Length && len <= output.Length
      requires input != output && input !in Repr && output !in Repr
      modifies headConvolver.Repr, output
      ensures Separate() && Convolvers() && headConvolver.Repr == old(headConvolver.Repr)
      ensures tailInput.Length > 0 ==> Running(history)
      ensures headConvolver.history == history + input[..len] && headConvolver.ir == old(headConvolver.ir)
      ensures output[..] == Overwritten(old(output[..]), 0,
          Response(headConvolver.ir, headConvolver.history, |history|, len))
    {
      hide FFTConvolver.Valid, Overwritten, Response, TailsKnown, Multiple;
      headConvolver.Process(input, 0, output, 0, len);
      assert input[0..len] == input[..len];
    }

    /** process: for every split of the input, the output is direct convolution with the whole impulse response. */
    method Process(input: array<real>, output: array<real>, len: nat)
      requires Valid() && len <= input.Length && len <= output.Length
      requires input != output && input !in Repr && output !in Repr
      modifies Repr, output
      ensures Valid() && Repr == old(Repr) && Ir() == old(Ir())
      ensures history == old(history) + input[..len]
      ensures output[..] == Overwritten(old(output[..]), 0, Response(Ir(), history, |old(history)|, len))
    {
      hide FFTConvolver.Valid, Overwritten, Response, Effective, Sized, TailsKnown, Running;
      ghost var o, x, more := output[..], history, input[..len];
      ValidParts();
      RunHead(input, output, len);
      if tailInput.Length > 0 {
        FillFits(x);
        ghost var o1 := output[..];
        HeadDone(o, o1, Response(headConvolver.ir, x + more, |x|, len));
        ProcessTails(input, output, len, x);
        OverwrittenAgain(o, o1, Response(headConvolver.ir, x + more, |x|, len), Response(Ir(), x + more, |x|, len));
      }
      Remember(x + more);
    }

    lemma ValidParts()
      requires Valid()
      ensures {this, headConvolver, tailConvolver0, tailConvolver} + Buffers() <= Repr
      ensures headConvolver.Repr + tailConvolver0.Repr + tailConvolver.Repr <= Repr
      ensures {this} + Buffers() !! headConvolver.Repr
      ensures tailInput.Length == 0 ==> headConvolver.ir == []
      ensures tailInput.Length > 0 ==> Sized()
    {
      hide FFTConvolver.Valid;
    }

    /** Takes the input into the specification's account of the past. */
    ghost method Remember(x: seq<real>)
      requires x == headConvolver.history
      requires tailInput.Length > 0 ==> Running(x)
      requires tailInput.Length == 0 ==> Separate() && Convolvers() && headConvolver.ir == []
      modifies this`history
      ensures Valid() && history == x
    {
      hide FFTConvolver.Valid, Response, Multiple;
      history := x;
    }
  }

  lemma HeadDone(o: seq<real>, o1: seq<real>, r: seq<real>)
    requires |r| <= |o| && o1 == Overwritten(o, 0, r)
    ensures o1[..|r|] == r
  {
  }

  lemma OverwrittenAgain(o: seq<real>, o1: seq<real>, r: seq<real>, r1: seq<real>)
    requires |r| == |r1| <= |o| && o1 == Overwritten(o, 0, r)
    ensures Overwritten(o1, 0, r1) == Overwritten(o, 0, r1)
  {
  }

  lemma FirstPass(o: seq<real>, none: seq<real>, x: seq<real>, h: seq<real>)
    requires none == []
    ensures x + none == x && o == Overwritten(o, 0, Response(h, x, |x|, 0))
  {
  }

  lemma PassInput(o: seq<real>, o1: seq<real>, done: seq<real>, p: nat, n: nat, len: nat)
    requires |done| == p && p + n <= len <= |o| && o1 == Overwritten(o, 0, done)
    ensures o1[p..p + n] == o[..len][p..p + n]
  {
  }

  lemma PassSum(head: seq<real>, tail0: seq<real>, tail: seq<real>, t: nat,
                x: seq<real>, more: seq<real>, rest: seq<real>, first: nat, p: nat, n: nat, len: nat)
    requires |head| <= t && |tail0| <= t
    requires |x| == first + p && |more| == n && p + n <= len
    ensures Sum3(Response(head, x + more + rest, first, len)[p..p + n], Response(tail0, x + more, |x| - t, n),
                 Response(tail, x + more, |x| - 2 * t, n))
      == Response(Effective(head, tail0, tail, t), x + more, |x|, n)
  {
    hide Response, Effective, AddSamples;
    ResponseSlice(head, x + more + rest, first, len, p, n);
    ResponseStays(head, x + more, rest, |x|, n);
    ResponsesAddUp(head, tail0, tail, t, x + more, |x|, n);
  }

  /** One pass of the loop adds n samples of the full response to those that are done. */
  lemma PassStep(head: seq<real>, tail0: seq<real>, tail: seq<real>, t: nat,
                 x: seq<real>, more: seq<real>, rest: seq<real>, first: nat, p: nat, n: nat,
                 o: seq<real>, o1: seq<real>, o2: seq<real>, len: nat)
    requires |head| <= t && |tail0| <= t
    requires |x| == first + p && |more| == n && p + n + |rest| == len <= |o|
    requires o[..len] == Response(head, x + more + rest, first, len)
    requires o1 == Overwritten(o, 0, Response(Effective(head, tail0, tail, t), x, first, p))
    requires o2 == Overwritten(o1, p, Sum3(o1[p..p + n], Response(tail0, x + more, |x| - t, n),
                                           Response(tail, x + more, |x| - 2 * t, n)))
    ensures o2 == Overwritten(o, 0, Response(Effective(head, tail0, tail, t), x + more, first, p + n))
  {
    hide *;
    var h := Effective(head, tail0, tail, t);
    PassInput(o, o1, Response(h, x, first, p), p, n, len);
    PassSum(head, tail0, tail, t, x, more, rest, first, p, n, len);
    ResponseExtends(h, x, more, first, p, n);
    OverwrittenTwice(o, 0, Response(h, x, first, p), Response(h, x + more, |x|, n));
  }

  function Sum3(a: seq<real>, b: seq<real>, c: seq<real>): seq<real>
    requires |a| == |b| == |c|
  {
    AddSamples(AddSamples(a, b), c)
  }

  /** What stands in a precalculated buffer from pos on is the delayed response to the input so far. */
  lemma DelayedSlice(h: seq<real>, x: seq<real>, more: seq<real>, buffer: seq<real>, first: int, t: nat, pos: nat,
                     n: nat)
    requires buffer == Response(h, x, first, t) && pos + n <= t && first + t <= |x|
    ensures buffer[pos..pos + n] == Response(h, x + more, first + pos, n)
  {
    ResponseSlice(h, x, first, t, pos, n);
    ResponseStays(h, x, more, first + pos, n);
  }

  lemma AddedTwice(o: seq<real>, o1: seq<real>, o2: seq<real>, r: nat, n: nat, b: seq<real>, c: seq<real>)
    requires r + n <= |o| && |b| == |c| == n
    requires o1 == Overwritten(o, r, AddSamples(o[r..r + n], b))
    requires o2 == Overwritten(o1, r, AddSamples(o1[r..r + n], c))
    ensures o2 == Overwritten(o, r, Sum3(o[r..r + n], b, c))
  {
    assert o1[r..r + n] == AddSamples(o[r..r + n], b);
  }

  /** output[first..first+n] += delayed[pos..pos+n] */
  method AddDelayed(output: array<real>, first: nat, n: nat, delayed: array<real>, pos: nat)
    requires first + n <= output.Length && pos + n <= delayed.Length && output != delayed
    modifies output
    ensures output[..] == Overwritten(old(output[..]), first,
        AddSamples(old(output[first..first + n]), delayed[pos..pos + n]))
  {
    var precalculatedPos := pos;
    var i := first;
    while i < first + n
      invariant first <= i <= first + n && precalculatedPos == pos + (i - first)
      invariant forall k :: 0 <= k < output.Length ==>
        output[k] == if first <= k < i then old(output[k]) + delayed[pos + (k - first)] else old(output[k])
    {
      output[i] := output[i] + delayed[precalculatedPos];
      precalculatedPos := precalculatedPos + 1;
      i := i + 1;
    }
    ghost var sum := AddSamples(old(output[first..first + n]), delayed[pos..pos + n]);
    assert forall k :: first <= k < first + n ==> output[k] == sum[k - first];
    assert output[..] == Overwritten(old(output[..]), first, sum);
  }
}
