/** Causal convolution over exact samples, cut into blocks of the input and parts of the impulse response. */
module Convolution {

  /** Sample i of a signal that is silent outside its range. */
  function At(x: seq<real>, i: int): real {
    if 0 <= i < |x| then x[i] else 0.0
  }

  function Times(a: real, b: real): real {
    a * b
  }

  lemma TimesAdds(a: real, u: real, v: real)
    ensures Times(a, u + v) == Times(a, u) + Times(a, v)
    ensures Times(0.0, u) == 0.0 && Times(a, 0.0) == 0.0 && Times(a, 1.0) == a
  {
  }

  /** The first m terms of the convolution sum at time n. */
  function PartialSum(h: seq<real>, x: seq<real>, n: int, m: nat): real
    requires m <= |h|
  {
    if m == 0 then 0.0 else PartialSum(h, x, n, m - 1) + Times(h[m - 1], At(x, n - (m - 1)))
  }

  /** Direct convolution: sample n of the response of h to x. */
  function Conv(h: seq<real>, x: seq<real>, n: int): real {
    PartialSum(h, x, n, |h|)
  }

  function Zeros(n: nat): (z: seq<real>)
    ensures |z| == n && forall i :: 0 <= i < n ==> z[i] == 0.0
  {
    seq(n, _ => 0.0)
  }

  function PadTo(x: seq<real>, n: nat): (r: seq<real>)
    requires |x| <= n
    ensures |r| == n
  {
    x + Zeros(n - |x|)
  }

  lemma {:induction false} PartialSumPrefix(g: seq<real>, h: seq<real>, x: seq<real>, y: seq<real>, n: int, m: nat)
    requires m <= |g| && m <= |h| && forall k :: 0 <= k < m ==> g[k] == h[k]
    requires forall i :: n - m < i <= n ==> At(x, i) == At(y, i)
    ensures PartialSum(g, x, n, m) == PartialSum(h, y, n, m)
  {
    if m > 0 {
      PartialSumPrefix(g, h, x, y, n, m - 1);
    }
  }

  /** The response at time n depends on the input up to n only. */
  lemma ConvCausal(h: seq<real>, x: seq<real>, y: seq<real>, n: int)
    requires forall i :: i <= n ==> At(x, i) == At(y, i)
    ensures Conv(h, x, n) == Conv(h, y, n)
  {
    PartialSumPrefix(h, h, x, y, n, |h|);
  }

  lemma ConvExtendInput(h: seq<real>, x: seq<real>, y: seq<real>, n: int)
    requires n < |x|
    ensures Conv(h, x + y, n) == Conv(h, x, n)
  {
    ConvCausal(h, x + y, x, n);
  }

  lemma {:induction false} PartialSumSilent(h: seq<real>, x: seq<real>, n: int, m: nat)
    requires m <= |h| && forall i :: n - m < i <= n ==> At(x, i) == 0.0
    ensures PartialSum(h, x, n, m) == 0.0
  {
    if m > 0 {
      PartialSumSilent(h, x, n, m - 1);
    }
  }

  lemma {:induction false} PartialSumAppend(g: seq<real>, h: seq<real>, x: seq<real>, n: int, m: nat)
    requires m <= |h|
    ensures PartialSum(g + h, x, n, |g| + m) == Conv(g, x, n) + PartialSum(h, x, n - |g|, m)
  {
    if m == 0 {
      PartialSumPrefix(g + h, g, x, x, n, |g|);
    } else {
      PartialSumAppend(g, h, x, n, m - 1);
      assert (g + h)[|g| + m - 1] == h[m - 1];
    }
  }

  /** A response in two parts: the second one acts |g| samples later. */
  lemma ConvAppend(g: seq<real>, h: seq<real>, x: seq<real>, n: int)
    ensures Conv(g + h, x, n) == Conv(g, x, n) + Conv(h, x, n - |g|)
  {
    PartialSumAppend(g, h, x, n, |h|);
  }

  lemma {:induction false} PartialSumZero(h: seq<real>, x: seq<real>, n: int, m: nat)
    requires m <= |h| && forall k :: 0 <= k < m ==> h[k] == 0.0
    ensures PartialSum(h, x, n, m) == 0.0
  {
    if m > 0 {
      PartialSumZero(h, x, n, m - 1);
    }
  }

  /** Zeros at the end of a response change nothing. */
  lemma ConvPad(h: seq<real>, x: seq<real>, n: int, size: nat)
    requires |h| <= size
    ensures Conv(PadTo(h, size), x, n) == Conv(h, x, n)
  {
    var z := Zeros(size - |h|);
    ConvAppend(h, z, x, n);
    PartialSumZero(z, x, n - |h|, |z|);
  }

  lemma {:induction false} PartialImpulse(h: seq<real>, n: nat, m: nat)
    requires m <= |h|
    ensures PartialSum(h, [1.0], n, m) == if n < m then h[n] else 0.0
  {
    if m > 0 {
      PartialImpulse(h, n, m - 1);
      assert At([1.0], n - (m - 1)) == if n == m - 1 then 1.0 else 0.0;
    }
  }

  /** The response to a single one is the response itself. */
  lemma ImpulseResponse(h: seq<real>, n: nat)
    requires n < |h|
    ensures Conv(h, [1.0], n) == h[n]
  {
    PartialImpulse(h, n, |h|);
  }

  // ---------- Blocks ----------

  /** b samples of x from start on, silence where there are none. */
  function Block(x: seq<real>, start: int, b: nat): (r: seq<real>)
    ensures |r| == b
  {
    seq(b, q requires 0 <= q < b => At(x, start + q))
  }

  lemma BlockAt(x: seq<real>, start: int, b: nat, q: int)
    ensures At(Block(x, start, b), q) == if 0 <= q < b then At(x, start + q) else 0.0
  {
  }

  lemma {:induction false} PartialSumTwoBlocks(a: seq<real>, x: seq<real>, start: int, b: nat, p: nat, m: nat)
    requires m <= |a| <= b && p < b
    ensures PartialSum(a, x, start + p, m) ==
      PartialSum(a, Block(x, start, b), p, m) + PartialSum(a, Block(x, start - b, b), b + p, m)
  {
    hide Times, Block;
    if m > 0 {
      PartialSumTwoBlocks(a, x, start, b, p, m - 1);
      var k := m - 1;
      BlockAt(x, start, b, p - k);
      BlockAt(x, start - b, b, b + p - k);
      TimesAdds(a[k], At(Block(x, start, b), p - k), At(Block(x, start - b, b), b + p - k));
    }
  }

  /** Overlap-add: a response of at most b samples meets the current block and the tail of the one before. */
  lemma ConvTwoBlocks(a: seq<real>, x: seq<real>, start: int, b: nat, p: nat)
    requires |a| <= b && p < b
    ensures Conv(a, x, start + p) == Conv(a, Block(x, start, b), p) + Conv(a, Block(x, start - b, b), b + p)
  {
    PartialSumTwoBlocks(a, x, start, b, p, |a|);
  }

  // ---------- Partitioned response ----------

  /** Part i of the response, b samples, padded with zeros. */
  function Part(h: seq<real>, i: nat, b: nat): (r: seq<real>)
    ensures |r| == b
  {
    Block(h, i * b, b)
  }

  /** Where the block i blocks before the one at start begins. */
  function Back(start: int, i: nat, b: nat): int {
    start - i * b
  }

  lemma BackSteps(start: int, i: nat, b: nat)
    ensures Back(start, 0, b) == start
    ensures Back(start, i, b) <= start
    ensures Back(start + b, i + 1, b) == Back(start, i, b)
    ensures Back(start, i + 1, b) == Back(start, i, b) - b == Back(start - b, i, b)
  {
    assert (i + 1) * b == i * b + b;
  }

  /** Sum over parts i in [lo, hi) of part i acting on the block i blocks before start, at position q. */
  function PartsSum(h: seq<real>, x: seq<real>, b: nat, start: int, q: int, lo: nat, hi: nat): real
    requires lo <= hi
    decreases hi
  {
    if lo == hi then 0.0 else
      PartsSum(h, x, b, start, q, lo, hi - 1)
      + Conv(Part(h, hi - 1, b), Block(x, Back(start, hi - 1, b), b), q)
  }

  lemma OneMoreBlock(t: nat, b: nat)
    ensures (t + 1) * b == t * b + b
  {
  }

  lemma BlockSplits(h: seq<real>, n: nat, b: nat)
    ensures Block(h, 0, n + b) == Block(h, 0, n) + Block(h, n, b)
  {
    var u, v := Block(h, 0, n + b), Block(h, 0, n) + Block(h, n, b);
    forall q | 0 <= q < n + b
      ensures u[q] == v[q]
    {
      assert u[q] == At(h, 0 + q);
    }
  }

  lemma BlockIsPad(h: seq<real>, n: nat)
    requires |h| <= n
    ensures Block(h, 0, n) == PadTo(h, n)
  {
    var u, v := Block(h, 0, n), PadTo(h, n);
    forall q | 0 <= q < n
      ensures u[q] == v[q]
    {
      assert u[q] == At(h, 0 + q);
    }
  }

  lemma NoBlocks(h: seq<real>, x: seq<real>, b: nat, n: int)
    ensures 0 * b == 0 && Conv(Block(h, 0, 0), x, n) == 0.0
  {
  }

  lemma {:induction false} PartsOfConv(h: seq<real>, x: seq<real>, b: nat, start: int, p: nat, s: nat)
    requires b > 0 && p < b && s * b <= |h| + b
    ensures Conv(Block(h, 0, s * b), x, start + p) ==
      PartsSum(h, x, b, start, p, 0, s) + PartsSum(h, x, b, start - b, b + p, 0, s)
  {
    hide Conv, Block;
    if s == 0 {
      NoBlocks(h, x, b, start + p);
    } else {
      var t := s - 1;
      OneMoreBlock(t, b);
      PartsOfConv(h, x, b, start, p, t);
      BlockSplits(h, t * b, b);
      ConvAppend(Block(h, 0, t * b), Part(h, t, b), x, start + p);
      BackSteps(start, t, b);
      ConvTwoBlocks(Part(h, t, b), x, Back(start, t, b), b, p);
    }
  }

  /** count parts of b samples are just enough for len. */
  predicate Tiles(count: nat, b: nat, len: nat) {
    count * b <= len + b && len <= count * b
  }

  /** Uniformly partitioned overlap-add convolution is direct convolution. */
  lemma PartitionedConv(h: seq<real>, x: seq<real>, b: nat, start: int, p: nat, s: nat)
    requires b > 0 && p < b && Tiles(s, b, |h|)
    ensures Conv(h, x, start + p) ==
      PartsSum(h, x, b, start, p, 0, s) + PartsSum(h, x, b, start - b, b + p, 0, s)
  {
    hide Conv, Block;
    PartsOfConv(h, x, b, start, p, s);
    BlockIsPad(h, s * b);
    ConvPad(h, x, start + p, s * b);
  }

  // ---------- Circular convolution of padded blocks ----------

  function Wrap(i: int, n: nat): int
    requires n > 0
  {
    if i < 0 then i + n else i
  }

  function CircularSum(a: seq<real>, x: seq<real>, q: int, m: nat): real
    requires |a| == |x| && m <= |a|
  {
    if m == 0 then 0.0
    else CircularSum(a, x, q, m - 1) + Times(a[m - 1], At(x, Wrap(q - (m - 1), |x|)))
  }

  /** Circular convolution of two signals of the same length. */
  function Circular(a: seq<real>, x: seq<real>): (r: seq<real>)
    requires |a| == |x|
    ensures |r| == |a|
  {
    seq(|a|, q requires 0 <= q < |a| => CircularSum(a, x, q, |a|))
  }

  lemma {:induction false} CircularSumOfPads(a: seq<real>, x: seq<real>, q: int, m: nat)
    requires |a| == |x| && m <= 2 * |a| && 0 <= q < 2 * |a|
    ensures CircularSum(PadTo(a, 2 * |a|), PadTo(x, 2 * |a|), q, m) ==
      PartialSum(a, x, q, if m < |a| then m else |a|)
  {
    if m > 0 {
      CircularSumOfPads(a, x, q, m - 1);
      var k := m - 1;
      if k < |a| {
        assert PadTo(a, 2 * |a|)[k] == a[k];
        assert At(PadTo(x, 2 * |a|), Wrap(q - k, 2 * |a|)) == At(x, q - k);
      } else {
        assert PadTo(a, 2 * |a|)[k] == 0.0;
      }
    }
  }

  /** Twice the block length is room enough: the circular product of padded blocks does not wrap. */
  lemma CircularOfPads(a: seq<real>, x: seq<real>, q: nat)
    requires |a| == |x| && q < 2 * |a|
    ensures Circular(PadTo(a, 2 * |a|), PadTo(x, 2 * |a|))[q] == Conv(a, x, q)
  {
    CircularSumOfPads(a, x, q, 2 * |a|);
  }
}
