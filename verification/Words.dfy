/** Bit reversal of 32-bit words: the mask-and-shift code, and what it does to the value. */
module Words {
  import opened PowersOfTwo

  /** The low k bits of n in reverse order. */
  function Rev(n: nat, k: nat): nat
  {
    if k == 0 then 0 else Shl(n % 2, k - 1) + Rev(n / 2, k - 1)
  }

  lemma {:induction false} RevBound(n: nat, k: nat)
    ensures Rev(n, k) < Pow2(k)
  {
    if k > 0 {
      RevBound(n / 2, k - 1);
      ShlOne(k - 1);
    }
  }

  lemma {:induction false} RevZero(k: nat)
    ensures Rev(0, k) == 0
  {
    if k > 0 {
      RevZero(k - 1);
      ShlOne(k - 1);
    }
  }

  /** Reversing swaps the low field of j bits with the rest. */
  lemma {:induction false} RevSplit(n: nat, j: nat, k: nat)
    requires j <= k
    ensures Rev(n, k) == Rev(High(n, j), k - j) + Shl(Rev(Low(n, j), j), k - j)
  {
    hide Pow2;
    if j > 0 {
      var b, r := n % 2, Rev(Low(n / 2, j - 1), j - 1);
      RevSplit(n / 2, j - 1, k - 1);
      LowStep(n, j);
      ShlAdd(Shl(b, j - 1), r, k - j);
      ShlShl(b, j - 1, k - j);
    } else {
      ShlOne(k);
    }
  }

  lemma {:induction false} RevInvolution(n: nat, k: nat)
    requires n < Pow2(k)
    ensures Rev(Rev(n, k), k) == n
  {
    hide Pow2;
    if k > 0 {
      Pow2Step(k);
      var lo, hi := Rev(n / 2, k - 1), n % 2;
      RevBound(n / 2, k - 1);
      RevInvolution(n / 2, k - 1);
      LowHighOfSum(lo, k - 1, hi);
      RevSplit(Rev(n, k), k - 1, k);
      OneBit(hi);
      OneBit(n / 2);
    } else {
      Pow2Zero();
    }
  }

  lemma OneBit(b: nat)
    ensures b < 2 ==> Rev(b, 1) == b
    ensures Shl(b, 1) == 2 * b
  {
    assert Shl(b, 1) == 2 * Shl(b, 0);
  }

  /** A word ends (LSB first) in the l-bit codeword w exactly when its reversal lies in w's interval. */
  lemma MatchIffInInterval(acc: nat, w: nat, l: nat, k: nat)
    requires l <= k && w < Pow2(l)
    ensures Low(acc, l) == w <==> Rev(w, k) <= Rev(acc, k) < Rev(w, k) + Pow2(k - l)
  {
    var a, b := Rev(Low(acc, l), l), Rev(w, l);
    RevSplit(acc, l, k);
    RevBound(High(acc, l), k - l);
    RevOfShort(w, l, k);
    if a == b {
      RevInvolution(w, l);
      RevInvolution(Low(acc, l), l);
    } else if a < b {
      ShlStrict(a, b, k - l);
    } else {
      ShlStrict(b, a, k - l);
    }
  }

  lemma RevOfShort(w: nat, l: nat, k: nat)
    requires l <= k && w < Pow2(l)
    ensures Rev(w, k) == Shl(Rev(w, l), k - l)
  {
    RevSplit(w, l, k);
    LowOfSmall(w, l);
    RevZero(k - l);
  }

  /** A left-aligned code of length l becomes a number of l bits. */
  lemma RevOfAligned(code: nat, l: nat, k: nat)
    requires l <= k && Low(code, k - l) == 0
    ensures Rev(code, k) < Pow2(l)
  {
    hide *;
    var j := k - l;
    assert k - j == l;
    RevSplit(code, j, k);
    RevZero(j);
    ShlOne(l);
    RevBound(High(code, j), l);
  }

  // ---------- The 32-bit code ----------

  function BitReverse(x: bv32): bv32
  {
    var n := ((x & 0xAAAAAAAA) >> 1) | ((x & 0x55555555) << 1);
    var n := ((n & 0xCCCCCCCC) >> 2) | ((n & 0x33333333) << 2);
    var n := ((n & 0xF0F0F0F0) >> 4) | ((n & 0x0F0F0F0F) << 4);
    var n := ((n & 0xFF00FF00) >> 8) | ((n & 0x00FF00FF) << 8);
    (n >> 16) | (n << 16)
  }

  /** Bit i of a word. */
  predicate Bit(x: bv32, i: nat)
    requires i < 32
  {
    if i == 0 then x & 0x1 != 0
    else if i == 1 then x & 0x2 != 0
    else if i == 2 then x & 0x4 != 0
    else if i == 3 then x & 0x8 != 0
    else if i == 4 then x & 0x10 != 0
    else if i == 5 then x & 0x20 != 0
    else if i == 6 then x & 0x40 != 0
    else if i == 7 then x & 0x80 != 0
    else if i == 8 then x & 0x100 != 0
    else if i == 9 then x & 0x200 != 0
    else if i == 10 then x & 0x400 != 0
    else if i == 11 then x & 0x800 != 0
    else if i == 12 then x & 0x1000 != 0
    else if i == 13 then x & 0x2000 != 0
    else if i == 14 then x & 0x4000 != 0
    else if i == 15 then x & 0x8000 != 0
    else if i == 16 then x & 0x1_0000 != 0
    else if i == 17 then x & 0x2_0000 != 0
    else if i == 18 then x & 0x4_0000 != 0
    else if i == 19 then x & 0x8_0000 != 0
    else if i == 20 then x & 0x10_0000 != 0
    else if i == 21 then x & 0x20_0000 != 0
    else if i == 22 then x & 0x40_0000 != 0
    else if i == 23 then x & 0x80_0000 != 0
    else if i == 24 then x & 0x100_0000 != 0
    else if i == 25 then x & 0x200_0000 != 0
    else if i == 26 then x & 0x400_0000 != 0
    else if i == 27 then x & 0x800_0000 != 0
    else if i == 28 then x & 0x1000_0000 != 0
    else if i == 29 then x & 0x2000_0000 != 0
    else if i == 30 then x & 0x4000_0000 != 0
    else x & 0x8000_0000 != 0
  }

  /** The bits of a word, least significant first. */
  function Bits(x: bv32): (b: seq<bool>)
    ensures |b| == 32
  {
    seq(32, i requires 0 <= i < 32 => Bit(x, i))
  }

  /** Bit i of y is bit 31-i of x, for each i. */
  predicate Mirrored(x: bv32, y: bv32) {
    && (y & 0x1 != 0) == (x & 0x8000_0000 != 0)
    && (y & 0x2 != 0) == (x & 0x4000_0000 != 0)
    && (y & 0x4 != 0) == (x & 0x2000_0000 != 0)
    && (y & 0x8 != 0) == (x & 0x1000_0000 != 0)
    && (y & 0x10 != 0) == (x & 0x800_0000 != 0)
    && (y & 0x20 != 0) == (x & 0x400_0000 != 0)
    && (y & 0x40 != 0) == (x & 0x200_0000 != 0)
    && (y & 0x80 != 0) == (x & 0x100_0000 != 0)
    && (y & 0x100 != 0) == (x & 0x80_0000 != 0)
    && (y & 0x200 != 0) == (x & 0x40_0000 != 0)
    && (y & 0x400 != 0) == (x & 0x20_0000 != 0)
    && (y & 0x800 != 0) == (x & 0x10_0000 != 0)
    && (y & 0x1000 != 0) == (x & 0x8_0000 != 0)
    && (y & 0x2000 != 0) == (x & 0x4_0000 != 0)
    && (y & 0x4000 != 0) == (x & 0x2_0000 != 0)
    && (y & 0x8000 != 0) == (x & 0x1_0000 != 0)
    && (y & 0x1_0000 != 0) == (x & 0x8000 != 0)
    && (y & 0x2_0000 != 0) == (x & 0x4000 != 0)
    && (y & 0x4_0000 != 0) == (x & 0x2000 != 0)
    && (y & 0x8_0000 != 0) == (x & 0x1000 != 0)
    && (y & 0x10_0000 != 0) == (x & 0x800 != 0)
    && (y & 0x20_0000 != 0) == (x & 0x400 != 0)
    && (y & 0x40_0000 != 0) == (x & 0x200 != 0)
    && (y & 0x80_0000 != 0) == (x & 0x100 != 0)
    && (y & 0x100_0000 != 0) == (x & 0x80 != 0)
    && (y & 0x200_0000 != 0) == (x & 0x40 != 0)
    && (y & 0x400_0000 != 0) == (x & 0x20 != 0)
    && (y & 0x800_0000 != 0) == (x & 0x10 != 0)
    && (y & 0x1000_0000 != 0) == (x & 0x8 != 0)
    && (y & 0x2000_0000 != 0) == (x & 0x4 != 0)
    && (y & 0x4000_0000 != 0) == (x & 0x2 != 0)
    && (y & 0x8000_0000 != 0) == (x & 0x1 != 0)
  }

  lemma BitReverseMirrors(x: bv32)
    ensures Mirrored(x, BitReverse(x))
  {
  }

  lemma MirroredBit(x: bv32, y: bv32, i: nat)
    requires i < 32 && Mirrored(x, y)
    ensures Bit(y, i) == Bit(x, 31 - i)
  {
    hide Mirrored, Bit;
    if i < 16 {
      MirroredLowBit(x, y, i);
    } else {
      MirroredSwaps(x, y);
      MirroredLowBit(y, x, 31 - i);
    }
  }

  lemma MirroredSwaps(x: bv32, y: bv32)
    requires Mirrored(x, y)
    ensures Mirrored(y, x)
  {
  }

  lemma MirroredLowBit(x: bv32, y: bv32, i: nat)
    requires i < 16 && Mirrored(x, y)
    ensures Bit(y, i) == Bit(x, 31 - i)
  {
    hide Mirrored, Bit;
    if i < 8 {
      MirroredFirstByte(x, y, i);
    } else if i < 12 {
      MirroredThirdNibble(x, y, i);
    } else {
      MirroredFourthNibble(x, y, i);
    }
  }

  lemma MirroredFirstByte(x: bv32, y: bv32, i: nat)
    requires i < 8 && Mirrored(x, y)
    ensures Bit(y, i) == Bit(x, 31 - i)
  {
    if i < 4 {
    }
  }

  lemma MirroredThirdNibble(x: bv32, y: bv32, i: nat)
    requires 8 <= i < 12 && Mirrored(x, y)
    ensures Bit(y, i) == Bit(x, 31 - i)
  {
  }

  lemma MirroredFourthNibble(x: bv32, y: bv32, i: nat)
    requires 12 <= i < 16 && Mirrored(x, y)
    ensures Bit(y, i) == Bit(x, 31 - i)
  {
  }

  lemma MirroredBits(x: bv32, y: bv32)
    requires Mirrored(x, y)
    ensures Bits(y) == Backwards(Bits(x))
  {
    forall i | 0 <= i < 32
      ensures Bits(y)[i] == Bits(x)[31 - i]
    {
      MirroredBit(x, y, i);
    }
  }

  function NatOf(b: seq<bool>): nat
  {
    if b == [] then 0 else (if b[0] then 1 else 0) + 2 * NatOf(b[1..])
  }

  function Backwards(b: seq<bool>): (r: seq<bool>)
  {
    seq(|b|, k requires 0 <= k < |b| => b[|b| - 1 - k])
  }

  lemma {:induction false} NatOfAppend(b: seq<bool>, x: bool)
    ensures NatOf(b + [x]) == NatOf(b) + (if x then Pow2(|b|) else 0)
  {
    if b == [] {
      assert ([] + [x])[1..] == [];
    } else {
      assert (b + [x])[1..] == b[1..] + [x];
      NatOfAppend(b[1..], x);
    }
  }

  lemma {:induction false} RevIsBackwards(b: seq<bool>)
    ensures Rev(NatOf(b), |b|) == NatOf(Backwards(b))
  {
    if b != [] {
      RevIsBackwards(b[1..]);
      NatOfAppend(Backwards(b[1..]), b[0]);
      assert Backwards(b) == Backwards(b[1..]) + [b[0]];
      ShlOne(|b| - 1);
    }
  }

  /** The five swaps of bit_reverse compute Rev on the word's value. */
  lemma BitReverseIsRev(x: bv32)
    ensures NatOf(Bits(BitReverse(x))) == Rev(NatOf(Bits(x)), 32)
  {
    BitReverseMirrors(x);
    MirroredBits(x, BitReverse(x));
    RevIsBackwards(Bits(x));
  }
}
