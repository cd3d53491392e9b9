/** The greedy Huffman construction of compute_codewords.

    A codeword of length l is written left-aligned in 32 bits, so it stands for the
    interval of 2^(32-l) words that begin with it. */
module HuffmanCode {
  import opened PowersOfTwo

  const NO_CODE := 255
  const SPACE := 0x1_0000_0000

  /** The lengths that reading a codebook header lets through. */
  predicate ValidLengths(lens: seq<nat>) {
    forall i :: 0 <= i < |lens| ==> 1 <= lens[i] < 32 || lens[i] == NO_CODE
  }

  function Span(depth: nat): (s: nat)
    requires depth <= 32
    ensures s > 0
  {
    Pow2(32 - depth)
  }

  /** The word has zeros below its first depth bits. */
  predicate Aligned(code: nat, depth: nat)
    requires depth <= 32
  {
    Low(code, 32 - depth) == 0
  }

  predicate ValidCode(code: nat, depth: nat)
    requires depth <= 32
  {
    Aligned(code, depth) && code + Span(depth) <= SPACE
  }

  /** The two intervals have no word in common; that is, neither codeword is a prefix of the other. */
  predicate Apart(c1: nat, d1: nat, c2: nat, d2: nat)
    requires d1 <= 32 && d2 <= 32
  {
    c1 + Span(d1) <= c2 || c2 + Span(d2) <= c1
  }

  /** code could be given to an entry of length depth that follows the entries below n. */
  predicate Unused(lens: seq<nat>, codes: seq<nat>, n: nat, code: nat, depth: nat)
    requires ValidLengths(lens) && n <= |lens| && n <= |codes| && depth <= 32
  {
    ValidCode(code, depth)
    && forall j :: 0 <= j < n && lens[j] != NO_CODE ==> Apart(codes[j], lens[j], code, depth)
  }

  /** Kraft sum in units of 2^-32. */
  function KraftSum(lens: seq<nat>, n: nat): nat
    requires ValidLengths(lens) && n <= |lens|
  {
    if n == 0 then 0
    else KraftSum(lens, n - 1) + if lens[n - 1] == NO_CODE then 0 else Span(lens[n - 1])
  }

  lemma {:induction false} KraftSumMonotone(lens: seq<nat>, m: nat, n: nat)
    requires ValidLengths(lens) && m <= n <= |lens|
    ensures KraftSum(lens, m) <= KraftSum(lens, n)
    decreases n - m
  {
    if m < n {
      KraftSumMonotone(lens, m, n - 1);
    }
  }

  // ---------- The free leaves ----------

  predicate InLeaf(av: seq<nat>, z: nat, p: nat) {
    0 < z < |av| <= 32 && av[z] != 0 && av[z] <= p < av[z] + Span(z)
  }

  /** At most one free leaf a level, and deeper free leaves lie strictly lower. */
  ghost predicate LeavesOrdered(av: seq<nat>) {
    && |av| == 32 && av[0] == 0
    && (forall z :: 0 < z < 32 && av[z] != 0 ==> ValidCode(av[z], z))
    && (forall y, z :: 0 < y < z < 32 && av[y] != 0 && av[z] != 0 ==> av[z] + Span(z) <= av[y])
  }

  function FreeSum(av: seq<nat>, k: nat): nat
    requires |av| == 32 && k < 32
  {
    if k == 0 then 0 else FreeSum(av, k - 1) + if av[k] != 0 then Span(k) else 0
  }

  /** Assigned intervals and free leaves are an exact disjoint partition of the code space. */
  ghost predicate Partition(lens: seq<nat>, codes: seq<nat>, n: nat, av: seq<nat>)
    requires ValidLengths(lens) && n <= |lens| && n <= |codes|
  {
    && LeavesOrdered(av)
    && LeavesApart(lens, codes, n, av)
    && Covers(lens, codes, n, av)
    && KraftSum(lens, n) + FreeSum(av, 31) == SPACE
  }

  predicate LeavesApart(lens: seq<nat>, codes: seq<nat>, n: nat, av: seq<nat>)
    requires ValidLengths(lens) && n <= |lens| && n <= |codes| && |av| == 32
  {
    forall i, z :: 0 <= i < n && lens[i] != NO_CODE && 0 < z < 32 && av[z] != 0 ==>
      Apart(codes[i], lens[i], av[z], z)
  }

  ghost predicate Covers(lens: seq<nat>, codes: seq<nat>, n: nat, av: seq<nat>)
    requires ValidLengths(lens) && n <= |lens| && n <= |codes|
  {
    forall p :: 0 <= p < SPACE ==> InCode(lens, codes, n, p) || exists z :: InLeaf(av, z, p)
  }

  predicate InCode(lens: seq<nat>, codes: seq<nat>, n: nat, p: nat)
    requires ValidLengths(lens) && n <= |lens| && n <= |codes|
  {
    exists i :: 0 <= i < n && lens[i] != NO_CODE && codes[i] <= p < codes[i] + Span(lens[i])
  }

  lemma SpanHalves(z: nat)
    requires z < 32
    ensures Span(z) == 2 * Span(z + 1)
  {
  }

  lemma SpanMonotone(y: nat, z: nat)
    requires y <= z <= 32
    ensures Span(z) <= Span(y)
    ensures y < z ==> 2 * Span(z) <= Span(y)
  {
    Pow2Monotone(32 - z, 32 - y);
  }

  lemma SpaceIsSpan()
    ensures Span(0) == SPACE
  {
    assert Pow2(8) == 256;
    Pow2Add(8, 8);
    Pow2Add(16, 16);
  }

  lemma AlignedDeeper(code: nat, y: nat, z: nat)
    requires y <= z <= 32 && Aligned(code, y)
    ensures Aligned(code, z)
  {
    LowOfLow(code, 32 - z, 32 - y);
    LowOfSmall(0, 32 - z);
  }

  lemma AlignedPlus(code: nat, depth: nat)
    requires depth <= 32 && Aligned(code, depth)
    ensures Aligned(code + Span(depth), depth)
  {
    hide Pow2, Shl, Low, High;
    var k := 32 - depth;
    LowHigh(code, k);
    ShlOne(k);
    ShlAdd(High(code, k), 1, k);
    LowHighOfSum(0, k, High(code, k) + 1);
  }

  lemma AlignedZero(depth: nat)
    requires depth <= 32
    ensures Aligned(0, depth)
  {
    LowOfSmall(0, 32 - depth);
  }

  /** Two aligned intervals nest or are apart. */
  lemma NestOrApart(c1: nat, d1: nat, c2: nat, d2: nat)
    requires d1 <= d2 <= 32 && Aligned(c1, d1) && Aligned(c2, d2)
    ensures Apart(c1, d1, c2, d2) || (c1 <= c2 && c2 + Span(d2) <= c1 + Span(d1))
  {
    var k, j := 32 - d1, 32 - d2;
    var a, b := High(c1, k), High(c2, k);
    LowHigh(c1, k);
    LowHigh(c2, k);
    if a < b {
      ShlStrict(a, b, k);
    } else {
      if b < a {
        ShlStrict(b, a, k);
      }
      LowestInBlock(c2, j, k);
    }
  }

  /** A multiple of 2^j that starts inside a block of 2^k words ends inside it. */
  lemma LowestInBlock(c: nat, j: nat, k: nat)
    requires j <= k && Low(c, j) == 0
    ensures Low(c, k) + Pow2(j) <= Pow2(k)
  {
    var h := Low(High(c, j), k - j);
    LowSplit(c, j, k - j);
    ShlStrict(h, Pow2(k - j), j);
    ShlIsMul(Pow2(k - j), j);
    Pow2Add(k - j, j);
  }

  // ---------- One step of the construction ----------

  /** Leaf z is used up for a code of length depth; its remainder becomes leaves z+1..depth. */
  function Propagate(av: seq<nat>, z: nat, depth: nat): (r: seq<nat>)
    requires |av| == 32 && z <= depth < 32
    ensures |r| == 32
  {
    seq(32, y requires 0 <= y < 32 =>
      if y == z then 0
      else if z < y <= depth then av[z] + Span(y)
      else av[y])
  }

  /** The level compute_codewords takes: the deepest free one that is not below depth. */
  predicate ChosenLevel(av: seq<nat>, z: nat, depth: nat)
    requires |av| == 32
  {
    0 < z <= depth < 32 && av[z] != 0 && forall y :: z < y <= depth ==> av[y] == 0
  }

  lemma PropagateOrdered(av: seq<nat>, z: nat, depth: nat)
    requires LeavesOrdered(av) && ChosenLevel(av, z, depth)
    ensures LeavesOrdered(Propagate(av, z, depth))
    ensures ValidCode(av[z], depth)
  {
    var nu := Propagate(av, z, depth);
    var res := av[z];
    AlignedDeeper(res, z, depth);
    SpanMonotone(z, depth);
    forall y | 0 < y < 32 && nu[y] != 0
      ensures ValidCode(nu[y], y)
    {
      if z < y <= depth {
        AlignedDeeper(res, z, y);
        AlignedPlus(res, y);
        SpanMonotone(z, y);
      }
    }
    forall x, y | 0 < x < y < 32 && nu[x] != 0 && nu[y] != 0
      ensures nu[y] + Span(y) <= nu[x]
    {
      SpanMonotone(x, y);
      if z < y <= depth {
        SpanMonotone(z, y);
      }
    }
  }

  /** Where a word of the used leaf ends up. */
  lemma {:induction false} SplitLeaf(res: nat, z: nat, depth: nat, p: nat) returns (y: nat)
    requires z <= depth < 32 && res <= p < res + Span(z)
    ensures z <= y <= depth
    ensures y == z ==> res <= p < res + Span(depth)
    ensures y != z ==> res + Span(y) <= p < res + Span(y) + Span(y)
    decreases depth - z
  {
    if z == depth || p < res + Span(depth) {
      y := z;
    } else {
      SpanHalves(depth - 1);
      if p < res + Span(depth - 1) {
        y := depth;
      } else {
        y := SplitLeaf(res, z, depth - 1, p);
      }
    }
  }

  lemma {:induction false} FreeSumSame(av: seq<nat>, nu: seq<nat>, k: nat)
    requires |av| == |nu| == 32 && k < 32
    requires forall y :: 0 < y <= k ==> av[y] == nu[y]
    ensures FreeSum(av, k) == FreeSum(nu, k)
  {
    if k > 0 {
      FreeSumSame(av, nu, k - 1);
    }
  }

  lemma {:induction false} FreeSumPropagate(av: seq<nat>, z: nat, depth: nat, k: nat)
    requires |av| == 32 && ChosenLevel(av, z, depth) && z <= k < 32
    ensures FreeSum(Propagate(av, z, depth), k) + Span(if k < depth then k else depth) == FreeSum(av, k)
    decreases k
  {
    var nu := Propagate(av, z, depth);
    if k == z {
      FreeSumSame(av, nu, z - 1);
    } else {
      FreeSumPropagate(av, z, depth, k - 1);
      SpanHalves(k - 1);
    }
  }

  lemma PropagateKeepsApart(lens: seq<nat>, codes: seq<nat>, n: nat, av: seq<nat>, z: nat)
    requires ValidLengths(lens) && n < |lens| && n < |codes| && lens[n] != NO_CODE
    requires LeavesOrdered(av) && LeavesApart(lens, codes, n, av)
    requires ChosenLevel(av, z, lens[n]) && codes[n] == av[z]
    ensures LeavesApart(lens, codes, n + 1, Propagate(av, z, lens[n]))
    ensures Unused(lens, codes, n, codes[n], lens[n])
  {
    var d := lens[n];
    var nu := Propagate(av, z, d);
    PropagateOrdered(av, z, d);
    SpanMonotone(z, d);
    forall i, y | 0 <= i < n + 1 && lens[i] != NO_CODE && 0 < y < 32 && nu[y] != 0
      ensures Apart(codes[i], lens[i], nu[y], y)
    {
      if z < y <= d {
        SpanMonotone(z, y);
        SpanMonotone(y, d);
      } else if i == n {
        assert nu[y] == av[y];
        if y < z {
          assert av[z] + Span(z) <= av[y];
        } else {
          assert av[y] + Span(y) <= av[z];
        }
      }
    }
  }

  lemma PropagateKeepsCover(lens: seq<nat>, codes: seq<nat>, n: nat, av: seq<nat>, z: nat)
    requires ValidLengths(lens) && n < |lens| && n < |codes| && lens[n] != NO_CODE
    requires |av| == 32 && Covers(lens, codes, n, av)
    requires ChosenLevel(av, z, lens[n]) && codes[n] == av[z]
    ensures Covers(lens, codes, n + 1, Propagate(av, z, lens[n]))
  {
    var d := lens[n];
    var nu := Propagate(av, z, d);
    var m := n + 1;
    forall p | 0 <= p < SPACE
      ensures InCode(lens, codes, m, p) || exists y :: InLeaf(nu, y, p)
    {
      if InCode(lens, codes, n, p) {
        var i :| 0 <= i < n && lens[i] != NO_CODE && codes[i] <= p < codes[i] + Span(lens[i]);
        assert InCode(lens, codes, m, p);
      } else {
        var x :| InLeaf(av, x, p);
        if x == z {
          var y := SplitLeaf(av[z], z, d, p);
          if y == z {
            assert codes[n] <= p < codes[n] + Span(lens[n]);
            assert InCode(lens, codes, m, p);
          } else {
            assert InLeaf(nu, y, p);
          }
        } else {
          assert InLeaf(nu, x, p);
        }
      }
    }
  }

  lemma PropagateKeepsPartition(lens: seq<nat>, codes: seq<nat>, n: nat, av: seq<nat>, z: nat)
    requires ValidLengths(lens) && n < |lens| && n < |codes| && lens[n] != NO_CODE
    requires Partition(lens, codes, n, av)
    requires ChosenLevel(av, z, lens[n]) && codes[n] == av[z]
    ensures Partition(lens, codes, n + 1, Propagate(av, z, lens[n]))
    ensures Unused(lens, codes, n, codes[n], lens[n])
  {
    PropagateOrdered(av, z, lens[n]);
    PropagateKeepsApart(lens, codes, n, av, z);
    PropagateKeepsCover(lens, codes, n, av, z);
    FreeSumPropagate(av, z, lens[n], 31);
  }

  // ---------- Why the chosen code is the lowest, and why failing means Kraft > 1 ----------

  /** Leaves below a level cannot cover a whole subtree at that level. */
  lemma {:induction false} UncoveredWord(av: seq<nat>, depth: nat, a: nat) returns (p: nat)
    requires LeavesOrdered(av) && depth < 32 && Aligned(a, depth)
    ensures a <= p < a + Span(depth)
    ensures forall z :: depth < z < 32 ==> !InLeaf(av, z, p)
    decreases 32 - depth
  {
    hide Pow2, Low;
    if depth == 31 {
      p := a;
    } else {
      SpanHalves(depth);
      var h := Span(depth + 1);
      AlignedDeeper(a, depth, depth + 1);
      AlignedPlus(a, depth + 1);
      if av[depth + 1] == a {
        p := UncoveredWord(av, depth + 1, a + h);
      } else {
        p := UncoveredWord(av, depth + 1, a);
        if av[depth + 1] != 0 {
          NestOrApart(a, depth + 1, av[depth + 1], depth + 1);
        }
      }
    }
  }

  lemma NothingLowerIsUnused(lens: seq<nat>, codes: seq<nat>, n: nat, av: seq<nat>, z: nat, depth: nat, c: nat)
    requires ValidLengths(lens) && n <= |lens| && n <= |codes|
    requires Partition(lens, codes, n, av)
    requires ChosenLevel(av, z, depth) && c < av[z]
    ensures !Unused(lens, codes, n, c, depth)
  {
    if Unused(lens, codes, n, c, depth) {
      var p := UncoveredWord(av, depth, c);
      var y := UnusedWordIsFree(lens, codes, n, av, c, depth, p);
      HigherLeavesAreHigher(av, z, depth, c, y, p);
    }
  }

  lemma UnusedWordIsFree(lens: seq<nat>, codes: seq<nat>, n: nat, av: seq<nat>, c: nat, depth: nat, p: nat)
    returns (y: nat)
    requires ValidLengths(lens) && n <= |lens| && n <= |codes| && depth <= 32
    requires Partition(lens, codes, n, av)
    requires Unused(lens, codes, n, c, depth) && c <= p < c + Span(depth)
    ensures InLeaf(av, y, p)
  {
    assert !InCode(lens, codes, n, p);
    y :| InLeaf(av, y, p);
  }

  lemma HigherLeavesAreHigher(av: seq<nat>, z: nat, depth: nat, c: nat, y: nat, p: nat)
    requires LeavesOrdered(av) && ChosenLevel(av, z, depth) && ValidCode(c, depth)
    requires c <= p < c + Span(depth) && InLeaf(av, y, p) && y <= depth
    ensures av[z] <= c
  {
    SpanMonotone(y, depth);
    NestOrApart(av[y], y, c, depth);
    assert y < z ==> av[z] + Span(z) <= av[y];
  }

  lemma {:induction false} FreeSumBelow(av: seq<nat>, depth: nat, k: nat)
    requires |av| == 32 && depth <= k < 32
    requires forall y :: 0 < y <= depth ==> av[y] == 0
    ensures FreeSum(av, k) + Span(k) <= Span(depth)
    decreases k
  {
    if k == depth {
      FreeSumZero(av, k);
    } else {
      FreeSumBelow(av, depth, k - 1);
      SpanHalves(k - 1);
    }
  }

  lemma {:induction false} FreeSumZero(av: seq<nat>, k: nat)
    requires |av| == 32 && k < 32
    requires forall y :: 0 < y <= k ==> av[y] == 0
    ensures FreeSum(av, k) == 0
  {
    if k > 0 {
      FreeSumZero(av, k - 1);
    }
  }

  /** With no leaf at or above the wanted level, the entry does not fit. */
  lemma NoLeafMeansOverfull(lens: seq<nat>, codes: seq<nat>, n: nat, av: seq<nat>)
    requires ValidLengths(lens) && n < |lens| && n <= |codes| && lens[n] != NO_CODE
    requires Partition(lens, codes, n, av)
    requires forall y :: 0 < y <= lens[n] ==> av[y] == 0
    ensures KraftSum(lens, |lens|) > SPACE
  {
    FreeSumBelow(av, lens[n], 31);
    KraftSumMonotone(lens, n + 1, |lens|);
  }

  lemma PartitionBounds(lens: seq<nat>, n: nat, codes: seq<nat>, av: seq<nat>)
    requires ValidLengths(lens) && n == |lens| <= |codes|
    requires Partition(lens, codes, n, av)
    ensures KraftSum(lens, |lens|) <= SPACE
  {
  }

  // ---------- The first entry ----------

  function FirstLeaves(depth: nat): (r: seq<nat>)
    requires depth < 32
    ensures |r| == 32
  {
    seq(32, y requires 0 <= y < 32 => if 0 < y <= depth then Span(y) else 0)
  }

  lemma {:induction false} KraftSumZero(lens: seq<nat>, n: nat)
    requires ValidLengths(lens) && n <= |lens|
    requires forall i :: 0 <= i < n ==> lens[i] == NO_CODE
    ensures KraftSum(lens, n) == 0
  {
    if n > 0 {
      KraftSumZero(lens, n - 1);
    }
  }

  lemma {:induction false} FirstFreeSum(depth: nat, k: nat)
    requires depth < 32 && k < 32
    ensures FreeSum(FirstLeaves(depth), k) + Span(if k < depth then k else depth) == SPACE
  {
    if k == 0 {
      SpaceIsSpan();
    } else {
      FirstFreeSum(depth, k - 1);
      SpanHalves(k - 1);
    }
  }

  lemma FirstPartition(lens: seq<nat>, codes: seq<nat>, k: nat)
    requires ValidLengths(lens) && k < |lens| && k < |codes|
    requires forall i :: 0 <= i < k ==> lens[i] == NO_CODE
    requires lens[k] != NO_CODE && codes[k] == 0
    ensures Partition(lens, codes, k + 1, FirstLeaves(lens[k]))
  {
    var d := lens[k];
    var av := FirstLeaves(d);
    SpaceIsSpan();
    SpanMonotone(0, d);
    AlignedZero(d);
    forall z | 0 < z < 32 && av[z] != 0
      ensures ValidCode(av[z], z)
    {
      AlignedZero(z);
      AlignedPlus(0, z);
      SpanMonotone(0, z);
    }
    forall y, z | 0 < y < z < 32 && av[y] != 0 && av[z] != 0
      ensures av[z] + Span(z) <= av[y]
    {
      SpanMonotone(y, z);
    }
    forall i, z | 0 <= i < k + 1 && lens[i] != NO_CODE && 0 < z < 32 && av[z] != 0
      ensures Apart(codes[i], lens[i], av[z], z)
    {
      SpanMonotone(z, d);
    }
    var m := k + 1;
    forall p | 0 <= p < SPACE
      ensures InCode(lens, codes, m, p) || exists z :: InLeaf(av, z, p)
    {
      var y := SplitLeaf(0, 0, d, p);
      if y == 0 {
        assert codes[k] <= p < codes[k] + Span(lens[k]);
      } else {
        assert InLeaf(av, y, p);
      }
    }
    KraftSumZero(lens, k);
    FirstFreeSum(d, 31);
  }

  // ---------- The assignment the specification asks for ----------

  ghost predicate IsLowest(lens: seq<nat>, codes: seq<nat>, n: nat, depth: nat, c: nat)
    requires ValidLengths(lens) && n <= |lens| && n <= |codes| && depth <= 32
  {
    && Unused(lens, codes, n, c, depth)
    && forall b :: 0 <= b < c ==> !Unused(lens, codes, n, b, depth)
  }

  /** Section 3.2.1 of the Vorbis I specification: entries in order take the lowest code left. */
  ghost function LowestCodes(lens: seq<nat>, n: nat): (codes: seq<nat>)
    requires ValidLengths(lens) && n <= |lens|
    ensures |codes| == n
  {
    if n == 0 then []
    else
      var before := LowestCodes(lens, n - 1);
      before + [if lens[n - 1] == NO_CODE then 0 else LowestUnused(lens, before, n - 1, lens[n - 1])]
  }

  ghost function LowestUnused(lens: seq<nat>, codes: seq<nat>, n: nat, depth: nat): nat
    requires ValidLengths(lens) && n <= |lens| && n <= |codes| && depth <= 32
  {
    if exists c :: IsLowest(lens, codes, n, depth, c) then
      var c: nat :| IsLowest(lens, codes, n, depth, c);
      c
    else 0
  }

  lemma LowestIsUnique(lens: seq<nat>, codes: seq<nat>, n: nat, depth: nat, c: nat)
    requires ValidLengths(lens) && n <= |lens| && n <= |codes| && depth <= 32
    requires IsLowest(lens, codes, n, depth, c)
    ensures LowestUnused(lens, codes, n, depth) == c
  {
  }

  lemma {:induction false} LowestCodesPrefix(lens: seq<nat>, m: nat, n: nat)
    requires ValidLengths(lens) && m <= n <= |lens|
    ensures LowestCodes(lens, n)[..m] == LowestCodes(lens, m)
  {
    if m < n {
      LowestCodesPrefix(lens, m, n - 1);
    }
  }

  lemma PartitionOfPrefix(lens: seq<nat>, codes: seq<nat>, more: seq<nat>, n: nat, av: seq<nat>)
    requires ValidLengths(lens) && n <= |lens| && n == |codes| <= |more| && more[..n] == codes
    requires Partition(lens, codes, n, av)
    ensures Partition(lens, more, n, av)
  {
    assert forall j :: 0 <= j < n ==> more[j] == codes[j];
    forall p | 0 <= p < SPACE
      ensures InCode(lens, more, n, p) || exists z :: InLeaf(av, z, p)
    {
      if InCode(lens, codes, n, p) {
        var i :| 0 <= i < n && lens[i] != NO_CODE && codes[i] <= p < codes[i] + Span(lens[i]);
        assert more[i] <= p < more[i] + Span(lens[i]);
      }
    }
  }

  lemma UnusedOfPrefix(lens: seq<nat>, codes: seq<nat>, more: seq<nat>, n: nat, c: nat, depth: nat)
    requires ValidLengths(lens) && n <= |lens| && n == |codes| <= |more| && more[..n] == codes && depth <= 32
    ensures Unused(lens, codes, n, c, depth) == Unused(lens, more, n, c, depth)
  {
    assert forall j :: 0 <= j < n ==> more[j] == codes[j];
  }

  /** One iteration of compute_codewords on an entry with a code. */
  lemma TakeLeaf(lens: seq<nat>, n: nat, av: seq<nat>, z: nat)
    requires ValidLengths(lens) && n < |lens| && lens[n] != NO_CODE
    requires Partition(lens, LowestCodes(lens, n), n, av)
    requires ChosenLevel(av, z, lens[n])
    ensures LowestCodes(lens, n + 1) == LowestCodes(lens, n) + [av[z]]
    ensures IsLowest(lens, LowestCodes(lens, n), n, lens[n], av[z])
    ensures Partition(lens, LowestCodes(lens, n + 1), n + 1, Propagate(av, z, lens[n]))
  {
    var codes := LowestCodes(lens, n);
    var more := codes + [av[z]];
    var d := lens[n];
    PartitionOfPrefix(lens, codes, more, n, av);
    PropagateKeepsPartition(lens, more, n, av, z);
    UnusedOfPrefix(lens, codes, more, n, av[z], d);
    forall b | 0 <= b < av[z]
      ensures !Unused(lens, codes, n, b, d)
    {
      NothingLowerIsUnused(lens, codes, n, av, z, d, b);
    }
    LowestIsUnique(lens, codes, n, d, av[z]);
  }

  /** One iteration of compute_codewords on an entry without a code. */
  lemma SkipEntry(lens: seq<nat>, n: nat, av: seq<nat>)
    requires ValidLengths(lens) && n < |lens| && lens[n] == NO_CODE
    requires Partition(lens, LowestCodes(lens, n), n, av)
    ensures Partition(lens, LowestCodes(lens, n + 1), n + 1, av)
  {
    var codes, more := LowestCodes(lens, n), LowestCodes(lens, n + 1);
    var m := n + 1;
    PartitionOfPrefix(lens, codes, more, n, av);
    forall p | 0 <= p < SPACE
      ensures InCode(lens, more, m, p) || exists z :: InLeaf(av, z, p)
    {
      if InCode(lens, more, n, p) {
        var i :| 0 <= i < n && lens[i] != NO_CODE && more[i] <= p < more[i] + Span(lens[i]);
        assert InCode(lens, more, m, p);
      }
    }
  }

  lemma FirstCode(lens: seq<nat>, k: nat)
    requires ValidLengths(lens) && k < |lens|
    requires forall i :: 0 <= i < k ==> lens[i] == NO_CODE
    requires lens[k] != NO_CODE
    ensures IsLowest(lens, LowestCodes(lens, k), k, lens[k], 0)
    ensures LowestCodes(lens, k + 1)[k] == 0
    ensures Partition(lens, LowestCodes(lens, k + 1), k + 1, FirstLeaves(lens[k]))
  {
    var d := lens[k];
    SpaceIsSpan();
    SpanMonotone(0, d);
    AlignedZero(d);
    LowestIsUnique(lens, LowestCodes(lens, k), k, d, 0);
    FirstPartition(lens, LowestCodes(lens, k + 1), k);
  }

  // ---------- What the finished assignment is worth ----------

  predicate AnyCoded(lens: seq<nat>, n: nat)
    requires n <= |lens|
  {
    exists i :: 0 <= i < n && lens[i] != NO_CODE
  }

  function Level(av: seq<nat>, d: nat): (z: nat)
    requires |av| == 32 && d < 32
    ensures z <= d
    ensures forall y :: z < y <= d ==> av[y] == 0
    ensures z > 0 ==> av[z] != 0
  {
    if d == 0 || av[d] != 0 then d else Level(av, d - 1)
  }

  /** Every coded entry has the lowest codeword that the entries before it left. */
  ghost predicate Greedy(lens: seq<nat>, n: nat)
    requires ValidLengths(lens) && n <= |lens|
  {
    forall i :: 0 <= i < n && lens[i] != NO_CODE ==>
      IsLowest(lens, LowestCodes(lens, i), i, lens[i], LowestCodes(lens, n)[i])
  }

  lemma GreedyExtend(lens: seq<nat>, n: nat)
    requires ValidLengths(lens) && n < |lens| && Greedy(lens, n)
    requires lens[n] != NO_CODE ==>
      IsLowest(lens, LowestCodes(lens, n), n, lens[n], LowestCodes(lens, n + 1)[n])
    ensures Greedy(lens, n + 1)
  {
    forall i | 0 <= i < n
      ensures LowestCodes(lens, n + 1)[i] == LowestCodes(lens, n)[i]
    {
    }
  }

  /** The construction goes through whenever the lengths fit, and then it is greedy. */
  lemma {:induction false} GreedyRun(lens: seq<nat>, n: nat) returns (av: seq<nat>)
    requires ValidLengths(lens) && n <= |lens| && KraftSum(lens, |lens|) <= SPACE
    ensures AnyCoded(lens, n) ==> Partition(lens, LowestCodes(lens, n), n, av)
    ensures Greedy(lens, n)
  {
    hide Partition, LowestCodes, KraftSum, ValidLengths, IsLowest;
    if n == 0 {
      av := [];
    } else {
      av := GreedyRun(lens, n - 1);
      av := GreedyStep(lens, n - 1, av);
      GreedyExtend(lens, n - 1);
    }
  }

  lemma GreedyStep(lens: seq<nat>, n: nat, av: seq<nat>) returns (nu: seq<nat>)
    requires ValidLengths(lens) && n < |lens| && KraftSum(lens, |lens|) <= SPACE
    requires AnyCoded(lens, n) ==> Partition(lens, LowestCodes(lens, n), n, av)
    ensures AnyCoded(lens, n + 1) ==> Partition(lens, LowestCodes(lens, n + 1), n + 1, nu)
    ensures lens[n] != NO_CODE ==>
      IsLowest(lens, LowestCodes(lens, n), n, lens[n], LowestCodes(lens, n + 1)[n])
  {
    nu := av;
    if lens[n] == NO_CODE {
      if AnyCoded(lens, n) {
        SkipEntry(lens, n, av);
      }
    } else if AnyCoded(lens, n) {
      var z := Level(av, lens[n]);
      if z == 0 {
        NoLeafMeansOverfull(lens, LowestCodes(lens, n), n, av);
      } else {
        TakeLeaf(lens, n, av, z);
        nu := Propagate(av, z, lens[n]);
      }
    } else {
      FirstCode(lens, n);
      nu := FirstLeaves(lens[n]);
    }
  }

  lemma CodeIsValid(lens: seq<nat>, i: nat)
    requires ValidLengths(lens) && KraftSum(lens, |lens|) <= SPACE
    requires i < |lens| && lens[i] != NO_CODE
    ensures ValidCode(LowestCodes(lens, |lens|)[i], lens[i])
  {
    var _ := GreedyRun(lens, |lens|);
  }

  /** No codeword is a prefix of another. */
  lemma PrefixFree(lens: seq<nat>, i: nat, j: nat)
    requires ValidLengths(lens) && KraftSum(lens, |lens|) <= SPACE
    requires i < j < |lens| && lens[i] != NO_CODE && lens[j] != NO_CODE
    ensures Apart(LowestCodes(lens, |lens|)[i], lens[i], LowestCodes(lens, |lens|)[j], lens[j])
    ensures ValidCode(LowestCodes(lens, |lens|)[i], lens[i])
  {
    var _ := GreedyRun(lens, |lens|);
    LowestCodesPrefix(lens, j, |lens|);
    assert LowestCodes(lens, |lens|)[i] == LowestCodes(lens, j)[i];
  }

  /** A full tree leaves no word without a codeword. */
  lemma FullTreeCovers(lens: seq<nat>, p: nat)
    requires ValidLengths(lens) && KraftSum(lens, |lens|) == SPACE && p < SPACE
    ensures InCode(lens, LowestCodes(lens, |lens|), |lens|, p)
  {
    var av := GreedyRun(lens, |lens|);
    if !AnyCoded(lens, |lens|) {
      KraftSumZero(lens, |lens|);
      assert false;
    }
    forall z | 0 < z < 32
      ensures av[z] == 0
    {
      FreeSumAtLeast(av, z, 31);
    }
  }

  lemma {:induction false} FreeSumAtLeast(av: seq<nat>, z: nat, k: nat)
    requires |av| == 32 && 0 < z <= k < 32
    ensures av[z] != 0 ==> FreeSum(av, k) >= Span(z)
    decreases k
  {
    if z < k {
      FreeSumAtLeast(av, z, k - 1);
    }
  }

  // ---------- Kraft's inequality ----------

  predicate PrefixCode(lens: seq<nat>, codes: seq<nat>, n: nat)
    requires ValidLengths(lens) && n <= |lens| && n <= |codes|
  {
    && (forall i :: 0 <= i < n && lens[i] != NO_CODE ==> ValidCode(codes[i], lens[i]))
    && (forall i, j :: 0 <= i < j < n && lens[i] != NO_CODE && lens[j] != NO_CODE ==>
          Apart(codes[i], lens[i], codes[j], lens[j]))
  }

  function Range(lo: int, hi: int): (r: set<int>)
    requires lo <= hi
    ensures |r| == hi - lo
    ensures forall p :: p in r <==> lo <= p < hi
    decreases hi - lo
  {
    if lo == hi then {} else Range(lo, hi - 1) + {hi - 1}
  }

  function WordsOf(lens: seq<nat>, codes: seq<nat>, i: nat): set<int>
    requires ValidLengths(lens) && i < |lens| && i < |codes|
  {
    if lens[i] == NO_CODE then {} else Range(codes[i], codes[i] + Span(lens[i]))
  }

  function WordsUsed(lens: seq<nat>, codes: seq<nat>, n: nat): set<int>
    requires ValidLengths(lens) && n <= |lens| && n <= |codes|
  {
    if n == 0 then {} else WordsUsed(lens, codes, n - 1) + WordsOf(lens, codes, n - 1)
  }

  lemma {:induction false} WordsUsedInCode(lens: seq<nat>, codes: seq<nat>, n: nat, p: int) returns (i: nat)
    requires ValidLengths(lens) && n <= |lens| && n <= |codes|
    requires p in WordsUsed(lens, codes, n)
    ensures i < n && lens[i] != NO_CODE && codes[i] <= p < codes[i] + Span(lens[i])
  {
    hide Span, Range;
    if p in WordsOf(lens, codes, n - 1) {
      i := n - 1;
    } else {
      i := WordsUsedInCode(lens, codes, n - 1, p);
    }
  }

  lemma {:induction false} WordsUsedSize(lens: seq<nat>, codes: seq<nat>, n: nat)
    requires ValidLengths(lens) && n <= |lens| && n <= |codes| && PrefixCode(lens, codes, n)
    ensures |WordsUsed(lens, codes, n)| == KraftSum(lens, n)
    ensures WordsUsed(lens, codes, n) <= Range(0, SPACE)
  {
    hide Span, Range, Aligned;
    if n > 0 {
      var m := n - 1;
      WordsUsedSize(lens, codes, m);
      assert WordsUsed(lens, codes, m) !! WordsOf(lens, codes, m) by {
        NewWordsAreNew(lens, codes, m);
      }
    }
  }

  lemma NewWordsAreNew(lens: seq<nat>, codes: seq<nat>, m: nat)
    requires ValidLengths(lens) && m < |lens| && m < |codes| && PrefixCode(lens, codes, m + 1)
    ensures WordsUsed(lens, codes, m) !! WordsOf(lens, codes, m)
  {
    hide WordsUsed;
    forall p | p in WordsUsed(lens, codes, m)
      ensures p !in WordsOf(lens, codes, m)
    {
      var i := WordsUsedInCode(lens, codes, m, p);
    }
  }

  /** Whatever the assignment, lengths of a prefix-free code fit in the code space. */
  lemma KraftInequality(lens: seq<nat>, codes: seq<nat>)
    requires ValidLengths(lens) && |lens| == |codes| && PrefixCode(lens, codes, |lens|)
    ensures KraftSum(lens, |lens|) <= SPACE
  {
    WordsUsedSize(lens, codes, |lens|);
    SubsetSize(WordsUsed(lens, codes, |lens|), Range(0, SPACE));
  }

  lemma {:induction false} SubsetSize(a: set<int>, b: set<int>)
    requires a <= b
    ensures |a| <= |b|
  {
    assert b == a + (b - a);
  }

  /** The greedy construction finds a prefix code for lens whenever there is one. */
  lemma PrefixCodeExistsIffFits(lens: seq<nat>)
    requires ValidLengths(lens)
    ensures (exists codes: seq<nat> :: |codes| == |lens| && PrefixCode(lens, codes, |lens|))
      <==> KraftSum(lens, |lens|) <= SPACE
  {
    if KraftSum(lens, |lens|) <= SPACE {
      var codes := LowestCodes(lens, |lens|);
      var _ := GreedyRun(lens, |lens|);
      forall i, j | 0 <= i < j < |lens| && lens[i] != NO_CODE && lens[j] != NO_CODE
        ensures Apart(codes[i], lens[i], codes[j], lens[j])
      {
        PrefixFree(lens, i, j);
      }
      assert PrefixCode(lens, codes, |lens|);
    }
    forall codes: seq<nat> | |codes| == |lens| && PrefixCode(lens, codes, |lens|)
      ensures KraftSum(lens, |lens|) <= SPACE
    {
      KraftInequality(lens, codes);
    }
  }
}
