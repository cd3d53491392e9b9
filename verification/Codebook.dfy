/** A Vorbis codebook's Huffman tables: how start_decoder builds them, and what the entries mean. */
module Codebooks {
  import opened PowersOfTwo
  import opened Words
  import opened HuffmanCode

  const FAST_LENGTH := 10
  const FAST_SIZE := 1024
  const LARGEST_SHORT := 32767
  const SENTINEL := 0xffffffff

  // ---------- Meaning: the codeword of an entry, and when a word begins with it ----------

  /** Left-aligned codeword of entry i, most significant bit first. */
  ghost function Code(lens: seq<nat>, i: nat): nat
    requires ValidLengths(lens) && i < |lens|
  {
    LowestCodes(lens, |lens|)[i]
  }

  /** The codeword as it stands in the packet, least significant bit first. */
  ghost function Codeword(lens: seq<nat>, i: nat): nat
    requires ValidLengths(lens) && i < |lens|
  {
    Rev(Code(lens, i), 32)
  }

  ghost predicate Matches(lens: seq<nat>, i: int, v: nat)
    requires ValidLengths(lens)
  {
    0 <= i < |lens| && lens[i] != NO_CODE && Low(v, lens[i]) == Codeword(lens, i)
  }

  predicate Fits(lens: seq<nat>)
    requires ValidLengths(lens)
  {
    KraftSum(lens, |lens|) <= SPACE
  }

  lemma CodewordFits(lens: seq<nat>, i: nat)
    requires ValidLengths(lens) && Fits(lens) && i < |lens| && lens[i] != NO_CODE
    ensures ValidCode(Code(lens, i), lens[i]) && Code(lens, i) < Pow2(32)
    ensures Codeword(lens, i) < Pow2(lens[i])
    ensures Rev(Codeword(lens, i), 32) == Code(lens, i)
  {
    CodeIsValid(lens, i);
    SpaceIsSpan();
    RevOfAligned(Code(lens, i), lens[i], 32);
    RevInvolution(Code(lens, i), 32);
  }

  /** Matching a codeword LSB first is lying in its interval after reversal. */
  lemma MatchesByInterval(lens: seq<nat>, i: nat, v: nat)
    requires ValidLengths(lens) && Fits(lens) && i < |lens| && lens[i] != NO_CODE
    ensures Matches(lens, i, v) <==> Code(lens, i) <= Rev(v, 32) < Code(lens, i) + Span(lens[i])
  {
    hide Low, Rev, Fits, Pow2, ValidCode;
    CodewordFits(lens, i);
    MatchIffInInterval(v, Codeword(lens, i), lens[i], 32);
  }

  lemma CodesApart(lens: seq<nat>, i: nat, j: nat)
    requires ValidLengths(lens) && Fits(lens) && i < |lens| && j < |lens| && i != j
    requires lens[i] != NO_CODE && lens[j] != NO_CODE
    ensures Apart(Code(lens, i), lens[i], Code(lens, j), lens[j])
  {
    if i < j {
      PrefixFree(lens, i, j);
    } else {
      PrefixFree(lens, j, i);
    }
  }

  lemma CodesDiffer(lens: seq<nat>, i: nat, j: nat)
    requires ValidLengths(lens) && Fits(lens) && i < |lens| && j < |lens| && i != j
    requires lens[i] != NO_CODE && lens[j] != NO_CODE
    ensures Code(lens, i) != Code(lens, j)
  {
    CodesApart(lens, i, j);
  }

  lemma AtMostOneMatch(lens: seq<nat>, i: int, j: int, v: nat)
    requires ValidLengths(lens) && Fits(lens) && Matches(lens, i, v) && Matches(lens, j, v)
    ensures i == j
  {
    if i != j {
      CodesApart(lens, i, j);
      MatchesByInterval(lens, i, v);
      MatchesByInterval(lens, j, v);
    }
  }

  /** In a full tree every word begins with a codeword. */
  lemma FullTreeMatches(lens: seq<nat>, v: nat) returns (i: nat)
    requires ValidLengths(lens) && KraftSum(lens, |lens|) == SPACE
    ensures Matches(lens, i, v)
  {
    SpaceIsSpan();
    RevBound(v, 32);
    FullTreeCovers(lens, Rev(v, 32));
    i :| 0 <= i < |lens| && lens[i] != NO_CODE && Code(lens, i) <= Rev(v, 32) < Code(lens, i) + Span(lens[i]);
    MatchesByInterval(lens, i, v);
  }

  // ---------- Which entries a table holds ----------

  predicate Included(lens: seq<nat>, sparse: bool, i: nat)
    requires i < |lens|
  {
    lens[i] != NO_CODE && (sparse || lens[i] > FAST_LENGTH)
  }

  /** Entries among the first n that go into the sorted table, in order. */
  function Listed(lens: seq<nat>, sparse: bool, n: nat): (r: seq<nat>)
    requires n <= |lens|
    ensures |r| <= n
    ensures forall t :: 0 <= t < |r| ==> r[t] < n && Included(lens, sparse, r[t])
  {
    if n == 0 then []
    else Listed(lens, sparse, n - 1) + (if Included(lens, sparse, n - 1) then [n - 1] else [])
  }

  /** Entries with a codeword, in order. */
  function Used(lens: seq<nat>, n: nat): (r: seq<nat>)
    requires n <= |lens|
    ensures |r| <= n
    ensures forall t :: 0 <= t < |r| ==> r[t] < n && lens[r[t]] != NO_CODE
  {
    Listed(lens, true, n)
  }

  lemma {:induction false} ListedPrefix(lens: seq<nat>, sparse: bool, m: nat, n: nat)
    requires m <= n <= |lens|
    ensures Listed(lens, sparse, m) <= Listed(lens, sparse, n)
    decreases n - m
  {
    if m < n {
      ListedPrefix(lens, sparse, m, n - 1);
    }
  }

  lemma {:induction false} ListedAll(lens: seq<nat>, sparse: bool, n: nat, i: nat)
    requires i < n <= |lens| && Included(lens, sparse, i)
    ensures i in Listed(lens, sparse, n)
  {
    if i < n - 1 {
      ListedAll(lens, sparse, n - 1, i);
    }
  }

  lemma {:induction false} ListedDistinct(lens: seq<nat>, sparse: bool, n: nat)
    requires n <= |lens|
    ensures forall s, t :: 0 <= s < t < |Listed(lens, sparse, n)| ==>
      Listed(lens, sparse, n)[s] < Listed(lens, sparse, n)[t]
  {
    if n > 0 {
      ListedDistinct(lens, sparse, n - 1);
    }
  }

  // ---------- qsort on distinct keys ----------

  predicate Ascending(s: seq<nat>) {
    forall i, j :: 0 <= i < j < |s| ==> s[i] < s[j]
  }

  predicate NoDuplicates(s: seq<nat>) {
    forall i, j :: 0 <= i < j < |s| ==> s[i] != s[j]
  }

  function InsertKey(x: nat, s: seq<nat>): (r: seq<nat>)
    requires Ascending(s) && x !in s
    ensures Ascending(r) && |r| == |s| + 1
    ensures forall v :: v in r <==> v == x || v in s
  {
    if s == [] || x < s[0] then [x] + s
    else
      assert s == [s[0]] + s[1..];
      var rest := InsertKey(x, s[1..]);
      assert forall k :: 0 <= k < |rest| ==> rest[k] in rest;
      [s[0]] + rest
  }

  /** What qsort leaves behind when the keys are distinct. */
  function Sorted(s: seq<nat>): (r: seq<nat>)
    requires NoDuplicates(s)
    ensures Ascending(r) && |r| == |s|
    ensures forall v :: v in r <==> v in s
  {
    if s == [] then []
    else
      assert s == [s[0]] + s[1..];
      InsertKey(s[0], Sorted(s[1..]))
  }

  // ---------- What compute_codewords has stored after n entries ----------

  ghost predicate DenseStored(lens: seq<nat>, n: nat, cw: seq<nat>)
    requires ValidLengths(lens) && n <= |lens|
  {
    && |cw| == |lens|
    && forall i :: 0 <= i < n && lens[i] != NO_CODE ==> cw[i] == Rev(LowestCodes(lens, n)[i], 32)
  }

  ghost predicate SparseStored(lens: seq<nat>, n: nat, cw: seq<nat>, cl: seq<nat>, vals: seq<nat>)
    requires ValidLengths(lens) && n <= |lens|
  {
    var used := Used(lens, n);
    && |used| <= |cw| == |cl| == |vals|
    && forall t :: 0 <= t < |used| ==>
      vals[t] == used[t] && cl[t] == lens[used[t]] && cw[t] == Rev(LowestCodes(lens, n)[used[t]], 32)
  }

  lemma DenseStoredStep(lens: seq<nat>, n: nat, cw: seq<nat>, code: nat)
    requires ValidLengths(lens) && n < |lens| && DenseStored(lens, n, cw)
    requires lens[n] != NO_CODE && LowestCodes(lens, n + 1) == LowestCodes(lens, n) + [code]
    ensures DenseStored(lens, n + 1, cw[n := Rev(code, 32)])
  {
  }

  lemma SparseStoredStep(lens: seq<nat>, n: nat, cw: seq<nat>, cl: seq<nat>, vals: seq<nat>, code: nat)
    requires ValidLengths(lens) && n < |lens| && SparseStored(lens, n, cw, cl, vals)
    requires lens[n] != NO_CODE && LowestCodes(lens, n + 1) == LowestCodes(lens, n) + [code]
    requires |Used(lens, n)| < |cw|
    ensures var m := |Used(lens, n)|;
      SparseStored(lens, n + 1, cw[m := Rev(code, 32)], cl[m := lens[n]], vals[m := n])
  {
    var used := Used(lens, n);
    assert Used(lens, n + 1) == used + [n];
  }

  lemma DenseStoredSkip(lens: seq<nat>, n: nat, cw: seq<nat>)
    requires ValidLengths(lens) && n < |lens| && lens[n] == NO_CODE && DenseStored(lens, n, cw)
    ensures DenseStored(lens, n + 1, cw)
  {
  }

  lemma SparseStoredSkip(lens: seq<nat>, n: nat, cw: seq<nat>, cl: seq<nat>, vals: seq<nat>)
    requires ValidLengths(lens) && n < |lens| && lens[n] == NO_CODE && SparseStored(lens, n, cw, cl, vals)
    ensures SparseStored(lens, n + 1, cw, cl, vals)
  {
    assert Used(lens, n + 1) == Used(lens, n);
  }

  class Codebook {
    var sparse: bool
    var entries: nat
    var codewordLengths: array<nat>
    var codewords: array?<nat>
    var sortedEntries: nat
    var sortedCodewords: array?<nat>
    var sortedValues: array<nat>
    var fastHuffman: array<int>

    constructor ()
      ensures fresh(codewordLengths) && fresh(sortedValues) && fresh(fastHuffman)
      ensures codewords == null && sortedCodewords == null && fastHuffman.Length == FAST_SIZE
    {
      sparse, entries, sortedEntries := false, 0, 0;
      codewordLengths, sortedValues := new nat[0], new nat[0];
      codewords, sortedCodewords := null, null;
      fastHuffman := new int[FAST_SIZE];
    }

    /** The arrays that compute_codewords fills have the size the caller gave them. */
    predicate Room(len: seq<nat>, values: array<nat>)
      reads this
    {
      && codewords != null
      && codewords != codewordLengths && codewords != values && codewordLengths != values
      && (if sparse then
            codewords.Length == codewordLengths.Length == values.Length == |Used(len, |len|)|
          else codewords.Length == |len|)
    }

    ghost predicate Stored(len: seq<nat>, n: nat, values: array<nat>)
      requires ValidLengths(len) && n <= |len|
      reads this, codewords, codewordLengths, values
    {
      && codewords != null
      && (if sparse then SparseStored(len, n, codewords[..], codewordLengths[..], values[..])
          else DenseStored(len, n, codewords[..]))
    }

    /** The arrays that compute_codewords writes. */
    ghost function Written(values: array<nat>): set<object?>
      reads this
    {
      if sparse then {codewords as object?, codewordLengths, values} else {codewords as object?}
    }

    method AddEntry(huffCode: nat, symbol: nat, count: nat, len: nat, values: array<nat>)
      requires codewords != null
      requires codewords != codewordLengths && codewords != values && codewordLengths != values
      requires !sparse ==> symbol < codewords.Length
      requires sparse ==> count < codewords.Length && count < codewordLengths.Length && count < values.Length
      modifies Written(values)
      ensures sparse ==>
        && codewords[..] == old(codewords[..])[count := huffCode]
        && codewordLengths[..] == old(codewordLengths[..])[count := len]
        && values[..] == old(values[..])[count := symbol]
      ensures !sparse ==>
        && codewords[..] == old(codewords[..])[symbol := huffCode]
    {
      if !sparse {
        codewords[symbol] := huffCode;
      } else {
        codewords[count] := huffCode;
        codewordLengths[count] := len;
        values[count] := symbol;
      }
    }

    /** Stores the codeword of entry n after those of the entries below it. */
    method StoreCode(lens: seq<nat>, n: nat, code: nat, count: nat, values: array<nat>)
      requires ValidLengths(lens) && n < |lens| && lens[n] != NO_CODE
      requires Room(lens, values) && Stored(lens, n, values)
      requires count == |Used(lens, n)|
      requires LowestCodes(lens, n + 1) == LowestCodes(lens, n) + [code]
      modifies Written(values)
      ensures Stored(lens, n + 1, values) && Used(lens, n + 1) == Used(lens, n) + [n]
    {
      assert Used(lens, n + 1) == Used(lens, n) + [n];
      ListedPrefix(lens, true, n + 1, |lens|);
      if sparse {
        SparseStoredStep(lens, n, codewords[..], codewordLengths[..], values[..], code);
      } else {
        DenseStoredStep(lens, n, codewords[..], code);
      }
      AddEntry(Rev(code, 32), n, count, lens[n], values);
    }

    lemma EmptyStored(lens: seq<nat>, n: nat, values: array<nat>)
      requires ValidLengths(lens) && n <= |lens| && Room(lens, values) && Used(lens, n) == []
      requires forall j :: 0 <= j < n ==> lens[j] == NO_CODE
      ensures Stored(lens, n, values)
    {
    }

    lemma SkipStored(lens: seq<nat>, n: nat, values: array<nat>)
      requires ValidLengths(lens) && n < |lens| && lens[n] == NO_CODE && Stored(lens, n, values)
      ensures Stored(lens, n + 1, values) && Used(lens, n + 1) == Used(lens, n)
    {
      if sparse {
        SparseStoredSkip(lens, n, codewords[..], codewordLengths[..], values[..]);
      } else {
        DenseStoredSkip(lens, n, codewords[..]);
      }
    }

    /** The greedy loop has placed the codes of the first n entries. */
    ghost predicate Running(len: seq<nat>, n: nat, m: nat, available: array<nat>, values: array<nat>)
      requires ValidLengths(len) && n <= |len|
      reads this, codewords, codewordLengths, values, available
    {
      && Room(len, values)
      && available.Length == 32 && available !in {codewords, codewordLengths, values}
      && Partition(len, LowestCodes(len, n), n, available[..])
      && m == |Used(len, n)|
      && Stored(len, n, values)
    }

    /** One entry of the greedy loop. */
    method AssignEntry(len: seq<nat>, i: nat, m: nat, available: array<nat>, values: array<nat>) returns (ok: bool)
      requires ValidLengths(len) && i < |len| && len[i] != NO_CODE
      requires Running(len, i, m, available, values)
      modifies Written(values), available
      ensures !ok ==> !Fits(len)
      ensures ok ==> Running(len, i + 1, m + 1, available, values)
    {
      ghost var av := available[..];
      var z := DeepestLeaf(available, len[i]);
      if z == 0 {
        NoLeafMeansOverfull(len, LowestCodes(len, i), i, av);
        return false;
      }
      var res := available[z];
      TakeLeaf(len, i, av, z);
      StoreCode(len, i, res, m, values);
      PropagateLeaf(available, z, len[i]);
      return true;
    }

    lemma SkipRunning(len: seq<nat>, i: nat, m: nat, available: array<nat>, values: array<nat>)
      requires ValidLengths(len) && i < |len| && len[i] == NO_CODE
      requires Running(len, i, m, available, values)
      ensures Running(len, i + 1, m, available, values)
    {
      SkipEntry(len, i, available[..]);
      SkipStored(len, i, values);
    }

    lemma RunningFits(len: seq<nat>, n: nat, m: nat, available: array<nat>, values: array<nat>)
      requires ValidLengths(len) && n == |len|
      requires Running(len, n, m, available, values)
      ensures Fits(len) && Stored(len, |len|, values)
    {
      PartitionBounds(len, n, LowestCodes(len, n), available[..]);
    }

    method StepEntry(len: seq<nat>, i: nat, m: nat, available: array<nat>, values: array<nat>)
      returns (ok: bool, m': nat)
      requires ValidLengths(len) && i < |len| && Running(len, i, m, available, values)
      modifies Written(values), available
      ensures !ok ==> !Fits(len)
      ensures ok ==> Running(len, i + 1, m', available, values)
    {
      if len[i] == NO_CODE {
        SkipRunning(len, i, m, available, values);
        return true, m;
      }
      ok := AssignEntry(len, i, m, available, values);
      m' := m + 1;
    }

    /** The entries after the first one with a code. */
    method AssignRest(len: seq<nat>, first: nat, available: array<nat>, values: array<nat>) returns (ok: bool)
      requires ValidLengths(len) && first <= |len|
      requires Running(len, first, 1, available, values)
      modifies Written(values), available
      ensures ok <==> Fits(len)
      ensures ok ==> Stored(len, |len|, values)
    {
      hide Running;
      var m := 1;
      var i := first;
      ok := true;
      while i < |len| && ok
        invariant first <= i <= |len|
        invariant ok ==> Running(len, i, m, available, values)
        invariant !ok ==> !Fits(len)
      {
        ok, m := StepEntry(len, i, m, available, values);
        i := i + 1;
      }
      if ok {
        RunningFits(len, i, m, available, values);
      }
    }

    /** The first entry gets code 0. */
    method StoreFirst(len: seq<nat>, k: nat, values: array<nat>)
      requires ValidLengths(len) && k < |len| && len[k] != NO_CODE && Room(len, values)
      requires Used(len, k) == [] && forall j :: 0 <= j < k ==> len[j] == NO_CODE
      modifies Written(values)
      ensures Stored(len, k + 1, values) && |Used(len, k + 1)| == 1
    {
      EmptyStored(len, k, values);
      RevZero(32);
      assert LowestCodes(len, k + 1) == LowestCodes(len, k) + [0] by { FirstCode(len, k); }
      StoreCode(len, k, 0, 0, values);
    }

    lemma StartRunning(len: seq<nat>, k: nat, available: array<nat>, values: array<nat>)
      requires ValidLengths(len) && k < |len| && len[k] != NO_CODE && Room(len, values)
      requires forall j :: 0 <= j < k ==> len[j] == NO_CODE
      requires available.Length == 32 && available !in {codewords, codewordLengths, values}
      requires available[..] == FirstLeaves(len[k])
      requires Stored(len, k + 1, values) && |Used(len, k + 1)| == 1
      ensures Running(len, k + 1, 1, available, values)
    {
      FirstCode(len, k);
    }

    /** Huffman construction on unsorted lengths; it fails exactly when no prefix code has them. */
    method ComputeCodewords(len: seq<nat>, values: array<nat>) returns (ok: bool)
      requires ValidLengths(len) && Room(len, values)
      modifies Written(values)
      ensures ok <==> Fits(len)
      ensures ok ==> Stored(len, |len|, values)
    {
      hide Running, Stored, KraftSum, FirstLeaves;
      var n := |len|;
      var k := 0;
      while k < n && len[k] == NO_CODE
        invariant k <= n && Used(len, k) == []
        invariant forall j :: 0 <= j < k ==> len[j] == NO_CODE
      {
        k := k + 1;
      }
      if k == n {
        EmptyStored(len, k, values);
        KraftSumZero(len, n);
        return true;
      }
      StoreFirst(len, k, values);
      var available := new nat[32](_ => 0);
      AddFirstLeaves(available, len[k]);
      StartRunning(len, k, available, values);
      ok := AssignRest(len, k + 1, available, values);
    }

    // ---------- The sorted table ----------

    /** Sorted left-aligned codes with the entries they belong to. */
    ghost predicate SortedFor(lens: seq<nat>)
      requires ValidLengths(lens)
      reads this`sparse, this`sortedEntries, this`sortedCodewords, this`sortedValues, this`codewordLengths
      reads sortedCodewords, sortedValues, codewordLengths
    {
      && sortedCodewords != null
      && sortedCodewords.Length == sortedEntries + 1 && sortedValues.Length == sortedEntries
      && (sparse ==> codewordLengths.Length == sortedEntries)
      && Ascending(sortedCodewords[..sortedEntries])
      && (forall x :: 0 <= x < sortedEntries ==> SlotHolds(lens, x, sortedValues[x]))
      && (forall i :: 0 <= i < |lens| && Included(lens, sparse, i) ==> i in sortedValues[..])
    }

    /** Slot x of the sorted table is that of entry i. */
    ghost predicate SlotHolds(lens: seq<nat>, x: nat, i: nat)
      requires ValidLengths(lens) && sortedCodewords != null && x < sortedCodewords.Length
      requires sparse ==> x < codewordLengths.Length
      reads this`sparse, this`sortedCodewords, this`codewordLengths, sortedCodewords, codewordLengths
    {
      && i < |lens| && Included(lens, sparse, i)
      && sortedCodewords[x] == Code(lens, i)
      && (sparse ==> codewordLengths[x] == lens[i])
    }

    /** The tables agree that codewords[t] is the codeword of entry EntryAt(t). */
    ghost predicate Positions(lens: seq<nat>, values: array<nat>)
      requires ValidLengths(lens)
      reads this, codewords, values
    {
      && codewords != null
      && (if sparse then values[..] == Used(lens, |lens|) && codewords.Length == values.Length
          else codewords.Length == |lens|)
      && forall t :: 0 <= t < codewords.Length && Included(lens, sparse, EntryAt(values, t)) ==>
        codewords[t] == Codeword(lens, EntryAt(values, t))
    }

    /** Copies the codes to sort, most significant bit first. */
    method ListKeys(lens: seq<nat>, values: array<nat>)
      requires ValidLengths(lens) && Fits(lens) && Positions(lens, values)
      requires sortedCodewords != null && sortedCodewords !in {codewords, values}
      requires sortedEntries == |Listed(lens, sparse, |lens|)| < sortedCodewords.Length
      modifies sortedCodewords
      ensures sortedCodewords[..sortedEntries] == KeysOf(lens, sparse, |lens|)
    {
      if !sparse {
        ListLongKeys(lens, values);
      } else {
        ListUsedKeys(lens, values);
      }
    }

    method ListLongKeys(lens: seq<nat>, values: array<nat>)
      requires ValidLengths(lens) && Fits(lens) && !sparse && Positions(lens, values)
      requires sortedCodewords != null && sortedCodewords !in {codewords, values}
      requires sortedEntries == |Listed(lens, false, |lens|)| < sortedCodewords.Length
      modifies sortedCodewords
      ensures sortedCodewords[..sortedEntries] == KeysOf(lens, false, |lens|)
    {
      hide Code, Codeword, Rev, Pow2, Fits, ValidCode;
      var i, k := 0, 0;
      while i < |lens|
        invariant i <= |lens| && k == |Listed(lens, false, i)| <= sortedEntries
        invariant sortedCodewords[..k] == KeysOf(lens, false, i)
      {
        ListedPrefix(lens, false, i + 1, |lens|);
        if Included(lens, false, i) {
          CodewordFits(lens, i);
          assert codewords[i] == Codeword(lens, EntryAt(values, i));
          KeysExtend(lens, i);
          sortedCodewords[k] := Rev(codewords[i], 32);
          k := k + 1;
        } else {
          KeysStay(lens, i);
        }
        i := i + 1;
      }
    }

    method ListUsedKeys(lens: seq<nat>, values: array<nat>)
      requires ValidLengths(lens) && Fits(lens) && sparse && Positions(lens, values)
      requires sortedCodewords != null && sortedCodewords !in {codewords, values}
      requires sortedEntries == |Listed(lens, true, |lens|)| < sortedCodewords.Length
      modifies sortedCodewords
      ensures sortedCodewords[..sortedEntries] == KeysOf(lens, true, |lens|)
    {
      hide Code, Codeword, Rev, Pow2, Fits, ValidCode;
      var i := 0;
      while i < sortedEntries
        invariant i <= sortedEntries
        invariant sortedCodewords[..i] == KeysOf(lens, true, |lens|)[..i]
      {
        CodewordFits(lens, values[i]);
        assert codewords[i] == Codeword(lens, EntryAt(values, i));
        sortedCodewords[i] := Rev(codewords[i], 32);
        i := i + 1;
      }
    }

    /** The sorted keys are in place, one for each included entry. */
    ghost predicate KeysSorted(lens: seq<nat>)
      requires ValidLengths(lens)
      reads this, sortedCodewords
    {
      && sortedCodewords != null && sortedEntries > 0
      && sortedCodewords.Length == sortedEntries + 1 && sortedValues.Length == sortedEntries
      && (sparse ==> codewordLengths.Length == sortedEntries)
      && Ascending(sortedCodewords[..sortedEntries])
      && forall c :: c in sortedCodewords[..sortedEntries] <==> c in KeysOf(lens, sparse, |lens|)
    }

    /** Positions below n have their values entered. */
    ghost predicate Placed(lens: seq<nat>, values: array<nat>, n: nat)
      requires ValidLengths(lens) && KeysSorted(lens) && Positions(lens, values) && n <= codewords.Length
      reads this, sortedCodewords, sortedValues, codewordLengths, codewords, values
    {
      forall x, t :: 0 <= x < sortedEntries && 0 <= t < n && Included(lens, sparse, EntryAt(values, t)) ==>
        PlacedAt(lens, x, EntryAt(values, t))
    }

    ghost predicate PlacedAt(lens: seq<nat>, x: nat, i: nat)
      requires ValidLengths(lens) && KeysSorted(lens) && x < sortedEntries && i < |lens|
      reads this, sortedCodewords, sortedValues, codewordLengths
    {
      sortedCodewords[x] == Code(lens, i) ==>
        sortedValues[x] == i && (sparse ==> codewordLengths[x] == lens[i])
    }

    /** Enters the symbol of each listed code at the place the sort gave it. */
    method PlaceValues(lens: seq<nat>, values: array<nat>)
      requires ValidLengths(lens) && Fits(lens)
      requires Positions(lens, values) && KeysSorted(lens)
      requires sortedValues !in {values, codewordLengths, sortedCodewords, codewords}
      requires codewordLengths !in {values, sortedCodewords, codewords}
      modifies sortedValues, if sparse then {codewordLengths} else {}
      ensures SortedFor(lens)
    {
      var i := 0;
      while i < codewords.Length
        invariant i <= codewords.Length
        invariant Positions(lens, values) && KeysSorted(lens)
        invariant Placed(lens, values, i)
      {
        var entry := if sparse then values[i] else i;
        if Included(lens, sparse, entry) {
          PlaceOne(lens, values, i, entry);
        }
        i := i + 1;
      }
      AllPlaced(lens, values);
    }

    method PlaceOne(lens: seq<nat>, values: array<nat>, i: nat, entry: nat)
      requires ValidLengths(lens) && Fits(lens)
      requires Positions(lens, values) && KeysSorted(lens) && i < codewords.Length
      requires entry == EntryAt(values, i) && Included(lens, sparse, entry) && Placed(lens, values, i)
      requires sortedValues !in {values, codewordLengths, sortedCodewords, codewords}
      requires codewordLengths !in {values, sortedCodewords, codewords}
      modifies sortedValues, if sparse then {codewordLengths} else {}
      ensures Positions(lens, values) && KeysSorted(lens) && Placed(lens, values, i + 1)
    {
      hide Code, KeysOf, Fits, ValidLengths, Codeword, Ascending, Used;
      EntryFits(lens, values, i);
      var x := FindSlot(lens, values, i, entry);
      StoreAt(x, entry, lens[entry]);
      forall y, t | 0 <= y < sortedEntries && 0 <= t < i + 1 && Included(lens, sparse, EntryAt(values, t))
        ensures PlacedAt(lens, y, EntryAt(values, t))
      {
        var e := EntryAt(values, t);
        if e != entry {
          CodesDiffer(lens, e, entry);
          assert old(PlacedAt(lens, y, e));
        } else if y != x {
          KeysDiffer(lens, x, y);
        }
      }
    }

    lemma EntryFits(lens: seq<nat>, values: array<nat>, i: nat)
      requires ValidLengths(lens) && Positions(lens, values) && KeysSorted(lens) && i < codewords.Length
      ensures codewords != null && EntryAt(values, i) < |lens|
      ensures sortedCodewords != null && sortedCodewords.Length > sortedEntries == sortedValues.Length
    {
    }

    /** The slot that the sort gave to entry's codeword. */
    method FindSlot(lens: seq<nat>, values: array<nat>, i: nat, entry: nat) returns (x: nat)
      requires ValidLengths(lens) && Fits(lens)
      requires Positions(lens, values) && KeysSorted(lens) && i < codewords.Length
      requires entry == EntryAt(values, i) && entry < |lens| && Included(lens, sparse, entry)
      ensures sortedCodewords != null && x < sortedEntries == sortedValues.Length
      ensures sparse ==> x < codewordLengths.Length
      ensures sortedCodewords.Length == sortedEntries + 1 && sortedCodewords[x] == Code(lens, entry)
    {
      hide Code, Codeword, Listed, KeysOf, Rev, Fits;
      CodewordFits(lens, entry);
      KeyListed(lens, sparse, entry);
      x := FindSorted(sortedCodewords, sortedEntries, Rev(codewords[i], 32));
    }

    lemma KeysDiffer(lens: seq<nat>, x: nat, y: nat)
      requires ValidLengths(lens) && KeysSorted(lens) && x < sortedEntries && y < sortedEntries && x != y
      ensures sortedCodewords[x] != sortedCodewords[y]
    {
      assert sortedCodewords[..sortedEntries][x] != sortedCodewords[..sortedEntries][y];
    }

    /** Writes an entry's symbol, and in a sparse book its length, into slot x. */
    method StoreAt(x: nat, entry: nat, len: nat)
      requires x < sortedValues.Length && (sparse ==> x < codewordLengths.Length) && sortedValues != codewordLengths
      modifies sortedValues, if sparse then {codewordLengths} else {}
      ensures forall y :: 0 <= y < sortedValues.Length ==>
        sortedValues[y] == if y == x then entry else old(sortedValues[y])
      ensures forall y :: sparse && 0 <= y < codewordLengths.Length ==>
        codewordLengths[y] == if y == x then len else old(codewordLengths[y])
    {
      if sparse {
        codewordLengths[x] := len;
      }
      sortedValues[x] := entry;
    }

    lemma AllPlaced(lens: seq<nat>, values: array<nat>)
      requires ValidLengths(lens) && Fits(lens)
      requires Positions(lens, values) && KeysSorted(lens)
      requires Placed(lens, values, codewords.Length)
      ensures SortedFor(lens)
    {
      hide Code, Codeword, Fits, ValidLengths;
      var list := Listed(lens, sparse, |lens|);
      forall x | 0 <= x < sortedEntries
        ensures SlotHolds(lens, x, sortedValues[x])
      {
        assert sortedCodewords[..sortedEntries][x] in KeysOf(lens, sparse, |lens|);
        var k :| 0 <= k < |list| && Code(lens, list[k]) == sortedCodewords[x];
        var t := if sparse then k else list[k];
        assert EntryAt(values, t) == list[k];
        assert PlacedAt(lens, x, list[k]);
      }
      forall i | 0 <= i < |lens| && Included(lens, sparse, i)
        ensures i in sortedValues[..]
      {
        KeyListed(lens, sparse, i);
        var x :| 0 <= x < sortedEntries && sortedCodewords[..sortedEntries][x] == Code(lens, i);
        ListedAll(lens, sparse, |lens|, i);
        var k :| 0 <= k < |list| && list[k] == i;
        var t := if sparse then k else i;
        assert EntryAt(values, t) == i;
        assert PlacedAt(lens, x, i);
        assert sortedValues[..][x] == i;
      }
    }

    ghost function EntryAt(values: array<nat>, t: nat): nat
      requires sparse ==> t < values.Length
      reads this, values
    {
      if sparse then values[t] else t
    }

    // ---------- The fast table ----------

    /** The tables give slot x a codeword and a length. */
    predicate Slots()
      reads this, sortedCodewords, codewords, codewordLengths
    {
      && fastHuffman.Length == FAST_SIZE
      && if sparse then
           && codewordLengths.Length == sortedEntries
           && (sortedEntries > 0 ==> sortedCodewords != null && sortedCodewords.Length > sortedEntries)
         else codewords != null && codewords.Length == codewordLengths.Length == entries
    }

    function SlotCount(): nat
      reads this
    {
      if sparse then sortedEntries else entries
    }

    function SlotWord(x: nat): nat
      requires Slots() && x < SlotCount()
      reads this, sortedCodewords, codewords, codewordLengths
    {
      if sparse then Rev(sortedCodewords[x], 32) else codewords[x]
    }

    /** Word v begins with the short codeword of slot x. */
    predicate ShortHit(x: nat, v: nat)
      requires Slots() && x < SlotCount()
      reads this, sortedCodewords, codewords, codewordLengths
    {
      codewordLengths[x] <= FAST_LENGTH && Low(v, codewordLengths[x]) == SlotWord(x)
    }

    /** The fast table knows the short codewords of the first n slots, and nothing else. */
    ghost predicate FastBelow(n: nat)
      requires Slots() && n <= SlotCount()
      reads this, sortedCodewords, codewords, codewordLengths, fastHuffman
    {
      && (forall v :: 0 <= v < FAST_SIZE ==>
            fastHuffman[v] == -1 || (0 <= fastHuffman[v] < n && ShortHit(fastHuffman[v], v)))
      && (forall v, x :: 0 <= v < FAST_SIZE && 0 <= x < n && ShortHit(x, v) ==> fastHuffman[v] != -1)
    }

    method ComputeAcceleratedHuffman()
      requires Slots()
      requires forall x :: 0 <= x < SlotCount() && codewordLengths[x] <= FAST_LENGTH ==>
        SlotWord(x) < Pow2(codewordLengths[x])
      modifies fastHuffman
      ensures FastBelow(if SlotCount() > LARGEST_SHORT then LARGEST_SHORT else SlotCount())
    {
      var i := 0;
      while i < FAST_SIZE
        invariant i <= FAST_SIZE
        invariant forall v :: 0 <= v < i ==> fastHuffman[v] == -1
      {
        fastHuffman[i] := -1;
        i := i + 1;
      }
      var len := if sparse then sortedEntries else entries;
      if len > LARGEST_SHORT {
        len := LARGEST_SHORT;
      }
      i := 0;
      while i < len
        invariant i <= len && FastBelow(i)
      {
        if codewordLengths[i] <= FAST_LENGTH {
          var z := if sparse then Rev(sortedCodewords[i], 32) else codewords[i];
          FillSlot(fastHuffman, i, z, codewordLengths[i]);
        }
        i := i + 1;
      }
    }

    // ---------- A finished codebook ----------

    /** The entry that DECODE maps slot x to. */
    function EntryOf(x: nat): nat
      requires sparse ==> x < sortedValues.Length
      reads this, sortedValues
    {
      if sparse then sortedValues[x] else x
    }

    /** The finished tables of a codebook with these lengths. */
    ghost predicate Valid(lens: seq<nat>)
      reads this, sortedCodewords, codewords, codewordLengths, sortedValues, fastHuffman
    {
      && ValidLengths(lens) && Fits(lens) && entries == |lens| > 0
      && Slots() && sortedValues.Length == sortedEntries
      && sortedEntries == |Listed(lens, sparse, |lens|)|
      && (if sortedEntries > 0 then SortedFor(lens) else sortedCodewords == null)
      && (if sparse then codewords == null
          else codewordLengths[..] == lens && DenseStored(lens, |lens|, codewords[..]))
      && FastBelow(if SlotCount() > LARGEST_SHORT then LARGEST_SHORT else SlotCount())
    }

    /** A slot carries its entry's codeword and length. */
    lemma SlotMeaning(lens: seq<nat>, x: nat)
      requires ValidLengths(lens) && Fits(lens) && entries == |lens|
      requires Slots() && sortedValues.Length == sortedEntries && x < SlotCount()
      requires sparse ==> SortedFor(lens)
      requires !sparse ==> codewordLengths[..] == lens && DenseStored(lens, |lens|, codewords[..])
      ensures EntryOf(x) < |lens| && codewordLengths[x] == lens[EntryOf(x)]
      ensures lens[EntryOf(x)] != NO_CODE ==>
        SlotWord(x) == Codeword(lens, EntryOf(x)) && SlotWord(x) < Pow2(codewordLengths[x])
    {
      hide LowestCodes;
      if sparse {
        assert SlotHolds(lens, x, sortedValues[x]);
      }
      if lens[EntryOf(x)] != NO_CODE {
        CodewordFits(lens, EntryOf(x));
      }
    }

    /** The search of codebook_decode_scalar_raw goes through all entries, not the sorted ones. */
    predicate Linear()
      reads this
    {
      !sparse && (entries <= 8 || sortedCodewords == null)
    }

    /** codebook_decode_scalar_raw can come up with entry i. */
    predicate Searchable(lens: seq<nat>, i: nat)
      requires i < |lens|
      reads this
    {
      Linear() || Included(lens, sparse, i)
    }

    /** DECODE_RAW can come up with entry i: only a short codeword far down a big dense book is lost,
        because the fast table stops at LARGEST_SHORT and the sorted table leaves short codewords out. */
    predicate Findable(lens: seq<nat>, i: nat)
      requires i < |lens|
      reads this
    {
      Searchable(lens, i) || i < LARGEST_SHORT
    }

    /** How the null tests of codebook_decode_scalar_raw read on finished tables. */
    lemma TablesPresent(lens: seq<nat>)
      requires Valid(lens)
      ensures codewords == null && sortedCodewords == null <==> SlotCount() == 0
      ensures !Linear() && SlotCount() > 0 ==> sortedEntries > 0 && sortedCodewords != null
      ensures Linear() ==> codewords != null
      ensures ValidLengths(lens) && Fits(lens) && Slots() && fastHuffman.Length == FAST_SIZE
    {
    }

    lemma EntryPresent(lens: seq<nat>, x: nat)
      requires Valid(lens) && x < SlotCount()
      ensures sparse ==> x < sortedValues.Length
    {
    }

    lemma ValidSlot(lens: seq<nat>, x: nat)
      requires Valid(lens) && x < SlotCount()
      ensures EntryOf(x) < |lens| && codewordLengths[x] == lens[EntryOf(x)]
      ensures sparse ==> lens[EntryOf(x)] != NO_CODE
      ensures lens[EntryOf(x)] != NO_CODE ==> SlotWord(x) == Codeword(lens, EntryOf(x))
    {
      if sparse {
        assert SlotHolds(lens, x, sortedValues[x]);
      }
      SlotMeaning(lens, x);
    }

    /** The binary search ends at the codeword that the reversed word begins with. */
    lemma SearchFinds(lens: seq<nat>, w: nat, x: nat, i: nat)
      requires Valid(lens) && x < sortedEntries
      requires x > 0 ==> sortedCodewords[x] <= Rev(w, 32)
      requires x + 1 < sortedEntries ==> Rev(w, 32) < sortedCodewords[x + 1]
      requires Matches(lens, i, w) && Included(lens, sparse, i)
      ensures sortedValues[x] == i
    {
      hide Code, Codeword, Listed, FastBelow, DenseStored;
      MatchesByInterval(lens, i, w);
      assert i in sortedValues[..];
      var y :| 0 <= y < sortedEntries && sortedValues[..][y] == i;
      assert SlotHolds(lens, y, i) && SlotHolds(lens, x, sortedValues[x]);
      SearchLands(lens, Rev(w, 32), x, y, sortedValues[x], i);
    }

    lemma SearchLands(lens: seq<nat>, code: nat, x: nat, y: nat, e: nat, i: nat)
      requires ValidLengths(lens) && Fits(lens) && SortedFor(lens)
      requires x < sortedEntries && y < sortedEntries
      requires SlotHolds(lens, x, e) && SlotHolds(lens, y, i)
      requires x > 0 ==> sortedCodewords[x] <= code
      requires x + 1 < sortedEntries ==> code < sortedCodewords[x + 1]
      requires Code(lens, i) <= code < Code(lens, i) + Span(lens[i])
      ensures x == y
    {
      hide Code, Codeword, Listed, Span;
      var keys := sortedCodewords[..sortedEntries];
      if y < x {
        assert keys[y] < keys[x];
        CodesApart(lens, i, e);
      }
    }

    ghost predicate Reaches(lens: seq<nat>, fast: bool, i: nat)
      requires i < |lens|
      reads this
    {
      if fast then Findable(lens, i) else Searchable(lens, i)
    }

    /** A lookup of word w that ended at slot (or nowhere, at -1): if w begins with a reachable entry's
        codeword, it ended at that entry. */
    ghost predicate Answers(lens: seq<nat>, fast: bool, w: nat, slot: int)
      requires Valid(lens)
      reads this, sortedCodewords, codewords, codewordLengths, sortedValues, fastHuffman
    {
      && -1 <= slot < SlotCount()
      && (slot >= 0 ==> EntryOf(slot) < |lens| && lens[EntryOf(slot)] != NO_CODE && Reaches(lens, fast, EntryOf(slot)))
      && forall i :: Matches(lens, i, w) && Reaches(lens, fast, i) ==> slot >= 0 && EntryOf(slot) == i
    }

    /** The binary search over reversed codewords; it takes the match for granted. */
    method SearchSorted(ghost lens: seq<nat>, w: nat) returns (slot: nat)
      requires Valid(lens) && sortedEntries > 0 && !Linear()
      ensures slot < SlotCount() && Answers(lens, false, w, slot)
    {
      hide Code, Codeword, Listed, LowestCodes, FastBelow, Rev;
      var x := FindSorted(sortedCodewords, sortedEntries, Rev(w, 32));
      assert SlotHolds(lens, x, sortedValues[x]);
      forall i | Matches(lens, i, w) && Searchable(lens, i)
        ensures sortedValues[x] == i
      {
        SearchFinds(lens, w, x, i);
      }
      slot := if sparse then x else sortedValues[x];
    }

    /** The linear search of small codebooks. */
    method SearchLinear(ghost lens: seq<nat>, w: nat) returns (slot: int)
      requires Valid(lens) && Linear()
      ensures -1 <= slot < SlotCount() && Answers(lens, false, w, slot)
      ensures slot >= 0 ==> Matches(lens, slot, w)
    {
      hide Code, Codeword, Listed, LowestCodes, FastBelow;
      var i := 0;
      while i < entries
        invariant i <= entries
        invariant forall j :: 0 <= j < i ==> !Matches(lens, j, w)
      {
        if codewordLengths[i] != NO_CODE {
          ValidSlot(lens, i);
          if codewords[i] == Low(w, codewordLengths[i]) {
            forall j | Matches(lens, j, w)
              ensures j == i
            {
              AtMostOneMatch(lens, i, j, w);
            }
            return i;
          }
        }
        i := i + 1;
      }
      return -1;
    }

    /** A hit in the fast table is a match; a miss leaves only what the search can find. */
    lemma FastAnswers(lens: seq<nat>, w: nat)
      requires Valid(lens)
      ensures Low(w, FAST_LENGTH) < FAST_SIZE
      ensures var x := fastHuffman[Low(w, FAST_LENGTH)];
        if x != -1 then
          && Answers(lens, true, w, x) && codewordLengths[x] <= FAST_LENGTH
          && Matches(lens, EntryOf(x), w)
        else forall i :: Matches(lens, i, w) && Findable(lens, i) ==> Searchable(lens, i)
    {
      hide Code, Codeword, Listed, LowestCodes, DenseStored;
      assert Pow2(10) == 1024;
      var v := Low(w, FAST_LENGTH);
      var x := fastHuffman[v];
      if x != -1 {
        assert ShortHit(x, v);
        ValidSlot(lens, x);
        LowOfLow(w, codewordLengths[x], FAST_LENGTH);
        forall j | Matches(lens, j, w)
          ensures j == EntryOf(x)
        {
          AtMostOneMatch(lens, EntryOf(x), j, w);
        }
      } else {
        forall i | Matches(lens, i, w) && Findable(lens, i)
          ensures Searchable(lens, i)
        {
          if !sparse && lens[i] <= FAST_LENGTH {
            ValidSlot(lens, i);
            LowOfLow(w, lens[i], FAST_LENGTH);
            if ShortHit(i, v) {
            }
          }
        }
      }
    }

    lemma StoredPositions(lens: seq<nat>, values: array<nat>)
      requires ValidLengths(lens) && Fits(lens) && Room(lens, values) && Stored(lens, |lens|, values)
      ensures Positions(lens, values)
    {
    }

    /** compute_sorted_huffman */
    method ComputeSortedHuffman(lens: seq<nat>, values: array<nat>)
      requires ValidLengths(lens) && Fits(lens) && Room(lens, values) && Positions(lens, values)
      requires sortedEntries == |Listed(lens, sparse, |lens|)| > 0
      requires sortedCodewords != null && sortedCodewords !in {codewords, codewordLengths, values}
      requires sortedCodewords.Length == sortedEntries + 1 && sortedValues.Length == sortedEntries
      requires sortedValues !in {values, codewordLengths, sortedCodewords, codewords}
      requires sparse ==> codewordLengths.Length == sortedEntries
      modifies sortedCodewords, sortedValues, if sparse then {codewordLengths} else {}
      ensures SortedFor(lens)
    {
      hide Code, Codeword, Listed;
      ListKeys(lens, values);
      KeysDistinct(lens, sparse);
      QSort(sortedCodewords, sortedEntries);
      sortedCodewords[sortedEntries] := SENTINEL;
      PlaceValues(lens, values);
    }

    /** The sorted table, if it has any entries. */
    method SortTables(lengths: seq<nat>, values: array<nat>)
      requires ValidLengths(lengths) && Fits(lengths) && entries == |lengths| > 0
      requires Room(lengths, values) && Stored(lengths, |lengths|, values)
      requires sortedEntries == |Listed(lengths, sparse, |lengths|)|
      modifies this`sortedCodewords, this`sortedValues, if sparse then {codewordLengths} else {}
      ensures sortedValues.Length == sortedEntries
      ensures if sortedEntries > 0 then SortedFor(lengths) else sortedCodewords == null
      ensures sortedEntries > 0 ==> sortedCodewords != null && sortedCodewords.Length == sortedEntries + 1
      ensures sparse ==> codewordLengths.Length == sortedEntries
      ensures fresh(sortedValues) && (sortedCodewords != null ==> fresh(sortedCodewords))
    {
      hide LowestCodes, Listed, Code, Codeword, Fits, SortedFor, Stored;
      StoredPositions(lengths, values);
      sortedCodewords := null;
      sortedValues := new nat[sortedEntries];
      if sortedEntries > 0 {
        sortedCodewords := new nat[sortedEntries + 1];
        ComputeSortedHuffman(lengths, values);
      }
    }

    /** Sorted and fast tables on top of the computed codewords. */
    method FinishTables(lengths: seq<nat>, values: array<nat>)
      requires ValidLengths(lengths) && Fits(lengths) && entries == |lengths| > 0
      requires Room(lengths, values) && Stored(lengths, |lengths|, values)
      requires sortedEntries == |Listed(lengths, sparse, |lengths|)|
      requires !sparse ==> codewordLengths[..] == lengths
      requires fastHuffman.Length == FAST_SIZE
      modifies this`sortedCodewords, this`sortedValues, this`codewords, codewordLengths, fastHuffman
      ensures Valid(lengths)
      ensures sparse == old(sparse)
    {
      hide LowestCodes, Listed, Code, Codeword, Fits, SortedFor, DenseStored;
      SortTables(lengths, values);
      if sparse {
        codewords := null;
      }
      ShortWordsFit(lengths);
      ComputeAcceleratedHuffman();
    }

    lemma ShortWordsFit(lens: seq<nat>)
      requires ValidLengths(lens) && Fits(lens) && entries == |lens| && Slots()
      requires sortedValues.Length == sortedEntries
      requires sparse && sortedEntries > 0 ==> SortedFor(lens)
      requires !sparse ==> codewordLengths[..] == lens && DenseStored(lens, |lens|, codewords[..])
      ensures forall x :: 0 <= x < SlotCount() && codewordLengths[x] <= FAST_LENGTH ==>
        SlotWord(x) < Pow2(codewordLengths[x])
    {
      hide SortedFor, DenseStored, Codeword;
      forall x | 0 <= x < SlotCount() && codewordLengths[x] <= FAST_LENGTH
        ensures SlotWord(x) < Pow2(codewordLengths[x])
      {
        SlotMeaning(lens, x);
      }
    }

    /** Chooses the form of the book and makes room for what compute_codewords writes. */
    method AllocateTables(lengths: seq<nat>, isSparse: bool) returns (values: array<nat>)
      requires ValidLengths(lengths) && lengths != []
      modifies this`entries, this`sparse, this`sortedEntries, this`codewords, this`codewordLengths
      ensures entries == |lengths| && sparse == (isSparse && |Used(lengths, |lengths|)| < |lengths| / 4)
      ensures sortedEntries == |Listed(lengths, sparse, |lengths|)|
      ensures Room(lengths, values) && fresh(codewords) && fresh(codewordLengths) && fresh(values)
      ensures !sparse ==> codewordLengths[..] == lengths
    {
      hide Listed;
      var total := |Used(lengths, |lengths|)|;
      entries, sparse := |lengths|, isSparse;
      if sparse && total >= entries / 4 {
        sparse := false;
      }
      sortedEntries := total;
      if !sparse {
        sortedEntries := CountLong(lengths);
      }
      values := new nat[if sparse then total else 0];
      codewords := new nat[if sparse then total else entries];
      codewordLengths := new nat[if sparse then total else entries];
      if !sparse {
        forall k | 0 <= k < entries {
          codewordLengths[k] := lengths[k];
        }
        assert codewordLengths[..] == lengths;
      }
    }

    /** Builds the tables for the lengths read from a setup header; fails exactly when they overfill the tree. */
    method Build(lengths: seq<nat>, isSparse: bool) returns (ok: bool)
      requires ValidLengths(lengths) && fastHuffman.Length == FAST_SIZE
      modifies this, fastHuffman
      ensures ok <==> lengths != [] && Fits(lengths)
      ensures ok ==> Valid(lengths)
      ensures ok ==> sparse == (isSparse && |Used(lengths, |lengths|)| < |lengths| / 4)
    {
      hide Valid, Fits, Listed, Stored, Used, ValidLengths;
      if |lengths| == 0 {
        return false;
      }
      var values := AllocateTables(lengths, isSparse);
      ok := ComputeCodewords(lengths, values);
      if ok {
        FinishTables(lengths, values);
      }
    }
  }

  // ---------- A book that loses an entry ----------

  /** 32767 entries of 16 bits, and then one of a single bit. */
  function BigBook(): (lens: seq<nat>)
    ensures |lens| == 32768
  {
    seq(32768, i => if i < 32767 then 16 else 1)
  }

  lemma {:induction false} BigBookSum(n: nat)
    requires ValidLengths(BigBook()) && n <= 32767
    ensures KraftSum(BigBook(), n) == 65536 * n
  {
    if n > 0 {
      BigBookSum(n - 1);
      SpanOf16();
    }
  }

  lemma SpanOf16()
    ensures Span(16) == 65536 && Span(1) == 0x8000_0000 && Span(0) == SPACE
  {
    assert Pow2(16) == 65536 by {
      assert Pow2(8) == 256;
      Pow2Add(8, 8);
    }
    SpaceIsSpan();
    SpanHalves(0);
  }

  lemma BigBookFits()
    ensures ValidLengths(BigBook()) && Fits(BigBook())
  {
    var lens := BigBook();
    assert ValidLengths(lens);
    BigBookSum(32767);
    SpanOf16();
    assert KraftSum(lens, 32768) == KraftSum(lens, 32767) + Span(lens[32767]);
  }

  /** Its last entry has the upper half of the code space: the codeword is a single one. */
  lemma BigBookLastCodeword()
    requires ValidLengths(BigBook()) && Fits(BigBook())
    ensures Codeword(BigBook(), 32767) == 1
  {
    hide Fits, LowestCodes;
    var lens := BigBook();
    SpanOf16();
    CodewordFits(lens, 32767);
    CodewordFits(lens, 0);
    FirstCodeIsZero(lens);
    CodesApart(lens, 0, 32767);
    HalfWords(Code(lens, 32767));
  }

  lemma FirstCodeIsZero(lens: seq<nat>)
    requires ValidLengths(lens) && Fits(lens) && lens != [] && lens[0] != NO_CODE
    ensures Code(lens, 0) == 0
  {
    FirstCode(lens, 0);
    LowestCodesPrefix(lens, 1, |lens|);
    assert LowestCodes(lens, |lens|)[0] == LowestCodes(lens, |lens|)[..1][0];
  }

  lemma HalfWords(code: nat)
    requires ValidCode(code, 1) && code != 0
    ensures Rev(code, 32) == 1
  {
    hide Low, High, Pow2, Rev, Shl;
    var hi := High(code, 31);
    LowHigh(code, 31);
    SpanOf16();
    assert Span(1) == Pow2(31);
    if hi == 0 {
      ShlOne(31);
    } else {
      if hi > 1 {
        ShlStrict(1, hi, 31);
        ShlOne(31);
        assert false;
      }
    }
    assert code == Shl(1, 31) by {
      ShlOne(31);
    }
    RevSplit(code, 31, 32);
    LowHighOfSum(0, 31, 1);
    ReversedHalf();
  }

  lemma ReversedHalf()
    ensures Rev(1, 1) == 1 && Rev(0, 31) == 0 && Shl(0, 1) == 0
  {
    RevZero(31);
    assert Rev(1, 1) == Shl(1, 0) + Rev(0, 0);
    ShlOne(1);
  }

  /** The fast table stops before it, and the sorted table leaves short codewords out. */
  lemma BigBookLosesLast(c: Codebook)
    requires c.Valid(BigBook()) && !c.sparse
    ensures !c.Findable(BigBook(), 32767)
  {
    hide Fits;
    var lens := BigBook();
    ListedAll(lens, false, 32768, 0);
    assert Listed(lens, false, 32768) != [];
    assert c.sortedEntries > 0;
  }

  /** Entries too long for the fast table. */
  method CountLong(lengths: seq<nat>) returns (count: nat)
    ensures count == |Listed(lengths, false, |lengths|)|
  {
    count := 0;
    var j := 0;
    while j < |lengths|
      invariant j <= |lengths| && count == |Listed(lengths, false, j)|
    {
      if lengths[j] > FAST_LENGTH && lengths[j] != NO_CODE {
        count := count + 1;
      }
      j := j + 1;
    }
  }

  /** Two numbers with the same low bits are equal or at least one period apart. */
  lemma SameLowFarApart(u: nat, v: nat, k: nat)
    requires Low(u, k) == Low(v, k) && u < v
    ensures u + Pow2(k) <= v
    ensures Low(u + Pow2(k), k) == Low(u, k)
  {
    LowHigh(u, k);
    LowHigh(v, k);
    if High(u, k) < High(v, k) {
      ShlStrict(High(u, k), High(v, k), k);
    } else if High(v, k) < High(u, k) {
      ShlStrict(High(v, k), High(u, k), k);
    }
    LowPeriod(u, k);
  }

  lemma LowPeriod(u: nat, k: nat)
    ensures Low(u + Pow2(k), k) == Low(u, k)
  {
    LowHigh(u, k);
    ShlOne(k);
    ShlAdd(High(u, k), 1, k);
    LowHighOfSum(Low(u, k), k, High(u, k) + 1);
  }

  /** Sets every table entry whose low bits are the codeword. */
  method FillSlot(table: array<int>, slot: nat, codeword: nat, length: nat)
    requires table.Length == FAST_SIZE && codeword < Pow2(length)
    modifies table
    ensures forall v :: 0 <= v < FAST_SIZE ==>
      table[v] == if Low(v, length) == codeword then slot else old(table[v])
  {
    var z := codeword;
    LowOfSmall(codeword, length);
    assert forall v :: 0 <= v < codeword ==> Low(v, length) != codeword by {
      forall v: nat | 0 <= v < codeword ensures Low(v, length) != codeword {
        LowOfSmall(v, length);
      }
    }
    while z < FAST_SIZE
      invariant Low(z, length) == codeword
      invariant forall v :: 0 <= v < FAST_SIZE && v < z ==>
        table[v] == if Low(v, length) == codeword then slot else old(table[v])
      invariant forall v :: z <= v < FAST_SIZE ==> table[v] == old(table[v])
    {
      table[z] := slot;
      forall v: nat | z < v < z + Pow2(length) ensures Low(v, length) != codeword {
        if Low(v, length) == codeword {
          SameLowFarApart(z, v, length);
        }
      }
      LowPeriod(z, length);
      z := z + Pow2(length);
    }
  }

  ghost function KeysOf(lens: seq<nat>, sparse: bool, n: nat): (keys: seq<nat>)
    requires ValidLengths(lens) && n <= |lens|
    ensures |keys| == |Listed(lens, sparse, n)|
  {
    seq(|Listed(lens, sparse, n)|, t requires 0 <= t < |Listed(lens, sparse, n)| =>
      Code(lens, Listed(lens, sparse, n)[t]))
  }

  lemma KeysExtend(lens: seq<nat>, i: nat)
    requires ValidLengths(lens) && i < |lens| && Included(lens, false, i)
    ensures KeysOf(lens, false, i + 1) == KeysOf(lens, false, i) + [Code(lens, i)]
  {
    assert Listed(lens, false, i + 1) == Listed(lens, false, i) + [i];
  }

  lemma KeysStay(lens: seq<nat>, i: nat)
    requires ValidLengths(lens) && i < |lens| && !Included(lens, false, i)
    ensures KeysOf(lens, false, i + 1) == KeysOf(lens, false, i)
  {
    assert Listed(lens, false, i + 1) == Listed(lens, false, i);
  }

  lemma KeyListed(lens: seq<nat>, sparse: bool, i: nat)
    requires ValidLengths(lens) && i < |lens| && Included(lens, sparse, i)
    ensures Code(lens, i) in KeysOf(lens, sparse, |lens|)
  {
    ListedAll(lens, sparse, |lens|, i);
    var t :| 0 <= t < |Listed(lens, sparse, |lens|)| && Listed(lens, sparse, |lens|)[t] == i;
    assert KeysOf(lens, sparse, |lens|)[t] == Code(lens, i);
  }

  lemma KeysDistinct(lens: seq<nat>, sparse: bool)
    requires ValidLengths(lens) && Fits(lens)
    ensures NoDuplicates(KeysOf(lens, sparse, |lens|))
  {
    var list := Listed(lens, sparse, |lens|);
    ListedDistinct(lens, sparse, |lens|);
    forall s, t | 0 <= s < t < |list|
      ensures KeysOf(lens, sparse, |lens|)[s] != KeysOf(lens, sparse, |lens|)[t]
    {
      CodesApart(lens, list[s], list[t]);
    }
  }

  /** The C library's qsort, as far as distinct keys can tell. */
  method QSort(a: array<nat>, n: nat)
    requires n <= a.Length && NoDuplicates(a[..n])
    modifies a
    ensures a[..n] == Sorted(old(a[..n])) && a[n..] == old(a[n..])
  {
    var s := Sorted(a[..n]);
    forall k | 0 <= k < n {
      a[k] := s[k];
    }
  }

  /** The binary search of compute_sorted_huffman and codebook_decode_scalar_raw. */
  method FindSorted(a: array<nat>, count: nat, code: nat) returns (x: nat)
    requires 0 < count <= a.Length && Ascending(a[..count])
    ensures x < count
    ensures x > 0 ==> a[x] <= code
    ensures x + 1 < count ==> code < a[x + 1]
    ensures forall y :: 0 <= y < count && a[y] == code ==> x == y
  {
    x := 0;
    var n := count;
    while n > 1
      invariant 1 <= n && x + n <= count
      invariant x > 0 ==> a[x] <= code
      invariant x + n < count ==> code < a[x + n]
    {
      var m := x + n / 2;
      if a[m] <= code {
        x := m;
        n := n - n / 2;
      } else {
        n := n / 2;
      }
    }
    assert forall y, z :: 0 <= y < z < count ==> a[..count][y] < a[..count][z];
  }

  /** Leaves left by giving code 0 to an entry of length depth. */
  method AddFirstLeaves(available: array<nat>, depth: nat)
    requires available.Length == 32 && depth < 32
    requires forall z :: 0 <= z < 32 ==> available[z] == 0
    modifies available
    ensures available[..] == FirstLeaves(depth)
  {
    var i := 1;
    while i <= depth
      invariant 1 <= i <= depth + 1
      invariant forall z :: 0 <= z < 32 ==> available[z] == if 0 < z < i then Span(z) else 0
    {
      available[i] := Pow2(32 - i);
      i := i + 1;
    }
  }

  /** The lowest available leaf that a code of length depth fits under; 0 if none. */
  method DeepestLeaf(available: array<nat>, depth: nat) returns (z: nat)
    requires available.Length == 32 && depth < 32
    ensures z == Level(available[..], depth)
  {
    z := depth;
    while z > 0 && available[z] == 0
      invariant z <= depth
      invariant Level(available[..], z) == Level(available[..], depth)
    {
      z := z - 1;
    }
  }

  /** Uses leaf z for a code of length depth and propagates availability up the tree. */
  method PropagateLeaf(available: array<nat>, z: nat, depth: nat)
    requires available.Length == 32 && ChosenLevel(available[..], z, depth)
    modifies available
    ensures available[..] == Propagate(old(available[..]), z, depth)
  {
    var res := available[z];
    available[z] := 0;
    if z != depth {
      var y := depth;
      while y > z
        invariant z <= y <= depth
        invariant available[..] == Propagated(old(available[..]), z, y, depth)
      {
        assert available[y] == 0;
        available[y] := res + Pow2(32 - y);
        y := y - 1;
      }
    }
  }

  /** The leaves after the propagation loop has come down to level y. */
  function Propagated(av: seq<nat>, z: nat, y: nat, depth: nat): (r: seq<nat>)
    requires |av| == 32 && z <= y <= depth < 32
    ensures |r| == 32
  {
    seq(32, x requires 0 <= x < 32 =>
      if x == z then 0 else if y < x <= depth then av[z] + Span(x) else av[x])
  }
}
