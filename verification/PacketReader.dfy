/** Packet bytes from Ogg lacing segments, the bit accumulator over them, and Huffman decoding. */
module PacketReader {
  import opened PowersOfTwo
  import opened Words
  import opened HuffmanCode
  import opened Codebooks

  const EOP := -1
  const INVALID_BITS := -1

  /** An Ogg page as far as packets are concerned: its continuation flag, lacing values and body. */
  datatype Page = Page(continued: bool, lacing: seq<nat>, body: seq<nat>)

  function Total(lacing: seq<nat>, n: nat): nat
    requires n <= |lacing|
  {
    if n == 0 then 0 else Total(lacing, n - 1) + lacing[n - 1]
  }

  /** A page with at least one segment that is fully present. */
  predicate WholePage(p: Page) {
    && 0 < |p.lacing|
    && (forall i :: 0 <= i < |p.lacing| ==> p.lacing[i] <= 255)
    && |p.body| == Total(p.lacing, |p.lacing|)
    && (forall i :: 0 <= i < |p.body| ==> p.body[i] < 256)
  }

  predicate WholePages(pages: seq<Page>) {
    forall i :: 0 <= i < |pages| ==> WholePage(pages[i])
  }

  lemma {:induction false} TotalMonotone(lacing: seq<nat>, m: nat, n: nat)
    requires m <= n <= |lacing|
    ensures Total(lacing, m) <= Total(lacing, n)
    decreases n - m
  {
    if m < n {
      TotalMonotone(lacing, m, n - 1);
    }
  }

  /** The bytes of segment seg of a page. */
  function Segment(p: Page, seg: nat): seq<nat>
    requires WholePage(p) && seg < |p.lacing|
  {
    TotalMonotone(p.lacing, seg, seg + 1);
    TotalMonotone(p.lacing, seg + 1, |p.lacing|);
    p.body[Total(p.lacing, seg)..Total(p.lacing, seg + 1)]
  }

  function NextSeg(p: Page, seg: nat): int
  {
    if seg + 1 < |p.lacing| then seg + 1 else -1
  }

  /** Section 6 of RFC 3533: a packet is its segments up to the first one below 255 bytes, and
      goes on in the next page when that page is flagged as continuing it. seg is -1 at a page's end. */
  function PacketFrom(pages: seq<Page>, page: nat, seg: int): (r: seq<nat>)
    requires WholePages(pages) && page < |pages| && -1 <= seg < |pages[page].lacing|
    decreases |pages| - page, if seg == -1 then 0 else |pages[page].lacing| - seg
  {
    if seg == -1 then
      if page + 1 < |pages| && pages[page + 1].continued then PacketFrom(pages, page + 1, 0) else []
    else
      Segment(pages[page], seg) +
      if pages[page].lacing[seg] < 255 then [] else PacketFrom(pages, page, NextSeg(pages[page], seg))
  }

  /** The packet breaks off at a page that should continue it but is not flagged so. */
  predicate BreaksOff(pages: seq<Page>, page: nat, seg: int)
    requires WholePages(pages) && page < |pages| && -1 <= seg < |pages[page].lacing|
    decreases |pages| - page, if seg == -1 then 0 else |pages[page].lacing| - seg
  {
    if seg == -1 then
      page + 1 < |pages| && (pages[page + 1].continued ==> BreaksOff(pages, page + 1, 0))
    else
      pages[page].lacing[seg] == 255 && BreaksOff(pages, page, NextSeg(pages[page], seg))
  }

  /** Where a segment lies in its page's body. */
  lemma SegmentAt(p: Page, seg: nat)
    requires WholePage(p) && seg < |p.lacing|
    ensures Total(p.lacing, seg + 1) == Total(p.lacing, seg) + p.lacing[seg] <= |p.body|
    ensures seg + 1 == |p.lacing| ==> Total(p.lacing, seg + 1) == |p.body|
    ensures Segment(p, seg) == p.body[Total(p.lacing, seg)..Total(p.lacing, seg + 1)]
  {
    TotalMonotone(p.lacing, seg + 1, |p.lacing|);
  }

  lemma FirstSegment(p: Page)
    ensures Total(p.lacing, 0) == 0
  {
  }

  lemma PacketStep(pages: seq<Page>, page: nat, seg: nat)
    requires WholePages(pages) && page < |pages| && seg < |pages[page].lacing|
    ensures var p, next := pages[page], NextSeg(pages[page], seg);
      && PacketFrom(pages, page, seg)
          == Segment(p, seg) + (if p.lacing[seg] < 255 then [] else PacketFrom(pages, page, next))
      && BreaksOff(pages, page, seg) == (p.lacing[seg] == 255 && BreaksOff(pages, page, next))
  {
  }

  lemma PacketNextPage(pages: seq<Page>, page: nat)
    requires WholePages(pages) && page < |pages|
    ensures if page + 1 < |pages| then
        && PacketFrom(pages, page, -1) == (if pages[page + 1].continued then PacketFrom(pages, page + 1, 0) else [])
        && BreaksOff(pages, page, -1) == (pages[page + 1].continued ==> BreaksOff(pages, page + 1, 0))
      else PacketFrom(pages, page, -1) == [] && !BreaksOff(pages, page, -1)
  {
  }

  /** Little-endian value of a byte string. */
  function BytesValue(b: seq<nat>): nat
  {
    if b == [] then 0 else b[0] + Shl(BytesValue(b[1..]), 8)
  }

  // ---------- Bits in the accumulator and bits still in the packet are one number ----------

  /** One more byte above the accumulator leaves the whole value unchanged. */
  lemma RefillValue(acc: nat, bits: nat, z: nat, rest: nat)
    ensures acc + Shl(z + Shl(rest, 8), bits) == acc + Shl(z, bits) + Shl(rest, bits + 8)
  {
    ShlAdd(z, Shl(rest, 8), bits);
    ShlShl(rest, 8, bits);
  }

  lemma RefillBound(acc: nat, bits: nat, z: nat)
    requires acc < Pow2(bits) && z < 256
    ensures acc + Shl(z, bits) < Pow2(bits + 8)
  {
    ShlOne(8);
    assert Pow2(8) == 256;
    ShlStrict(z, 256, bits);
    ShlIsMul(256, bits);
    Pow2Add(8, bits);
  }

  lemma {:induction false} HighOfSum(lo: nat, k: nat, hi: nat, n: nat)
    requires n <= k && lo < Pow2(k)
    ensures High(lo + Shl(hi, k), n) == High(lo, n) + Shl(hi, k - n)
    ensures Low(lo + Shl(hi, k), n) == Low(lo, n)
    ensures High(lo, n) < Pow2(k - n)
  {
    if n > 0 {
      assert (lo + Shl(hi, k)) / 2 == lo / 2 + Shl(hi, k - 1);
      assert (lo + Shl(hi, k)) % 2 == lo % 2;
      HighOfSum(lo / 2, k - 1, hi, n - 1);
    }
  }

  /** Bits a refill can bring into the 32-bit accumulator when count bits are left in the packet. */
  function Window(count: nat): (w: nat)
    ensures w <= count && w <= 32
    ensures w == count || w >= 25
  {
    var aligned := 25 + (count + 7) % 8;
    if count < aligned then count else aligned
  }

  class Vorb {
    const pages: seq<Page>
    var page: nat
    var nextSeg: int
    var lastSeg: bool
    var bytesInSeg: nat
    var offset: nat
    var acc: nat
    var validBits: int
    var flagError: bool

    constructor (pages: seq<Page>)
      requires WholePages(pages) && pages != []
      ensures this.pages == pages && Valid() && validBits == 0
      ensures Remaining() == PacketFrom(pages, 0, 0) && Intact() == !BreaksOff(pages, 0, 0)
    {
      this.pages := pages;
      page, nextSeg, lastSeg, bytesInSeg, offset := 0, 0, false, 0, 0;
      acc, validBits, flagError := 0, 0, false;
    }

    predicate Valid()
      reads this
    {
      && WholePages(pages) && page < |pages|
      && -1 <= nextSeg < |pages[page].lacing|
      && offset + bytesInSeg == (if nextSeg == -1 then |pages[page].body| else Total(pages[page].lacing, nextSeg))
      && offset + bytesInSeg <= |pages[page].body|
      && INVALID_BITS <= validBits <= 32
      && (validBits > 0 ==> acc < Pow2(validBits))
    }

    /** Bytes of the current packet that get8_packet_raw has not delivered yet. */
    ghost function Remaining(): seq<nat>
      requires Valid()
      reads this
    {
      pages[page].body[offset..offset + bytesInSeg] + if lastSeg then [] else PacketFrom(pages, page, nextSeg)
    }

    ghost predicate Intact()
      requires Valid()
      reads this
    {
      lastSeg || !BreaksOff(pages, page, nextSeg)
    }

    /** A read that ran past the end of the packet leaves nothing of it. */
    predicate Ready()
      reads this
    {
      validBits >= 0 || (lastSeg && bytesInSeg == 0)
    }

    ghost function Held(): nat
      reads this
    {
      if validBits > 0 then validBits else 0
    }

    /** Bits left in the packet, in the accumulator or not. */
    ghost function Count(): nat
      requires Valid()
      reads this
    {
      Held() + 8 * |Remaining()|
    }

    /** Those bits as one number, the next bit lowest. */
    ghost function Value(): nat
      requires Valid()
      reads this
    {
      (if validBits > 0 then acc else 0) + Shl(BytesValue(Remaining()), Held())
    }

    /** Opens the segment that the next lacing value describes. */
    method TakeSegment() returns (len: nat)
      requires Valid() && bytesInSeg == 0 && nextSeg != -1 && !lastSeg
      modifies this
      ensures Valid() && acc == old(acc) && validBits == old(validBits) && flagError == old(flagError)
      ensures bytesInSeg == len && (len == 0 ==> lastSeg)
      ensures Remaining() == old(PacketFrom(pages, page, nextSeg))
      ensures len == 0 ==> Remaining() == []
      ensures Intact() == old(Intact())
    {
      hide Pow2, Total, Segment, PacketFrom, BreaksOff;
      ghost var seg := nextSeg;
      var p := pages[page];
      SegmentAt(p, seg);
      PacketStep(pages, page, seg);
      len := p.lacing[nextSeg];
      nextSeg := nextSeg + 1;
      if len < 255 {
        lastSeg := true;
      }
      if nextSeg >= |p.lacing| {
        nextSeg := -1;
      }
      bytesInSeg := len;
      assert nextSeg == NextSeg(p, seg);
    }

    /** Goes on to the page that continues the packet, if there is one. */
    method NextPage() returns (ok: bool)
      requires Valid() && bytesInSeg == 0 && nextSeg == -1 && !lastSeg
      modifies `page, `offset, `nextSeg, `lastSeg, `flagError
      ensures ok ==> nextSeg == 0 && !lastSeg && flagError == old(flagError)
      ensures Valid() && (ok ==> Remaining() == old(Remaining()) && Intact() == old(Intact()))
      ensures !ok ==> old(Remaining()) == [] && flagError == (old(flagError) || !old(Intact()))
      ensures !ok && old(Intact()) ==> lastSeg
    {
      hide Pow2, Segment, Total, PacketFrom, BreaksOff;
      PacketNextPage(pages, page);
      if page + 1 == |pages| {
        lastSeg := true;
        return false;
      }
      FirstSegment(pages[page + 1]);
      page, offset, nextSeg := page + 1, 0, 0;
      if !pages[page].continued {
        flagError := true;
        return false;
      }
      return true;
    }

    method NextSegment() returns (len: nat)
      requires Valid() && bytesInSeg == 0
      modifies this
      ensures Valid() && acc == old(acc) && validBits == old(validBits)
      ensures len == 0 <==> old(Remaining()) == []
      ensures bytesInSeg == len
      ensures len > 0 ==> Remaining() == old(Remaining())
      ensures flagError == (old(flagError) || (len == 0 && !old(Intact())))
      ensures len == 0 && old(Intact()) ==> lastSeg
      ensures old(Intact()) ==> Intact()
    {
      hide Pow2, Segment, Total, PacketFrom, BreaksOff;
      if lastSeg {
        return 0;
      }
      if nextSeg == -1 {
        var ok := NextPage();
        if !ok {
          return 0;
        }
      }
      assert Remaining() == PacketFrom(pages, page, nextSeg);
      len := TakeSegment();
      if len > 0 {
        assert Remaining()[0] == pages[page].body[offset];
      }
    }

    /** Delivers the packet's bytes in order, then EOP. */
    method Get8PacketRaw() returns (r: int)
      requires Valid()
      modifies this
      ensures Valid() && acc == old(acc) && validBits == old(validBits)
      ensures r == EOP <==> old(Remaining()) == []
      ensures r != EOP ==> r == old(Remaining())[0] && 0 <= r < 256 && Remaining() == old(Remaining())[1..]
      ensures r != EOP ==> flagError == old(flagError)
      ensures r == EOP ==> bytesInSeg == 0 && flagError == (old(flagError) || !old(Intact()))
      ensures r == EOP && old(Intact()) ==> lastSeg && Remaining() == []
      ensures old(Intact()) ==> Intact()
    {
      hide PacketFrom, BreaksOff, Pow2, Total, Remaining, WholePages;
      if bytesInSeg == 0 {
        if lastSeg {
          NothingLeft();
          return EOP;
        }
        var len := NextSegment();
        if len == 0 {
          if lastSeg {
            NothingLeft();
          }
          return EOP;
        }
      }
      r := NextByte();
    }

    lemma NothingLeft()
      requires Valid() && bytesInSeg == 0 && lastSeg
      ensures Remaining() == [] && Intact()
    {
      hide PacketFrom, BreaksOff, Pow2, Total;
    }

    /** The next byte of the segment that is open. */
    method NextByte() returns (r: int)
      requires Valid() && bytesInSeg > 0
      modifies `offset, `bytesInSeg
      ensures Valid() && old(Remaining()) != []
      ensures r == old(Remaining())[0] && 0 <= r < 256 && Remaining() == old(Remaining())[1..]
      ensures Intact() == old(Intact())
    {
      hide PacketFrom, BreaksOff, Pow2, Total;
      assert Remaining()[0] == pages[page].body[offset];
      r := pages[page].body[offset];
      offset, bytesInSeg := offset + 1, bytesInSeg - 1;
    }

    /** One more packet byte above the bits in the accumulator. */
    method Refill() returns (got: bool)
      requires Valid() && 0 <= validBits <= 24 && (validBits == 0 ==> acc == 0)
      modifies this
      ensures Valid()
      ensures got <==> old(Remaining()) != []
      ensures got ==> validBits == old(validBits) + 8 && Remaining() == old(Remaining())[1..]
      ensures got ==> Value() == old(Value()) && Count() == old(Count()) && flagError == old(flagError)
      ensures !got ==> validBits == old(validBits) && acc == old(acc)
      ensures !got && old(Intact()) ==> lastSeg && bytesInSeg == 0 && Remaining() == []
      ensures !got && old(Intact()) ==> Value() == old(Value()) && Count() == old(Count())
      ensures !got ==> flagError == (old(flagError) || !old(Intact()))
      ensures old(Intact()) ==> Intact()
    {
      hide PacketFrom, BreaksOff, Pow2, Total, Shl, WholePages;
      ghost var bits := validBits;
      var z := Get8PacketRaw();
      if z == EOP {
        return false;
      }
      RefillBound(if bits > 0 then acc else 0, bits, z) by {
        assert Pow2(0) > 0;
      }
      RefillValue(acc, bits, z, BytesValue(Remaining()));
      ghost var before := old(Remaining());
      assert BytesValue(before) == before[0] + Shl(BytesValue(before[1..]), 8);
      acc := acc + Shl(z, validBits);
      validBits := validBits + 8;
      return true;
    }

    /** Stale accumulator bits go before the first byte is added. */
    method ClearStale()
      requires Valid()
      modifies `acc
      ensures Valid() && (validBits == 0 ==> acc == 0)
      ensures Value() == old(Value()) && Count() == old(Count()) && Intact() == old(Intact())
    {
      hide PacketFrom, BreaksOff, Pow2, Total;
      if validBits == 0 {
        acc := 0;
      }
    }

    /** Removes n held bits. */
    method Take(n: nat) returns (z: nat)
      requires Valid() && n <= validBits
      modifies `acc, `validBits
      ensures Valid() && validBits == old(validBits) - n
      ensures z == Low(old(Value()), n) && Value() == High(old(Value()), n)
      ensures Count() == old(Count()) - n && Intact() == old(Intact())
    {
      hide PacketFrom, BreaksOff, Total, BytesValue, WholePages, Pow2;
      Pow2Zero();
      if validBits > 0 {
        HighOfSum(acc, validBits, BytesValue(Remaining()), n);
      }
      z := Low(acc, n);
      acc := High(acc, n);
      validBits := validBits - n;
    }

    /** Reads bytes until n bits are held, or the packet ends. */
    method Hold(n: nat) returns (ok: bool)
      requires Valid() && 0 <= validBits < n <= 24
      modifies this
      ensures Valid() && (old(Intact()) ==> Intact())
      ensures ok <==> n <= old(Count())
      ensures ok ==> n <= validBits && Value() == old(Value()) && Count() == old(Count())
      ensures !ok ==> validBits == INVALID_BITS
      ensures old(Intact()) ==> Ready()
    {
      hide PacketFrom, BreaksOff, Total, BytesValue, Pow2, Value, Intact;
      ClearStale();
      while validBits < n
        invariant Valid() && 0 <= validBits && (validBits == 0 ==> acc == 0)
        invariant Value() == old(Value()) && Count() == old(Count())
        invariant old(Intact()) ==> Intact()
      {
        var got := Refill();
        if !got {
          MarkInvalid();
          return false;
        }
      }
      return true;
    }

    method MarkInvalid()
      requires Valid()
      modifies `validBits
      ensures lastSeg == old(lastSeg) && bytesInSeg == old(bytesInSeg)
      ensures Valid() && validBits == INVALID_BITS && Intact() == old(Intact())
    {
      validBits := INVALID_BITS;
    }

    /** What get_bits(n) promises; after the packet runs out it delivers 0 for ever. */
    twostate predicate BitsRead(n: nat, z: nat)
      requires old(Valid()) && Valid()
      reads this
    {
      && (old(validBits) < 0 ==> z == 0 && validBits == old(validBits))
      && (old(validBits) >= 0 && n <= old(Count()) ==>
            && z == Low(old(Value()), n) && Value() == High(old(Value()), n)
            && Count() == old(Count()) - n && validBits >= 0)
      && (old(validBits) >= 0 && old(Count()) < n ==>
            && validBits == INVALID_BITS
            && z == if n > 24 && old(Count()) >= 24 then Low(old(Value()), 24) else 0)
    }

    method GetFewBits(n: nat) returns (z: nat)
      requires Valid() && (n <= 24 || n <= validBits)
      modifies this
      ensures Valid() && (old(Intact()) ==> Intact())
      ensures old(Intact() && Ready()) ==> Ready()
      ensures BitsRead(n, z)
    {
      hide PacketFrom, BreaksOff, Total, BytesValue, Pow2, Value, Intact;
      if validBits < 0 {
        return 0;
      }
      if validBits < n {
        var ok := Hold(n);
        if !ok {
          return 0;
        }
      }
      z := Take(n);
    }

    /** The next n bits of the packet, least significant first. */
    method GetBits(n: nat) returns (z: nat)
      requires Valid() && n <= 32 && (n == 32 ==> validBits < 32)
      modifies this
      ensures Valid() && (old(Intact()) ==> Intact())
      ensures old(Intact() && Ready()) ==> Ready()
      ensures BitsRead(n, z)
    {
      hide PacketFrom, BreaksOff, Total, BytesValue, Pow2, Value, Intact, Valid;
      if validBits < 0 {
        return 0;
      }
      if validBits < n && n > 24 {
        ghost var v := Value();
        z := GetFewBits(24);
        var high := GetFewBits(n - 24);
        z := z + Shl(high, 24);
        LowSplit(v, 24, n - 24);
        HighHigh(v, 24, n - 24);
        ShlOne(24);
        return;
      }
      z := GetFewBits(n);
    }

    /** Fills the accumulator with whole bytes up to 25 bits or more, unless the packet ends. */
    method PrepHuffman()
      requires Valid() && Intact()
      requires Ready()
      modifies this
      ensures Valid() && Intact() && flagError == old(flagError)
      ensures old(validBits) < 0 ==> validBits == old(validBits) && lastSeg && bytesInSeg == 0
      ensures Value() == old(Value()) && Count() == old(Count())
      ensures old(validBits) >= 0 ==> validBits == Window(Count()) && (validBits == 0 ==> acc == 0)
    {
      hide PacketFrom, BreaksOff, Total, BytesValue, Pow2, Value, Intact;
      if validBits <= 24 {
        ClearStale();
        while validBits <= 24
          invariant Valid() && Intact() && flagError == old(flagError)
          invariant old(validBits) < 0 ==> validBits == old(validBits) && lastSeg && bytesInSeg == 0
          invariant old(validBits) >= 0 ==> 0 <= validBits && (validBits == 0 ==> acc == 0)
          invariant Value() == old(Value()) && Count() == old(Count())
          decreases 25 - validBits
        {
          if lastSeg && bytesInSeg == 0 {
            return;
          }
          var got := Refill();
          if !got {
            return;
          }
        }
      }
    }

    // ---------- Huffman decoding ----------

    /** The accumulator holds the low bits of what is left. */
    lemma HeldBits()
      requires Valid() && validBits >= 0 && (validBits == 0 ==> acc == 0)
      ensures acc == Low(Value(), validBits)
    {
      if validBits > 0 {
        HighOfSum(acc, validBits, BytesValue(Remaining()), validBits);
        LowOfSmall(acc, validBits);
      }
    }

    /** A decode either consumes the codeword of the entry it returns, or fails and drops the held bits. */
    twostate predicate Consumed(c: Codebook, lens: seq<nat>, r: int)
      requires old(Valid()) && Valid() && c.Valid(lens)
      reads this, c, c.sortedValues, c.sortedCodewords, c.codewords, c.codewordLengths, c.fastHuffman
    {
      && validBits >= 0
      && (r < 0 ==> r == -1 && validBits == 0)
      && (r >= 0 ==>
            && r < c.SlotCount() && c.EntryOf(r) < |lens| && lens[c.EntryOf(r)] != NO_CODE
            && lens[c.EntryOf(r)] <= Window(old(Count()))
            && Count() == old(Count()) - lens[c.EntryOf(r)]
            && Value() == High(old(Value()), lens[c.EntryOf(r)]))
    }

    /** The decode of what is left comes to slot r, or to nothing if r is negative: FindsIn says which it has to be. */
    twostate predicate Finds(c: Codebook, lens: seq<nat>, r: int, fast: bool)
      requires old(Valid()) && Valid() && c.Valid(lens)
      requires r >= 0 ==> r < c.SlotCount()
      reads this, c, c.sortedValues, c.sortedCodewords, c.codewords, c.codewordLengths, c.fastHuffman
    {
      FindsIn(c, lens, fast, old(Value()), old(Count()), r)
    }

    /** What is left begins with entry i's codeword: the decode returns i exactly when the tables it went
        through can come up with i and the refill brought all of the codeword in. */
    static ghost predicate FindsIn(c: Codebook, lens: seq<nat>, fast: bool, v: nat, count: nat, r: int)
      requires c.Valid(lens) && (r >= 0 ==> r < c.SlotCount())
      reads c, c.sortedValues, c.sortedCodewords, c.codewords, c.codewordLengths, c.fastHuffman
    {
      forall i :: Matches(lens, i, v) ==>
        ((r >= 0 && c.EntryOf(r) == i) <==> (lens[i] <= Window(count) && c.Reaches(lens, fast, i)))
    }

    /** The codeword that what is left begins with is among the held bits, unless as much is held as a refill brings. */
    static ghost predicate HeldEnough(c: Codebook, lens: seq<nat>, v: nat, held: int, count: nat)
      requires c.Valid(lens)
      reads c, c.sortedValues, c.sortedCodewords, c.codewords, c.codewordLengths, c.fastHuffman
    {
      && -1 <= held <= Window(count) && (held < 0 ==> count == 0)
      && (0 <= held < Window(count) ==> forall i :: Matches(lens, i, v) ==> lens[i] <= held)
    }

    /** A codeword of at most w bits shows in the low w bits already. */
    lemma MatchInWindow(lens: seq<nat>, i: int, v: nat, w: nat)
      requires ValidLengths(lens) && 0 <= i < |lens| && lens[i] <= w
      ensures Matches(lens, i, Low(v, w)) <==> Matches(lens, i, v)
    {
      LowOfLow(v, lens[i], w);
    }

    /** A lookup of the held bits settles the decode of what is left. */
    lemma AnswerDecides(c: Codebook, lens: seq<nat>, fast: bool, v: nat, held: int, count: nat, slot: int, i: int)
      requires c.Valid(lens) && Matches(lens, i, v)
      requires -1 <= held <= Window(count) && (held < Window(count) ==> held < 0 || lens[i] <= held)
      requires held < 0 ==> count == 0
      requires held >= 0 ==> c.Answers(lens, fast, Low(v, held), slot)
      ensures (held >= 0 && 0 <= slot < c.SlotCount() && c.codewordLengths[slot] <= held && c.EntryOf(slot) == i)
        <==> (lens[i] <= Window(count) && c.Reaches(lens, fast, i))
    {
      hide Codeword, Low;
      assert 1 <= lens[i];
      if held >= 0 {
        if lens[i] <= held {
          MatchInWindow(lens, i, v, held);
        }
        if 0 <= slot < c.SlotCount() {
          c.ValidSlot(lens, slot);
        }
      }
    }

    /** The slot that a lookup of the held bits ended at, or -1 if its codeword is longer than what is held. */
    static function Outcome(c: Codebook, held: int, slot: int): (r: int)
      requires c.Slots() && slot < c.SlotCount()
      reads c, c.codewordLengths, c.sortedCodewords, c.codewords
      ensures r >= 0 ==> r == slot
    {
      if 0 <= slot && c.codewordLengths[slot] <= held then slot else -1
    }

    lemma OutcomeFinds(c: Codebook, lens: seq<nat>, fast: bool, v: nat, held: int, count: nat, slot: int)
      requires c.Valid(lens) && slot < c.SlotCount() && HeldEnough(c, lens, v, held, count)
      requires held >= 0 ==> -1 <= slot && c.Answers(lens, fast, Low(v, held), slot)
      requires held < 0 ==> -1 <= slot
      ensures FindsIn(c, lens, fast, v, count, Outcome(c, held, slot))
    {
      hide Low, Codebook.Answers, Codebook.Reaches, ValidLengths, Codebook.SortedFor, Codebook.FastBelow, Window;
      forall i | Matches(lens, i, v)
        ensures (held >= 0 && 0 <= slot && c.codewordLengths[slot] <= held && c.EntryOf(slot) == i)
          <==> (lens[i] <= Window(count) && c.Reaches(lens, fast, i))
      {
        AnswerDecides(c, lens, fast, v, held, count, slot, i);
      }
    }

    /** Removes the codeword of a looked-up slot, or fails when it is longer than what is held. */
    method Consume(c: Codebook, ghost lens: seq<nat>, slot: nat, ghost fast: bool) returns (r: int)
      requires Valid() && Intact() && c.Valid(lens) && slot < c.SlotCount()
      requires c.Answers(lens, fast, acc, slot)
      requires Ready()
      requires HeldEnough(c, lens, Value(), validBits, Count()) && (validBits == 0 ==> acc == 0)
      modifies this
      ensures Valid() && Intact() && Consumed(c, lens, r) && Finds(c, lens, r, fast)
    {
      hide PacketFrom, BreaksOff, Total, BytesValue, Pow2, Value, Low, High, Matches, WholePages, FindsIn;
      hide Codebook.Valid, Codebook.Answers, Codebook.Reaches;
      c.TablesPresent(lens);
      c.ValidSlot(lens, slot);
      if validBits >= 0 {
        HeldBits();
      }
      OutcomeFinds(c, lens, fast, Value(), validBits, Count(), slot);
      var len := c.codewordLengths[slot];
      if len <= validBits {
        var _ := Take(len);
        return slot;
      }
      DropHeld();
      return -1;
    }

    method DropHeld()
      requires Valid()
      modifies `validBits
      ensures Valid() && validBits == 0 && Intact() == old(Intact())
    {
      hide PacketFrom, BreaksOff, Total, Pow2;
      validBits := 0;
    }

    /** No entry's codeword is what is left; the packet is given up. */
    method GiveUp(c: Codebook, ghost lens: seq<nat>, ghost fast: bool) returns (r: int)
      requires Valid() && Intact() && c.Valid(lens)
      requires c.Answers(lens, fast, acc, -1)
      requires Ready()
      requires HeldEnough(c, lens, Value(), validBits, Count()) && (validBits == 0 ==> acc == 0)
      modifies this
      ensures Valid() && Intact() && Consumed(c, lens, r) && Finds(c, lens, r, fast) && r == -1
    {
      hide PacketFrom, BreaksOff, Total, BytesValue, Pow2, Value, Low, High, Matches, WholePages, FindsIn;
      hide Codebook.Valid, Codebook.Answers, Codebook.Reaches;
      c.TablesPresent(lens);
      if validBits >= 0 {
        HeldBits();
      }
      OutcomeFinds(c, lens, fast, Value(), validBits, Count(), -1);
      DropHeld();
      return -1;
    }

    /** codebook_decode_scalar_raw */
    method DecodeScalarRaw(c: Codebook, ghost lens: seq<nat>) returns (r: int)
      requires Valid() && Intact() && c.Valid(lens)
      requires Ready()
      modifies this
      ensures Valid() && Intact() && r >= -1
      ensures c.SlotCount() > 0 ==> Consumed(c, lens, r) && Finds(c, lens, r, false)
      ensures c.SlotCount() == 0 ==> r == -1 && Count() == old(Count()) && Value() == old(Value())
    {
      hide PacketFrom, BreaksOff, Total, BytesValue, Pow2, Value, Low, High, Matches, WholePages, FindsIn;
      hide Codebook.Valid, Codebook.Answers, Codebook.Linear, Codebook.Reaches;
      c.TablesPresent(lens);
      PrepHuffman();
      if c.codewords == null && c.sortedCodewords == null {
        return -1;
      }
      if !c.Linear() {
        var slot := c.SearchSorted(lens, acc);
        r := Consume(c, lens, slot, false);
      } else {
        var i := c.SearchLinear(lens, acc);
        if i >= 0 {
          r := Consume(c, lens, i, false);
        } else {
          r := GiveUp(c, lens, false);
        }
      }
    }

    /** A hit of the fast table on the held bits is the entry that what is left begins with. */
    lemma FastHitIsOnly(c: Codebook, lens: seq<nat>, v: nat, held: nat, slot: nat, i: int)
      requires c.Valid(lens) && FAST_LENGTH <= held && slot < c.SlotCount()
      requires c.codewordLengths[slot] <= FAST_LENGTH && Matches(lens, c.EntryOf(slot), Low(v, held))
      requires Matches(lens, i, v)
      ensures lens[i] <= held
    {
      hide Codeword, Low;
      c.ValidSlot(lens, slot);
      MatchInWindow(lens, c.EntryOf(slot), v, held);
      AtMostOneMatch(lens, i, c.EntryOf(slot), v);
    }

    lemma FastHitHeldEnough(c: Codebook, lens: seq<nat>, v: nat, held: int, count: nat, slot: nat)
      requires c.Valid(lens) && -1 <= held <= Window(count) && (held < 0 ==> count == 0)
      requires 0 <= held < FAST_LENGTH ==> held == Window(count)
      requires slot < c.SlotCount() && c.codewordLengths[slot] <= FAST_LENGTH
      requires held >= 0 ==> c.EntryOf(slot) < |lens| && Matches(lens, c.EntryOf(slot), Low(v, held))
      ensures HeldEnough(c, lens, v, held, count)
    {
      hide Low, Codebook.Valid;
      c.TablesPresent(lens);
      if FAST_LENGTH <= held {
        forall i | Matches(lens, i, v)
          ensures 0 <= i < |lens| && lens[i] <= held
        {
          FastHitIsOnly(c, lens, v, held, slot, i);
        }
      }
    }

    /** After a fast miss the search reaches everything that is findable at all. */
    lemma FastMissLeavesSearch(c: Codebook, lens: seq<nat>, v: nat, held: nat, i: int)
      requires c.Valid(lens) && Matches(lens, i, v) && (lens[i] > FAST_LENGTH || lens[i] <= held)
      requires forall j :: Matches(lens, j, Low(v, held)) && c.Findable(lens, j) ==> c.Searchable(lens, j)
      ensures c.Findable(lens, i) <==> c.Searchable(lens, i)
    {
      hide Codeword, Low;
      if lens[i] <= held {
        MatchInWindow(lens, i, v, held);
      }
    }

    lemma FastMissFinds(c: Codebook, lens: seq<nat>, v: nat, held: int, count: nat, r: int)
      requires c.Valid(lens) && -1 <= held <= Window(count) && (held < 0 ==> count == 0)
      requires 0 <= held < FAST_LENGTH ==> held == Window(count)
      requires held >= 0 ==>
        forall j :: Matches(lens, j, Low(v, held)) && c.Findable(lens, j) ==> c.Searchable(lens, j)
      requires (r >= 0 ==> r < c.SlotCount()) && FindsIn(c, lens, false, v, count, r)
      ensures FindsIn(c, lens, true, v, count, r)
    {
      hide Low, Codebook.Findable, Codebook.Searchable, Codebook.SortedFor, Codebook.FastBelow, Codeword;
      forall i | Matches(lens, i, v) && lens[i] <= Window(count)
        ensures c.Findable(lens, i) <==> c.Searchable(lens, i)
      {
        assert lens[i] >= 1;
        FastMissLeavesSearch(c, lens, v, held, i);
      }
    }

    /** Enough bits for the fast table, if the packet has them. */
    method FillForFast()
      requires Valid() && Intact() && Ready()
      modifies this
      ensures Valid() && Intact() && Ready() && Value() == old(Value()) && Count() == old(Count())
      ensures -1 <= validBits <= Window(Count()) && (validBits < 0 ==> Count() == 0)
      ensures 0 <= validBits < FAST_LENGTH ==> validBits == Window(Count())
      ensures validBits >= 0 ==> acc == Low(Value(), validBits)
      ensures validBits == 0 ==> acc == 0
      ensures (old(validBits) < 0) == (validBits < 0)
    {
      hide PacketFrom, BreaksOff, Total, BytesValue, Pow2, Value, Low, High, WholePages, Intact;
      if validBits < FAST_LENGTH {
        PrepHuffman();
      }
      if validBits >= 0 {
        HeldBits();
      }
    }

    /** DECODE_RAW: fast table first, then the search. */
    method DecodeRaw(c: Codebook, ghost lens: seq<nat>) returns (r: int)
      requires Valid() && Intact() && c.Valid(lens)
      requires Ready()
      modifies this
      ensures Valid() && Intact() && r >= -1
      ensures c.SlotCount() > 0 ==> Consumed(c, lens, r) && Finds(c, lens, r, true)
      ensures c.SlotCount() == 0 ==> r == -1 && Count() == old(Count()) && Value() == old(Value())
    {
      hide PacketFrom, BreaksOff, Total, BytesValue, Pow2, Value, Low, High, WholePages, FindsIn, HeldEnough, Valid;
      hide Codebook.Valid, Codebook.Linear, Intact, Codebook.Findable, Codebook.Searchable, Codebook.Slots;
      c.TablesPresent(lens);
      FillForFast();
      ghost var v, held, count := Value(), validBits, Count();
      c.FastAnswers(lens, acc);
      r := c.fastHuffman[Low(acc, FAST_LENGTH)];
      if r >= 0 {
        FastHitHeldEnough(c, lens, v, held, count, r);
        r := Consume(c, lens, r, true);
      } else {
        r := DecodeScalarRaw(c, lens);
        if c.SlotCount() > 0 {
          FastMissFinds(c, lens, v, held, count, r);
        }
      }
    }

    /** DECODE: the entry, or -1. */
    method Decode(c: Codebook, ghost lens: seq<nat>) returns (entry: int)
      requires Valid() && Intact() && c.Valid(lens) && c.SlotCount() > 0
      requires Ready()
      modifies this
      ensures Valid() && Intact() && validBits >= 0
      ensures -1 <= entry < |lens|
      ensures entry == -1 ==> validBits == 0
      ensures entry >= 0 ==>
        && lens[entry] != NO_CODE && lens[entry] <= Window(old(Count()))
        && Count() == old(Count()) - lens[entry] && Value() == High(old(Value()), lens[entry])
      ensures forall i :: Matches(lens, i, old(Value())) ==>
        (entry == i <==> (c.Findable(lens, i) && lens[i] <= Window(old(Count()))))
    {
      hide PacketFrom, BreaksOff, Total, BytesValue, Pow2, Value, Low, High, Codeword, Listed, LowestCodes;
      hide Codebook.Valid, Codebook.Findable, Intact;
      c.TablesPresent(lens);
      var r := DecodeRaw(c, lens);
      if r < 0 {
        return -1;
      }
      c.EntryPresent(lens, r);
      entry := if c.sparse then c.sortedValues[r] else r;
    }
  }

  // ---------- Reading back what was written ----------

  /** What a packet writer puts out: a plain field of n bits, or the codeword of an entry of one of its codebooks. */
  datatype Item = Field(n: nat, value: nat) | Symbol(book: nat, entry: nat)

  /** The codeword lengths of the stream's codebooks. */
  predicate ValidBooks(books: seq<seq<nat>>) {
    forall b :: 0 <= b < |books| ==> ValidLengths(books[b])
  }

  predicate Writable(books: seq<seq<nat>>, item: Item) {
    match item
    case Field(n, value) => n <= 24 && value < Pow2(n)
    case Symbol(book, entry) => book < |books| && entry < |books[book]| && books[book][entry] != NO_CODE
  }

  predicate AllWritable(books: seq<seq<nat>>, items: seq<Item>) {
    forall k :: 0 <= k < |items| ==> Writable(books, items[k])
  }

  function Size(books: seq<seq<nat>>, item: Item): nat
    requires Writable(books, item)
  {
    match item
    case Field(n, _) => n
    case Symbol(book, entry) => books[book][entry]
  }

  ghost function Word(books: seq<seq<nat>>, item: Item): nat
    requires ValidBooks(books) && Writable(books, item)
  {
    match item
    case Field(_, value) => value
    case Symbol(book, entry) => Codeword(books[book], entry)
  }

  function WrittenBits(books: seq<seq<nat>>, items: seq<Item>): nat
    requires AllWritable(books, items)
  {
    if items == [] then 0 else Size(books, items[0]) + WrittenBits(books, items[1..])
  }

  /** Section 2 of the Vorbis I specification: items follow each other, each least significant bit first. */
  ghost function WrittenValue(books: seq<seq<nat>>, items: seq<Item>): nat
    requires ValidBooks(books) && AllWritable(books, items)
  {
    if items == [] then 0
    else Word(books, items[0]) + Shl(WrittenValue(books, items[1..]), Size(books, items[0]))
  }

  /** The packet goes on with these items (and perhaps more after them). */
  ghost predicate Carries(books: seq<seq<nat>>, items: seq<Item>, count: nat, value: nat)
    requires ValidBooks(books) && AllWritable(books, items)
  {
    WrittenBits(books, items) <= count
    && Low(value, WrittenBits(books, items)) == WrittenValue(books, items)
  }

  lemma WordFits(books: seq<seq<nat>>, item: Item)
    requires ValidBooks(books) && Writable(books, item) && (item.Symbol? ==> Fits(books[item.book]))
    ensures Word(books, item) < Pow2(Size(books, item))
  {
    if item.Symbol? {
      CodewordFits(books[item.book], item.entry);
    }
  }

  lemma CarriesHead(books: seq<seq<nat>>, items: seq<Item>, count: nat, value: nat)
    requires ValidBooks(books) && AllWritable(books, items) && items != []
    requires items[0].Symbol? ==> Fits(books[items[0].book])
    requires Carries(books, items, count, value)
    ensures Size(books, items[0]) <= count && Low(value, Size(books, items[0])) == Word(books, items[0])
    ensures Carries(books, items[1..], count - Size(books, items[0]), High(value, Size(books, items[0])))
  {
    hide Low, High, Shl, Pow2, Word;
    var s, total := Size(books, items[0]), WrittenBits(books, items);
    WordFits(books, items[0]);
    LowOfLow(value, s, total);
    HighOfLow(value, s, total);
    LowHighOfSum(Word(books, items[0]), s, WrittenValue(books, items[1..]));
  }

  /** The finished tables of all books. */
  ghost predicate BookReady(tables: seq<Codebook>, books: seq<seq<nat>>, b: nat)
    requires b < |tables| == |books|
    reads tables[b], tables[b].sortedCodewords, tables[b].codewords, tables[b].codewordLengths, tables[b].sortedValues
    reads tables[b].fastHuffman
  {
    tables[b].Valid(books[b]) && tables[b].SlotCount() > 0
  }

  /** Each symbol is findable and short enough for what a refill holds at its place. */
  ghost predicate Fetchable(tables: seq<Codebook>, books: seq<seq<nat>>, items: seq<Item>, count: nat)
    requires |tables| == |books| && AllWritable(books, items)
    reads tables
  {
    items == [] ||
    (FetchableItem(tables, books, items[0], count)
     && Size(books, items[0]) <= count
     && Fetchable(tables, books, items[1..], count - Size(books, items[0])))
  }

  ghost predicate FetchableItem(tables: seq<Codebook>, books: seq<seq<nat>>, item: Item, count: nat)
    requires |tables| == |books| && Writable(books, item)
    reads tables
  {
    item.Symbol? ==>
      tables[item.book].Findable(books[item.book], item.entry) && books[item.book][item.entry] <= Window(count)
  }

  /** Codewords of at most 25 bits always are, in books whose short codewords the fast table indexes. */
  lemma {:induction false} ShortCodesFetchable(tables: seq<Codebook>, books: seq<seq<nat>>, items: seq<Item>,
                                               count: nat)
    requires |tables| == |books| && AllWritable(books, items) && WrittenBits(books, items) <= count
    requires forall k :: 0 <= k < |items| && items[k].Symbol? ==>
      books[items[k].book][items[k].entry] <= 25 && tables[items[k].book].Findable(books[items[k].book], items[k].entry)
    ensures Fetchable(tables, books, items, count)
  {
    hide Codebook.Findable;
    if items != [] {
      ShortCodesFetchable(tables, books, items[1..], count - Size(books, items[0]));
    }
  }

  /** A reader asks for a field of n bits, or for an entry of a codebook. */
  datatype Request = AskBits(n: nat) | AskEntry(book: nat)

  function RequestFor(item: Item): Request {
    match item
    case Field(n, _) => AskBits(n)
    case Symbol(book, _) => AskEntry(book)
  }

  function Expected(item: Item): int {
    match item
    case Field(_, value) => value
    case Symbol(_, entry) => entry
  }

  /** Any interleaving of get_bits and DECODE with any of the books gives back what was written, exactly when every
      codeword is fetchable where it stands. going says that all items so far came back. */
  method ReadBack(f: Vorb, tables: seq<Codebook>, ghost books: seq<seq<nat>>, requests: seq<Request>,
                  ghost items: seq<Item>, ghost going: bool) returns (out: seq<int>)
    requires f.Valid() && f.Intact() && f.Ready()
    requires |tables| == |books| && ValidBooks(books) && forall b :: 0 <= b < |books| ==> BookReady(tables, books, b)
    requires |requests| == |items| && AllWritable(books, items)
    requires forall k :: 0 <= k < |items| ==> requests[k] == RequestFor(items[k])
    requires going ==> f.validBits >= 0 && Carries(books, items, f.Count(), f.Value())
    modifies f
    ensures |out| == |items|
    ensures going ==> (CameBack(items, out) <==> old(Fetchable(tables, books, items, f.Count())))
    decreases |requests|
  {
    hide Low, High, Shl, Pow2, Vorb.Value, Vorb.Intact, FetchableItem, Word, Window, ValidBooks;
    hide WrittenBits, Carries, BookReady, CameBack;
    if requests == [] {
      NothingToCome();
      return [];
    }
    ghost var count := f.Count();
    ghost var came: bool;
    var first: int;
    first, came := ReadOne(f, tables, books, requests[0], items[0], items, going);
    assert forall k :: 0 <= k < |items[1..]| ==> requests[1..][k] == RequestFor(items[1..][k]);
    var rest := ReadBack(f, tables, books, requests[1..], items[1..], came);
    out := [first] + rest;
    OneMoreCameBack(items, first, rest);
  }

  lemma NothingToCome()
    ensures CameBack([], [])
  {
  }

  lemma OneMoreCameBack(items: seq<Item>, first: int, rest: seq<int>)
    requires |items| == 1 + |rest|
    ensures CameBack(items, [first] + rest) <==> first == Expected(items[0]) && CameBack(items[1..], rest)
  {
    assert ([first] + rest)[1..] == rest;
  }

  /** One item; came says that it and all items before it came back. */
  method ReadOne(f: Vorb, tables: seq<Codebook>, ghost books: seq<seq<nat>>, request: Request, ghost item: Item,
                 ghost items: seq<Item>, ghost going: bool) returns (first: int, ghost came: bool)
    requires f.Valid() && f.Intact() && f.Ready()
    requires |tables| == |books| && ValidBooks(books) && forall b :: 0 <= b < |books| ==> BookReady(tables, books, b)
    requires AllWritable(books, items) && items != [] && item == items[0] && request == RequestFor(item)
    requires going ==> f.validBits >= 0 && Carries(books, items, f.Count(), f.Value())
    modifies f
    ensures f.Valid() && f.Intact() && f.Ready()
    ensures came == (going && first == Expected(item))
    ensures going ==> Size(books, item) <= old(f.Count())
    ensures going ==> (came <==> FetchableItem(tables, books, item, old(f.Count())))
    ensures came ==> f.validBits >= 0 && f.Count() == old(f.Count()) - Size(books, item)
    ensures came ==> Carries(books, items[1..], f.Count(), f.Value())
  {
    hide Low, High, Shl, Pow2, Vorb.Value, Vorb.Intact, Codeword, Window, Carries, WrittenBits, Codebook.Valid, Matches;
    hide Codebook.Findable, Fits;
    assert Writable(books, item);
    if item.Symbol? {
      assert BookReady(tables, books, item.book);
      tables[item.book].TablesPresent(books[item.book]);
    }
    if going {
      CarriesHead(books, items, f.Count(), f.Value());
    }
    match request {
      case AskBits(n) =>
        first := f.GetBits(n);
      case AskEntry(book) =>
        assert going ==> Matches(books[book], item.entry, f.Value()) by {
          SymbolMatches(books, item, f.Value());
        }
        first := f.Decode(tables[book], books[book]);
    }
    came := going && first == Expected(item);
  }

  lemma SymbolMatches(books: seq<seq<nat>>, item: Item, value: nat)
    requires ValidBooks(books) && Writable(books, item) && item.Symbol?
    ensures Low(value, Size(books, item)) == Word(books, item) ==> Matches(books[item.book], item.entry, value)
  {
  }

  ghost predicate CameBack(items: seq<Item>, out: seq<int>)
    requires |items| == |out|
  {
    items == [] || (out[0] == Expected(items[0]) && CameBack(items[1..], out[1..]))
  }

  // ---------- Two packets that do not come back ----------

  /** A packet of one segment. */
  function OnePage(body: seq<nat>): Page {
    Page(false, [|body|], body)
  }

  lemma OnePageHolds(body: seq<nat>)
    requires 0 < |body| < 255 && forall i :: 0 <= i < |body| ==> body[i] < 256
    ensures WholePages([OnePage(body)])
    ensures PacketFrom([OnePage(body)], 0, 0) == body && !BreaksOff([OnePage(body)], 0, 0)
  {
    var p := OnePage(body);
    assert Total(p.lacing, 1) == Total(p.lacing, 0) + |body|;
    assert Segment(p, 0) == body;
  }

  /** The packet goes on with the last entry's codeword, a single one, and the decode does not return that entry. */
  method LastEntryMissed() returns (entry: int)
    ensures ValidLengths(BigBook()) && Matches(BigBook(), 32767, BytesValue([1])) && entry != 32767
  {
    hide Codebook.Valid, Codebook.Findable, PacketFrom, BreaksOff, WholePages, Fits, ValidLengths, BigBook, Low;
    hide Matches, BytesValue, Vorb.Value, Vorb.Intact, Codebook.SlotCount, Window, OnePage;
    var lens := BigBook();
    BigBookFits();
    var c := new Codebook();
    var ok := c.Build(lens, false);
    OnePageHolds([1]);
    var f := new Vorb([OnePage([1])]);
    BigBookMatch();
    BigBookLosesLast(c);
    c.TablesPresent(lens);
    BigBookSlots(c);
    OneByte(f, 1);
    entry := f.Decode(c, lens);
  }

  lemma BigBookSlots(c: Codebook)
    requires c.Valid(BigBook()) && !c.sparse
    ensures c.SlotCount() > 0
  {
  }

  lemma BigBookMatch()
    requires ValidLengths(BigBook()) && Fits(BigBook())
    ensures Matches(BigBook(), 32767, BytesValue([1]))
  {
    hide Codeword, Fits, ValidLengths;
    BigBookLastCodeword();
    assert BytesValue([1]) == 1 + Shl(BytesValue([]), 8);
    ShlOne(8);
    assert Low(1, 1) == 1;
  }

  lemma OneByte(f: Vorb, b: nat)
    requires f.Valid() && f.validBits == 0 && f.Remaining() == [b]
    ensures f.Value() == BytesValue([b])
  {
  }

  /** 40 bits: a field of 7, a codeword of 26 and a field of 7. */
  function LongItems(): seq<Item> {
    [Field(7, 0), Symbol(0, 0), Field(7, 0)]
  }

  /** With 33 bits left a refill holds only 25 of them, so the codeword does not come back, although codewords of
      this length are allowed. */
  lemma LongCodeLost(tables: seq<Codebook>)
    requires |tables| == 1 && ValidBooks([[26]])
    ensures AllWritable([[26]], LongItems()) && WrittenBits([[26]], LongItems()) == 40
    ensures !Fetchable(tables, [[26]], LongItems(), 40)
  {
    var books, items := [[26]], LongItems();
    assert items[1..] == [Symbol(0, 0), Field(7, 0)] && items[1..][1..] == [Field(7, 0)];
    assert items[1..][1..][1..] == [];
    assert Pow2(7) > 0;
    assert Window(33) == 25;
  }

  /** Such a packet, read back: five zero bytes. */
  method LongCodeMissed() returns (out: seq<int>)
    ensures |out| == 3 && !CameBack(LongItems(), out)
  {
    hide Codebook.Valid, Fetchable, WrittenBits, WrittenValue, AllWritable, ValidBooks, BookReady, Carries, CameBack;
    hide PacketFrom, BreaksOff, WholePages, Fits, Vorb.Value;
    ghost var books := [[26]];
    LongBookFits();
    var c := new Codebook();
    var ok := c.Build([26], false);
    OnePageHolds([0, 0, 0, 0, 0]);
    var f := new Vorb([OnePage([0, 0, 0, 0, 0])]);
    LongBookReady([c]);
    LongCodeLost([c]);
    FiveZeros(f);
    LongPacketCarries();
    assert forall b :: 0 <= b < |books| ==> BookReady([c], books, b);
    out := ReadBack(f, [c], books, [AskBits(7), AskEntry(0), AskBits(7)], LongItems(), true);
  }

  lemma LongBookFits()
    ensures ValidLengths([26]) && Fits([26]) && ValidBooks([[26]])
  {
    SpanMonotone(0, 26);
    SpaceIsSpan();
    assert KraftSum([26], 1) == KraftSum([26], 0) + Span(26);
  }

  lemma LongBookReady(tables: seq<Codebook>)
    requires |tables| == 1 && tables[0].Valid([26]) && !tables[0].sparse
    ensures BookReady(tables, [[26]], 0)
  {
  }

  lemma FiveZeros(f: Vorb)
    requires f.Valid() && f.validBits == 0 && f.Remaining() == [0, 0, 0, 0, 0]
    ensures f.Count() == 40 && f.Value() == 0
  {
    ZeroBytes([0, 0, 0, 0, 0]);
    ShlOne(0);
  }

  lemma {:induction false} ZeroBytes(b: seq<nat>)
    requires forall i :: 0 <= i < |b| ==> b[i] == 0
    ensures BytesValue(b) == 0
  {
    if b != [] {
      ZeroBytes(b[1..]);
      ShlOne(8);
    }
  }

  lemma LongPacketCarries()
    requires ValidLengths([26]) && Fits([26]) && ValidBooks([[26]]) && AllWritable([[26]], LongItems())
    requires WrittenBits([[26]], LongItems()) == 40
    ensures Carries([[26]], LongItems(), 40, 0)
  {
    hide Codeword, Fits, Low, WrittenBits, WrittenValue, AllWritable, ValidBooks;
    LongCodewordIsZero();
    ZeroWords([[26]], LongItems());
    LowZero(40);
  }

  lemma {:induction false} ZeroWords(books: seq<seq<nat>>, items: seq<Item>)
    requires ValidBooks(books) && AllWritable(books, items)
    requires forall k :: 0 <= k < |items| ==> Word(books, items[k]) == 0
    ensures WrittenValue(books, items) == 0
  {
    hide Word;
    if items != [] {
      ZeroWords(books, items[1..]);
      ShlOne(Size(books, items[0]));
    }
  }

  lemma LongCodewordIsZero()
    requires ValidLengths([26]) && Fits([26])
    ensures Codeword([26], 0) == 0
  {
    FirstCodeIsZero([26]);
    RevZero(32);
  }

  lemma {:induction false} LowZero(k: nat)
    ensures Low(0, k) == 0
  {
    if k > 0 {
      LowZero(k - 1);
    }
  }
}
