/** The CRC of Ogg pages in stb_vorbis: table-driven, checked against the bit-serial shift register. */
module Crc {

  // ---------- Words ----------

  function Xor(a: bv32, b: bv32): bv32 {
    a ^ b
  }

  /** s << 1 */
  function Double(s: bv32): bv32 {
    s << 1
  }

  /** s >= (1U << 31) */
  predicate Top(s: bv32) {
    s >= 0x8000_0000
  }

  /** The polynomial CRC32_POLY or nothing. */
  function Feedback(on: bool): bv32 {
    if on then 0x04c11db7 else 0
  }

  lemma XorShuffle(a: bv32, b: bv32, c: bv32, d: bv32)
    ensures Xor(Xor(a, b), Xor(c, d)) == Xor(Xor(a, c), Xor(b, d))
  {
    hide Xor;
    XorLaws(a, b, Xor(c, d));
    XorLaws(b, c, d);
    XorLaws(c, b, d);
    XorLaws(a, c, Xor(b, d));
  }

  lemma XorLaws(a: bv32, b: bv32, c: bv32)
    ensures Xor(Xor(a, b), c) == Xor(a, Xor(b, c)) && Xor(a, b) == Xor(b, a)
    ensures Xor(a, 0) == a && Xor(a, a) == 0
    ensures Xor(a, b) == 0 <==> a == b
  {
  }

  lemma DoubleXor(a: bv32, b: bv32)
    ensures Double(Xor(a, b)) == Xor(Double(a), Double(b))
  {
  }

  lemma TopXor(a: bv32, b: bv32)
    ensures Top(Xor(a, b)) <==> (Top(a) != Top(b))
  {
  }

  lemma FeedbackXor(p: bool, q: bool)
    ensures Feedback(p != q) == Xor(Feedback(p), Feedback(q))
  {
  }

  // ---------- The shift register ----------

  /** One shift of the register. */
  function Shift(s: bv32): bv32 {
    Xor(Double(s), Feedback(Top(s)))
  }

  /** The shift register is linear over exclusive or. */
  lemma ShiftIsLinear(a: bv32, b: bv32)
    ensures Shift(Xor(a, b)) == Xor(Shift(a), Shift(b))
  {
    hide Xor, Double, Top, Feedback;
    DoubleXor(a, b);
    TopXor(a, b);
    FeedbackXor(Top(a), Top(b));
    XorShuffle(Double(a), Double(b), Feedback(Top(a)), Feedback(Top(b)));
  }

  function Shifts(s: bv32, k: nat): bv32
    decreases k
  {
    if k == 0 then s else Shift(Shifts(s, k - 1))
  }

  lemma {:induction false} ShiftsAreLinear(a: bv32, b: bv32, k: nat)
    ensures Shifts(Xor(a, b), k) == Xor(Shifts(a, k), Shifts(b, k))
    decreases k
  {
    hide Shift, Xor;
    if k > 0 {
      ShiftsAreLinear(a, b, k - 1);
      ShiftIsLinear(Shifts(a, k - 1), Shifts(b, k - 1));
    }
  }

  lemma {:induction false} ShiftsAdd(s: bv32, j: nat, k: nat)
    ensures Shifts(Shifts(s, j), k) == Shifts(s, j + k)
    decreases k
  {
    hide Shift;
    if k > 0 {
      ShiftsAdd(s, j, k - 1);
    }
  }

  /** The polynomial's last bit is set: no register content but zero shifts to zero. */
  lemma ShiftLosesNothing(s: bv32)
    ensures Shift(s) == 0 <==> s == 0
  {
  }

  lemma {:induction false} ShiftsLoseNothing(s: bv32, k: nat)
    ensures Shifts(s, k) == 0 <==> s == 0
    decreases k
  {
    hide Shift;
    if k > 0 {
      ShiftLosesNothing(Shifts(s, k - 1));
      ShiftsLoseNothing(s, k - 1);
    }
  }

  // ---------- Table-driven update and bit-serial register ----------

  /** A byte in the top of a word. */
  function Raised(byte: bv8): bv32 {
    UpBy24(byte as bv32)
  }

  function UpBy24(w: bv32): bv32 {
    w << 24
  }

  /** What crc32_init stores for one index. */
  function Entry(i: bv8): bv32 {
    Shifts(Raised(i), 8)
  }

  /** The index that crc32_update looks up. */
  function Index(crc: bv32, byte: bv8): (i: bv8)
    ensures i as bv32 == (byte as bv32) ^ (crc >> 24)
  {
    IndexFits(crc, byte);
    ((byte as bv32) ^ (crc >> 24)) as bv8
  }

  lemma IndexFits(crc: bv32, byte: bv8)
    ensures (byte as bv32) ^ (crc >> 24) < 256
  {
  }

  /** crc32_update */
  function Update(crc: bv32, byte: bv8): bv32 {
    Xor(crc << 8, Entry(Index(crc, byte)))
  }

  /** The shift register fed with one bit. */
  function FeedBit(s: bv32, bit: bool): bv32 {
    Xor(Double(s), Feedback(Top(s) != bit))
  }

  /** Bit k of a byte, counted from the most significant. */
  predicate BitOf(byte: bv8, k: nat)
  {
    Top(Doubles(Raised(byte), k))
  }

  function Doubles(s: bv32, k: nat): bv32
    decreases k
  {
    if k == 0 then s else Double(Doubles(s, k - 1))
  }

  /** The register after the first k bits of a byte, most significant bit first. */
  function FeedBits(s: bv32, byte: bv8, k: nat): bv32
    decreases k
  {
    if k == 0 then s else FeedBit(FeedBits(s, byte, k - 1), BitOf(byte, k - 1))
  }

  /** Feeding bits one at a time is shifting with the byte already in the register. */
  lemma {:induction false} FeedingIsShifting(s: bv32, byte: bv8, k: nat)
    ensures Xor(FeedBits(s, byte, k), Doubles(Raised(byte), k)) == Shifts(Xor(s, Raised(byte)), k)
    decreases k
  {
    hide Xor, Double, Top, Feedback, Raised;
    if k > 0 {
      FeedingIsShifting(s, byte, k - 1);
      var t, b := FeedBits(s, byte, k - 1), Doubles(Raised(byte), k - 1);
      DoubleXor(t, b);
      TopXor(t, b);
      XorLaws(Double(t), Feedback(Top(t) != Top(b)), Double(b));
      XorLaws(Double(t), Double(b), Feedback(Top(t) != Top(b)));
      XorLaws(Feedback(Top(t) != Top(b)), Double(b), 0);
    }
  }

  lemma EightDoubles(byte: bv8)
    ensures Doubles(Raised(byte), 8) == 0
  {
    var s := Raised(byte);
    assert Doubles(s, 0) == s;
    assert Doubles(s, 2) == s << 2;
    assert Doubles(s, 4) == s << 4;
    assert Doubles(s, 6) == s << 6;
    assert Doubles(s, 8) == s << 8;
  }

  /** While the top bit is clear a shift only doubles. */
  lemma ShiftDoubles(s: bv32)
    requires !Top(s)
    ensures Shift(s) == Double(s)
  {
    XorLaws(Double(s), 0, 0);
  }

  /** The low three bytes only move up in eight shifts. */
  lemma LowBytesMoveUp(s: bv32)
    requires s < 0x0100_0000
    ensures Shifts(s, 8) == s << 8
  {
    assert !Top(s) && !Top(s << 1) && !Top(s << 2) && !Top(s << 3);
    assert !Top(s << 4) && !Top(s << 5) && !Top(s << 6) && !Top(s << 7);
    StepsUp(s);
    hide Shift, Top, Double;
    ShiftDoubles(s);
    ShiftDoubles(s << 1);
    ShiftDoubles(s << 2);
    ShiftDoubles(s << 3);
    ShiftDoubles(s << 4);
    ShiftDoubles(s << 5);
    ShiftDoubles(s << 6);
    ShiftDoubles(s << 7);
    assert Shifts(s, 0) == s;
    assert Shifts(s, 2) == s << 2;
    assert Shifts(s, 4) == s << 4;
    assert Shifts(s, 6) == s << 6;
  }

  lemma StepsUp(s: bv32)
    ensures Double(s) == s << 1 && Double(s << 1) == s << 2 && Double(s << 2) == s << 3 && Double(s << 3) == s << 4
    ensures Double(s << 4) == s << 5 && Double(s << 5) == s << 6 && Double(s << 6) == s << 7 && Double(s << 7) == s << 8
  {
  }

  lemma SplitWord(crc: bv32)
    ensures crc == Xor(crc & 0x00ff_ffff, UpBy24(crc >> 24))
  {
  }

  lemma UpBy24Xor(b: bv32, t: bv32)
    ensures UpBy24(b ^ t) == Xor(UpBy24(b), UpBy24(t))
  {
  }

  lemma TopByte(crc: bv32, b: bv32)
    ensures Xor(crc, UpBy24(b)) == Xor(crc & 0x00ff_ffff, UpBy24(b ^ (crc >> 24)))
  {
    hide Xor, UpBy24;
    var low, t, u := crc & 0x00ff_ffff, UpBy24(crc >> 24), UpBy24(b);
    SplitWord(crc);
    UpBy24Xor(b, crc >> 24);
    XorLaws(low, t, u);
    XorLaws(t, u, 0);
  }

  lemma LowBytes(crc: bv32)
    ensures crc & 0x00ff_ffff < 0x0100_0000 && (crc & 0x00ff_ffff) << 8 == crc << 8
  {
  }

  lemma TopByteIsLookedUp(crc: bv32, byte: bv8)
    ensures Xor(crc, Raised(byte)) == Xor(crc & 0x00ff_ffff, Raised(Index(crc, byte)))
  {
    hide Xor, UpBy24;
    TopByte(crc, byte as bv32);
  }

  /** The top byte is looked up, the rest moves up. */
  lemma UpdateIsShifting(crc: bv32, byte: bv8)
    ensures Update(crc, byte) == Shifts(Xor(crc, Raised(byte)), 8)
  {
    var low := crc & 0x00ff_ffff;
    TopByteIsLookedUp(crc, byte);
    LowBytes(crc);
    LowBytesMoveUp(low);
    hide Xor, Raised, Shifts;
    ShiftsAreLinear(low, Raised(Index(crc, byte)), 8);
  }

  /** crc32_update is the shift register fed with the byte, bit by bit. */
  lemma UpdateIsSerial(crc: bv32, byte: bv8)
    ensures Update(crc, byte) == FeedBits(crc, byte, 8)
  {
    hide Xor, Raised, Update, FeedBits;
    UpdateIsShifting(crc, byte);
    FeedingIsShifting(crc, byte, 8);
    EightDoubles(byte);
    XorLaws(FeedBits(crc, byte, 8), 0, 0);
  }

  // ---------- The table ----------

  lemma IndexAsByte(b: bv8)
    ensures (b as nat) < 256 && (b as nat) as bv8 == b
  {
  }

  ghost predicate IsTable(table: seq<bv32>) {
    |table| == 256 && forall i :: 0 <= i < 256 ==> table[i] == Entry(i as bv8)
  }

  /** The inner loop of crc32_init. */
  method EightShifts(start: bv32) returns (s: bv32)
    ensures s == Shifts(start, 8)
  {
    hide Xor, Double, Top, Feedback, Shift;
    s := start;
    var j := 0;
    while j < 8
      invariant j <= 8 && s == Shifts(start, j)
    {
      s := Xor(Double(s), Feedback(Top(s)));
      SameShift(start, j);
      j := j + 1;
    }
  }

  /** crc32_init */
  method Crc32Init(table: array<bv32>)
    requires table.Length == 256
    modifies table
    ensures IsTable(table[..])
  {
    hide Shifts, Raised;
    var i := 0;
    while i < 256
      invariant i <= 256 && forall k :: 0 <= k < i ==> table[k] == Entry(k as bv8)
    {
      table[i] := EightShifts(Raised(i as bv8));
      i := i + 1;
    }
  }

  lemma SameShift(s: bv32, j: nat)
    ensures Shifts(s, j + 1) == Xor(Double(Shifts(s, j)), Feedback(Top(Shifts(s, j))))
  {
    hide Xor, Double, Top, Feedback;
  }

  /** crc32_update on the table: one step of the bit-serial register. */
  method Crc32Update(table: array<bv32>, crc: bv32, byte: bv8) returns (r: bv32)
    requires IsTable(table[..])
    ensures r == FeedBits(crc, byte, 8)
  {
    hide Entry, Shifts, FeedBits, Raised;
    var i := Index(crc, byte);
    IndexAsByte(i);
    r := Xor(crc << 8, table[i as nat]);
    assert table[..][i as nat] == Entry((i as nat) as bv8);
    UpdateIsSerial(crc, byte);
  }

  // ---------- Whole messages ----------

  /** Table-driven CRC of a message, from a given register on. */
  function Crc(start: bv32, data: seq<bv8>): bv32 {
    if data == [] then start else Update(Crc(start, data[..|data| - 1]), data[|data| - 1])
  }

  /** Bit-serial CRC of a message. */
  function Serial(start: bv32, data: seq<bv8>): bv32 {
    if data == [] then start else FeedBits(Serial(start, data[..|data| - 1]), data[|data| - 1], 8)
  }

  lemma {:induction false} CrcIsSerial(start: bv32, data: seq<bv8>)
    ensures Crc(start, data) == Serial(start, data)
  {
    hide Update, FeedBits;
    if data != [] {
      CrcIsSerial(start, data[..|data| - 1]);
      UpdateIsSerial(Crc(start, data[..|data| - 1]), data[|data| - 1]);
    }
  }

  /** A message may come in pieces. */
  lemma {:induction false} CrcOfPieces(start: bv32, data: seq<bv8>, more: seq<bv8>)
    ensures Crc(start, data + more) == Crc(Crc(start, data), more)
  {
    hide Update;
    if more == [] {
      assert data + more == data;
    } else {
      CrcOfPieces(start, data, more[..|more| - 1]);
      assert (data + more)[..|data + more| - 1] == data + more[..|more| - 1];
    }
  }

  function Difference(a: seq<bv8>, b: seq<bv8>): (d: seq<bv8>)
    requires |a| == |b|
    ensures |d| == |a|
  {
    seq(|a|, i requires 0 <= i < |a| => a[i] ^ b[i])
  }

  lemma RaisedXor(a: bv8, b: bv8)
    ensures Raised(a ^ b) == Xor(Raised(a), Raised(b))
  {
  }

  /** The CRC of a difference is the difference of the CRCs. */
  lemma {:induction false} CrcIsLinear(s: bv32, t: bv32, a: seq<bv8>, b: seq<bv8>)
    requires |a| == |b|
    ensures Crc(Xor(s, t), Difference(a, b)) == Xor(Crc(s, a), Crc(t, b))
  {
    hide Update, Xor, Raised, Shifts;
    if a != [] {
      var n := |a| - 1;
      CrcIsLinear(s, t, a[..n], b[..n]);
      assert Difference(a, b)[..n] == Difference(a[..n], b[..n]);
      var u, v := Crc(s, a[..n]), Crc(t, b[..n]);
      UpdateIsShifting(u, a[n]);
      UpdateIsShifting(v, b[n]);
      UpdateIsShifting(Xor(u, v), Difference(a, b)[n]);
      RaisedXor(a[n], b[n]);
      XorShuffle(u, v, Raised(a[n]), Raised(b[n]));
      ShiftsAreLinear(Xor(u, Raised(a[n])), Xor(v, Raised(b[n])), 8);
    }
  }

  // ---------- Errors that the CRC always shows ----------

  /** A difference confined to four neighbouring bytes. */
  ghost predicate ShortBurst(a: seq<bv8>, b: seq<bv8>, i: nat)
    requires |a| == |b|
  {
    i + 4 <= |a| && a[..i] == b[..i] && a[i + 4..] == b[i + 4..]
  }

  lemma {:induction false} ZerosShift(s: bv32, data: seq<bv8>)
    requires forall i :: 0 <= i < |data| ==> data[i] == 0
    ensures Crc(s, data) == Shifts(s, 8 * |data|)
  {
    hide Update, Shift;
    if data != [] {
      var n := |data| - 1;
      ZerosShift(s, data[..n]);
      UpdateByZero(Crc(s, data[..n]));
      ShiftsAdd(s, 8 * n, 8);
    }
  }

  lemma UpdateByZero(s: bv32)
    ensures Update(s, 0) == Shifts(s, 8)
  {
    UpdateIsShifting(s, 0);
    assert Raised(0) == 0;
    XorLaws(s, 0, 0);
  }

  /** Four bytes as a word, the first one on top. */
  function Word(d: seq<bv8>): bv32
    requires |d| == 4
  {
    Xor(Xor(Raised(d[0]), Raised(d[1]) >> 8), Xor(Raised(d[2]) >> 16, Raised(d[3]) >> 24))
  }

  /** Shifting a lower byte by eight brings it where the byte before it was. */
  lemma ByteMovesUp(byte: bv8)
    ensures Shifts(Raised(byte) >> 8, 8) == Raised(byte)
    ensures Shifts(Raised(byte) >> 16, 8) == Raised(byte) >> 8
    ensures Shifts(Raised(byte) >> 24, 8) == Raised(byte) >> 16
  {
    var r := Raised(byte);
    MovesUp(byte as bv32);
    BelowTop(byte as bv32);
    LowBytesMoveUp(r >> 8);
    LowBytesMoveUp(r >> 16);
    LowBytesMoveUp(r >> 24);
  }

  lemma MovesUp(b: bv32)
    requires b < 256
    ensures (UpBy24(b) >> 8) << 8 == UpBy24(b)
    ensures (UpBy24(b) >> 16) << 8 == UpBy24(b) >> 8
    ensures (UpBy24(b) >> 24) << 8 == UpBy24(b) >> 16
  {
  }

  lemma BelowTop(b: bv32)
    requires b < 256
    ensures UpBy24(b) >> 8 < 0x0100_0000 && UpBy24(b) >> 16 < 0x0100_0000 && UpBy24(b) >> 24 < 0x0100_0000
  {
  }

  lemma OneByteMore(c: bv32, w: bv32, x: bv32, k: nat, byte: bv8)
    requires c == Shifts(w, k) && Raised(byte) == Shifts(x, k)
    ensures Update(c, byte) == Shifts(Xor(w, x), k + 8)
  {
    hide Update, Xor, Raised, Shifts;
    UpdateIsShifting(c, byte);
    ShiftsAreLinear(w, x, k);
    ShiftsAdd(Xor(w, x), k, 8);
  }

  /** Four bytes into an empty register are four byte shifts of the word they make up. */
  lemma FourBytes(d: seq<bv8>)
    requires |d| == 4
    ensures Crc(0, d) == Shifts(Word(d), 32)
  {
    hide Update, Xor, Raised, Shifts;
    var r0, r1, r2, r3 := Raised(d[0]), Raised(d[1]) >> 8, Raised(d[2]) >> 16, Raised(d[3]) >> 24;
    var w1, w2 := Xor(r0, r1), Xor(Xor(r0, r1), r2);
    ByteMovesUp(d[1]);
    ByteMovesUp(d[2]);
    ByteMovesUp(d[3]);
    ShiftsAdd(Raised(d[2]) >> 16, 8, 8);
    ShiftsAdd(Raised(d[3]) >> 24, 8, 8);
    ShiftsAdd(Raised(d[3]) >> 24, 16, 8);
    NoShift(0);
    NoShift(r0);
    XorLaws(0, r0, 0);
    XorLaws(r0, 0, 0);
    OneByteMore(0, 0, r0, 0, d[0]);
    OneByteMore(Shifts(r0, 8), r0, r1, 8, d[1]);
    OneByteMore(Shifts(w1, 16), w1, r2, 16, d[2]);
    OneByteMore(Shifts(w2, 24), w2, r3, 24, d[3]);
    XorLaws(w1, r2, r3);
    assert d[..3][..2] == d[..2] && d[..2][..1] == d[..1] && d[..1][..0] == [];
    assert Crc(0, d[..1]) == Update(Crc(0, d[..1][..0]), d[0]);
    assert Crc(0, d[..2]) == Update(Crc(0, d[..2][..1]), d[1]);
    assert Crc(0, d[..3]) == Update(Crc(0, d[..3][..2]), d[2]);
  }

  lemma NoShift(s: bv32)
    ensures Shifts(s, 0) == s
  {
  }

  lemma WordIsZero(d: seq<bv8>)
    requires |d| == 4 && Word(d) == 0
    ensures d[0] == 0 && d[1] == 0 && d[2] == 0 && d[3] == 0
  {
    FieldsVanish(d[0] as bv32, d[1] as bv32, d[2] as bv32, d[3] as bv32);
  }

  lemma FieldsVanish(a: bv32, b: bv32, c: bv32, d: bv32)
    requires a < 256 && b < 256 && c < 256 && d < 256
    requires Xor(Xor(UpBy24(a), UpBy24(b) >> 8), Xor(UpBy24(c) >> 16, UpBy24(d) >> 24)) == 0
    ensures a == 0 && b == 0 && c == 0 && d == 0
  {
  }

  /** A difference within four neighbouring bytes, of messages of any length, always changes the CRC. */
  lemma BurstIsDetected(s: bv32, a: seq<bv8>, b: seq<bv8>, i: nat)
    requires |a| == |b| && ShortBurst(a, b, i)
    ensures Crc(s, a) == Crc(s, b) <==> a == b
  {
    hide Update, Xor, Shifts, Word;
    var diff := Difference(a, b);
    var before, burst, rest := diff[..i], diff[i..i + 4], diff[i + 4..];
    XorLaws(s, s, 0);
    XorLaws(Crc(s, a), Crc(s, b), 0);
    CrcIsLinear(s, s, a, b);
    assert diff == before + burst + rest;
    CrcOfPieces(0, before + burst, rest);
    CrcOfPieces(0, before, burst);
    BurstEdges(a, b, i);
    ZerosShift(0, before);
    ShiftsLoseNothing(0, 8 * |before|);
    FourBytes(burst);
    ZerosShift(Shifts(Word(burst), 32), rest);
    ShiftsLoseNothing(Shifts(Word(burst), 32), 8 * |rest|);
    ShiftsLoseNothing(Word(burst), 32);
    if Word(burst) == 0 {
      WordIsZero(burst);
      SameBytes(a, b, i);
    }
  }

  lemma XorBytes(x: bv8, y: bv8)
    ensures x ^ y == 0 <==> x == y
  {
  }

  lemma BurstEdges(a: seq<bv8>, b: seq<bv8>, i: nat)
    requires |a| == |b| && ShortBurst(a, b, i)
    ensures var before := Difference(a, b)[..i]; forall k :: 0 <= k < |before| ==> before[k] == 0
    ensures var rest := Difference(a, b)[i + 4..]; forall k :: 0 <= k < |rest| ==> rest[k] == 0
  {
    var before, rest := Difference(a, b)[..i], Difference(a, b)[i + 4..];
    forall k | 0 <= k < |before|
      ensures before[k] == 0
    {
      assert a[..i][k] == b[..i][k];
      XorBytes(a[k], b[k]);
    }
    forall k | 0 <= k < |rest|
      ensures rest[k] == 0
    {
      assert a[i + 4..][k] == b[i + 4..][k];
      XorBytes(a[i + 4 + k], b[i + 4 + k]);
    }
  }

  lemma SameBytes(a: seq<bv8>, b: seq<bv8>, i: nat)
    requires |a| == |b| && ShortBurst(a, b, i)
    requires var d := Difference(a, b)[i..i + 4]; d[0] == 0 && d[1] == 0 && d[2] == 0 && d[3] == 0
    ensures a == b
  {
    XorBytes(a[i], b[i]);
    XorBytes(a[i + 1], b[i + 1]);
    XorBytes(a[i + 2], b[i + 2]);
    XorBytes(a[i + 3], b[i + 3]);
    assert a == a[..i] + [a[i], a[i + 1], a[i + 2], a[i + 3]] + a[i + 4..];
    assert b == b[..i] + [b[i], b[i + 1], b[i + 2], b[i + 3]] + b[i + 4..];
  }
}
