/** Streaming IMA ADPCM decoder of dr_wav, over a memory stream that starts at the data chunk. */
module ImaAdpcm {
  import opened Common
  import opened PowersOfTwo

  const INDEX_TABLE: seq<int> := [-1, -1, -1, -1, 2, 4, 6, 8, -1, -1, -1, -1, 2, 4, 6, 8]

  const STEP_TABLE: seq<int> := [
    7, 8, 9, 10, 11, 12, 13, 14, 16, 17,
    19, 21, 23, 25, 28, 31, 34, 37, 41, 45,
    50, 55, 60, 66, 73, 80, 88, 97, 107, 118,
    130, 143, 157, 173, 190, 209, 230, 253, 279, 307,
    337, 371, 408, 449, 494, 544, 598, 658, 724, 796,
    876, 963, 1060, 1166, 1282, 1411, 1552, 1707, 1878, 2066,
    2272, 2499, 2749, 3024, 3327, 3660, 4026, 4428, 4871, 5358,
    5894, 6484, 7132, 7845, 8630, 9493, 10442, 11487, 12635, 13899,
    15289, 16818, 18500, 20350, 22385, 24623, 27086, 29794, 32767]

  const STEPS: nat := 89

  lemma TableSizes()
    ensures |STEP_TABLE| == STEPS && |INDEX_TABLE| == 16
  {
  }

  // ---------- One channel ----------

  /** What a channel carries from sample to sample. */
  datatype Predictor = Predictor(value: int, index: nat)

  /** A 16-bit sample and an index into the step table. */
  predicate Sane(p: Predictor) {
    -32768 <= p.value <= 32767 && p.index < STEPS
  }

  function Clamp(x: int, lo: int, hi: int): (r: int)
    requires lo <= hi
    ensures lo <= r <= hi
  {
    var low := if x < hi then x else hi;
    if low > lo then low else lo
  }

  /** What one nibble makes of the predictor. */
  function Next(p: Predictor, nibble: nat): (r: Predictor)
    requires Sane(p) && nibble < 16
    ensures Sane(r)
  {
    TableSizes();
    var step := STEP_TABLE[p.index];
    var diff := step / 8;
    var diff := if nibble % 2 == 1 then diff + step / 4 else diff;
    var diff := if nibble / 2 % 2 == 1 then diff + step / 2 else diff;
    var diff := if nibble / 4 % 2 == 1 then diff + step else diff;
    var diff := if nibble / 8 % 2 == 1 then -diff else diff;
    Predictor(Clamp(p.value + diff, -32768, 32767), Clamp(p.index + INDEX_TABLE[nibble], 0, STEPS - 1))
  }

  /** Nibble k of four bytes, the low half of each byte first. */
  function Nibble(bytes: seq<Byte>, k: nat): (n: nat)
    requires |bytes| == 4 && k < 8
    ensures n < 16
  {
    if k % 2 == 0 then bytes[k / 2] % 16 else bytes[k / 2] / 16
  }

  /** The predictor after k nibbles of four bytes. */
  function After(p: Predictor, bytes: seq<Byte>, k: nat): (r: Predictor)
    requires Sane(p) && |bytes| == 4 && k <= 8
    ensures Sane(r)
  {
    if k == 0 then p else Next(After(p, bytes, k - 1), Nibble(bytes, k - 1))
  }

  function Signed16(lo: Byte, hi: Byte): (v: int)
    ensures -32768 <= v <= 32767
  {
    var u := lo + 256 * hi;
    if u >= 32768 then u - 65536 else u
  }

  // ---------- The stream of frames ----------

  type Frame = seq<int>

  /** A frame, or a block header with an invalid step index, which makes a read return early. */
  datatype Event = Play(frame: Frame) | Break

  predicate ValidHeader(bytes: seq<Byte>, channels: nat)
    requires 1 <= channels <= 2 && 4 * channels <= |bytes|
  {
    bytes[2] < STEPS && (channels == 2 ==> bytes[6] < STEPS)
  }

  function HeaderPredictors(bytes: seq<Byte>, channels: nat): (p: seq<Predictor>)
    requires 1 <= channels <= 2 && 4 * channels <= |bytes| && ValidHeader(bytes, channels)
    ensures |p| == channels && AllSane(p)
  {
    var first := Predictor(Signed16(bytes[0], bytes[1]), bytes[2]);
    if channels == 1 then [first] else [first, Predictor(Signed16(bytes[4], bytes[5]), bytes[6])]
  }

  predicate AllSane(p: seq<Predictor>) {
    forall c :: 0 <= c < |p| ==> Sane(p[c])
  }

  function Values(p: seq<Predictor>): Frame {
    seq(|p|, c requires 0 <= c < |p| => p[c].value)
  }

  /** The predictors after k frames of a group; channel c has the four bytes from 4c on. */
  function AfterFrames(p: seq<Predictor>, group: seq<Byte>, k: nat): (r: seq<Predictor>)
    requires AllSane(p) && 4 * |p| <= |group| && k <= 8
    ensures |r| == |p| && AllSane(r)
  {
    seq(|p|, c requires 0 <= c < |p| => After(p[c], group[4 * c..4 * c + 4], k))
  }

  function GroupFrames(p: seq<Predictor>, group: seq<Byte>): (f: seq<Frame>)
    requires AllSane(p) && 4 * |p| <= |group|
    ensures |f| == 8
  {
    seq(8, i requires 0 <= i < 8 => Values(AfterFrames(p, group, i + 1)))
  }

  function Plays(frames: seq<Frame>): (e: seq<Event>)
    ensures |e| == |frames|
  {
    seq(|frames|, i requires 0 <= i < |frames| => Play(frames[i]))
  }

  /** Everything that reading on will bring, with left payload bytes to go in the current block. */
  function Events(channels: nat, align: nat, p: seq<Predictor>, rest: seq<Byte>, left: nat): seq<Event>
    requires 1 <= channels <= 2 && 4 * channels <= align && |p| == channels && AllSane(p)
    decreases |rest|, left
  {
    if left > 0 then
      if |rest| < 4 * channels || left < 4 * channels then [] else
        Plays(GroupFrames(p, rest)) +
        Events(channels, align, AfterFrames(p, rest, 8), rest[4 * channels..], left - 4 * channels)
    else if |rest| < 4 * channels then []
    else
      var payload := align - 4 * channels;
      var body := rest[4 * channels..];
      if !ValidHeader(rest, channels) then
        [Break] + Events(channels, align, p, if payload <= |body| then body[payload..] else body, 0)
      else
        var q := HeaderPredictors(rest, channels);
        [Play(Values(q))] + Events(channels, align, q, body, payload)
  }

  /** The first k frames, as far as they come without a break or the end of the stream. */
  function Delivered(e: seq<Event>, k: nat): (f: seq<Frame>)
    ensures |f| <= k && |f| <= |e|
  {
    if k == 0 || e == [] || e[0].Break? then [] else [e[0].frame] + Delivered(e[1..], k - 1)
  }

  /** What is still to come after asking for k frames; a break that was met is gone. */
  function Remaining(e: seq<Event>, k: nat): seq<Event> {
    if k == 0 || e == [] then e else if e[0].Break? then e[1..] else Remaining(e[1..], k - 1)
  }

  lemma OneFrame(e: seq<Event>, k: nat)
    requires k > 0 && e != [] && e[0].Play?
    ensures Delivered(e, k) == [e[0].frame] + Delivered(e[1..], k - 1)
    ensures Remaining(e, k) == Remaining(e[1..], k - 1)
  {
  }

  lemma MoreToCome(e: seq<Event>, k: nat)
    requires |Delivered(e, k)| == k > 0
    ensures e != [] && e[0].Play? && |Delivered(e[1..], k - 1)| == k - 1
  {
  }

  lemma Regroup(first: Frame, a: seq<Frame>, b: seq<Frame>)
    ensures [first] + (a + b) == [first] + a + b
  {
  }

  /** Asking twice is asking once for both, unless the first request met a break or the end. */
  lemma {:induction false} AskingTwice(e: seq<Event>, a: nat, b: nat)
    requires |Delivered(e, a)| == a
    ensures Delivered(e, a + b) == Delivered(e, a) + Delivered(Remaining(e, a), b)
    ensures Remaining(e, a + b) == Remaining(Remaining(e, a), b)
  {
    hide Delivered, Remaining;
    if a == 0 {
      NothingDelivered(e);
    } else {
      MoreToCome(e, a);
      AskingTwice(e[1..], a - 1, b);
      OneFrame(e, a);
      OneFrame(e, a + b);
      Regroup(e[0].frame, Delivered(e[1..], a - 1), Delivered(Remaining(e, a), b));
    }
  }

  lemma {:induction false} AskingOneMore(e: seq<Event>, a: nat)
    requires |Delivered(e, a)| == a && Remaining(e, a) != [] && Remaining(e, a)[0].Play?
    ensures Delivered(e, a + 1) == Delivered(e, a) + [Remaining(e, a)[0].frame]
    ensures Remaining(e, a + 1) == Remaining(e, a)[1..]
  {
    AskingTwice(e, a, 1);
  }

  /** A read that meets a break or the end stops there, however much is asked for. */
  lemma {:induction false} AskingInVain(e: seq<Event>, a: nat, k: nat)
    requires |Delivered(e, a)| == a < k && (Remaining(e, a) == [] || Remaining(e, a)[0].Break?)
    ensures Delivered(e, k) == Delivered(e, a)
    ensures Remaining(e, k) == if Remaining(e, a) == [] then [] else Remaining(e, a)[1..]
  {
    if a > 0 {
      AskingInVain(e[1..], a - 1, k - 1);
    }
  }

  /** The samples of frames one after the other. */
  function Flat(frames: seq<Frame>): seq<int> {
    if frames == [] then [] else Flat(frames[..|frames| - 1]) + frames[|frames| - 1]
  }

  // ---------- The decoder ----------

  /** n bytes are a whole number of groups of four per channel. */
  predicate WholeGroups(channels: nat, n: nat) {
    if channels == 1 then n % 4 == 0 else n % 8 == 0
  }

  /** Where sample s of frame i is when count frames are cached. */
  function Cell(channels: nat, count: nat, i: nat, s: nat): (c: nat)
    requires 1 <= channels <= 2 && i < count <= 8 && s < channels
    ensures c < 16
  {
    if channels == 1 then 16 - count + i else 16 - 2 * count + 2 * i + s
  }

  lemma CellIs(channels: nat, count: nat, i: nat, s: nat)
    requires 1 <= channels <= 2 && i < count <= 8 && s < channels
    ensures 16 - count * channels + i * channels + s == Cell(channels, count, i, s)
  {
  }

  /** The count frames that a cache still holds, oldest first. */
  function CachedIn(cache: seq<int>, channels: nat, count: nat): (f: seq<Frame>)
    requires |cache| == 16 && 1 <= channels <= 2 && count <= 8
    ensures |f| == count && forall i :: 0 <= i < count ==> |f[i]| == channels
  {
    seq(count, i requires 0 <= i < count =>
      seq(channels, s requires 0 <= s < channels => cache[Cell(channels, count, i, s)]))
  }

  /** The first k samples of channel c are in the cache. */
  ghost predicate SamplesIn(cache: seq<int>, channels: nat, c: nat, p: Predictor, bytes: seq<Byte>, k: nat)
    requires |cache| == 16 && 1 <= channels <= 2 && c < channels && Sane(p) && |bytes| == 4 && k <= 8
  {
    forall i :: 0 <= i < k ==> cache[Cell(channels, 8, i, c)] == After(p, bytes, i + 1).value
  }

  lemma SamplesStay(cache: seq<int>, now: seq<int>, channels: nat, c: nat, p: Predictor, bytes: seq<Byte>)
    requires |cache| == |now| == 16 && 1 <= channels <= 2 && c < channels && Sane(p) && |bytes| == 4
    requires SamplesIn(cache, channels, c, p, bytes, 8)
    requires forall i :: 0 <= i < 8 ==> now[Cell(channels, 8, i, c)] == cache[Cell(channels, 8, i, c)]
    ensures SamplesIn(now, channels, c, p, bytes, 8)
  {
  }

  class Wav {
    const channels: nat
    const blockAlign: nat
    const totalPCMFrameCount: nat
    const data: seq<Byte>
    const predictor: array<int>
    const stepIndex: array<nat>
    const cachedFrames: array<int>
    var currentReadPos: nat
    var readCursorInPCMFrames: nat
    var bytesRemainingInBlock: nat
    var cachedFrameCount: nat

    ghost predicate Shape()
      reads this, predictor, stepIndex
    {
      && 1 <= channels <= 2 && 4 * channels <= blockAlign && WholeGroups(channels, blockAlign)
      && predictor.Length == 2 && stepIndex.Length == 2 && cachedFrames.Length == 16 && predictor != cachedFrames
      && (forall c :: 0 <= c < 2 ==> Sane(Predictor(predictor[c], stepIndex[c])))
      && currentReadPos <= |data| && readCursorInPCMFrames <= totalPCMFrameCount && cachedFrameCount <= 8
    }

    /** The rest of the block is whole groups, unless the stream ended inside one. */
    ghost predicate Valid()
      reads this, predictor, stepIndex
    {
      && Shape()
      && (|| WholeGroups(channels, bytesRemainingInBlock)
          || (currentReadPos == |data| && cachedFrameCount == 0 && bytesRemainingInBlock >= 4))
    }

    ghost function Predictors(): (p: seq<Predictor>)
      requires Shape()
      reads this, predictor, stepIndex
      ensures |p| == channels && AllSane(p)
    {
      var first := Predictor(predictor[0], stepIndex[0]);
      if channels == 1 then [first] else [first, Predictor(predictor[1], stepIndex[1])]
    }

    /** All that reading on will bring. */
    ghost function Future(): seq<Event>
      requires Shape()
      reads this, predictor, stepIndex, cachedFrames
    {
      Plays(CachedIn(cachedFrames[..], channels, cachedFrameCount))
        + Events(channels, blockAlign, Predictors(), data[currentReadPos..], bytesRemainingInBlock)
    }

    constructor (channels: nat, blockAlign: nat, totalPCMFrameCount: nat, data: seq<Byte>)
      requires 1 <= channels <= 2 && 4 * channels <= blockAlign && WholeGroups(channels, blockAlign)
      ensures Valid() && fresh(predictor) && fresh(stepIndex) && fresh(cachedFrames)
      ensures this.channels == channels && this.blockAlign == blockAlign && this.data == data
      ensures this.totalPCMFrameCount == totalPCMFrameCount && readCursorInPCMFrames == 0
      ensures Future() == Start(channels, blockAlign, data)
    {
      this.channels, this.blockAlign, this.data := channels, blockAlign, data;
      this.totalPCMFrameCount := totalPCMFrameCount;
      predictor := new int[2](_ => 0);
      stepIndex := new nat[2](_ => 0);
      cachedFrames := new int[16](_ => 0);
      currentReadPos, readCursorInPCMFrames, bytesRemainingInBlock, cachedFrameCount := 0, 0, 0, 0;
      new;
      StartIgnoresPredictors(Predictors(), channels, blockAlign, data);
    }

    /** onRead of the memory stream */
    method OnRead(bytesToRead: nat) returns (bytes: seq<Byte>)
      requires currentReadPos <= |data|
      modifies this`currentReadPos
      ensures currentReadPos == old(currentReadPos) + |bytes| <= |data|
      ensures bytes == data[old(currentReadPos)..currentReadPos]
      ensures |bytes| == if bytesToRead <= |data| - old(currentReadPos)
        then bytesToRead else |data| - old(currentReadPos)
    {
      var n := bytesToRead;
      if n > |data| - currentReadPos {
        n := |data| - currentReadPos;
      }
      bytes := data[currentReadPos..currentReadPos + n];
      currentReadPos := currentReadPos + n;
    }

    /** onSeek of the memory stream, forwards: refuses to go past the end. */
    method OnSeekForward(offset: nat)
      requires currentReadPos <= |data|
      modifies this`currentReadPos
      ensures currentReadPos <= |data|
      ensures data[currentReadPos..] == (var body := data[old(currentReadPos)..];
        if offset <= |body| then body[offset..] else body)
    {
      if currentReadPos + offset <= |data| {
        currentReadPos := currentReadPos + offset;
      }
    }

    /** What is to come when nothing, or one frame, is cached. */
    lemma FutureWithout()
      requires Shape() && cachedFrameCount == 0
      ensures Future() == Events(channels, blockAlign, Predictors(), data[currentReadPos..], bytesRemainingInBlock)
    {
      hide Events;
      NothingCached(cachedFrames[..], channels, []);
    }

    lemma FutureWithOne(frame: Frame)
      requires Shape() && cachedFrameCount == 1 && CachedIn(cachedFrames[..], channels, 1) == [frame]
      ensures Future() == [Play(frame)]
        + Events(channels, blockAlign, Predictors(), data[currentReadPos..], bytesRemainingInBlock)
    {
      hide Events, CachedIn;
      NothingCached(cachedFrames[..], channels, frame);
    }

    /** The header of the next block. */
    method LoadBlock() returns (ok: bool)
      requires Valid() && cachedFrameCount == 0 && bytesRemainingInBlock == 0
      modifies this, predictor, stepIndex, cachedFrames
      ensures Valid() && readCursorInPCMFrames == old(readCursorInPCMFrames)
      ensures ok ==> cachedFrameCount == 1 && Future() == old(Future())
      ensures !ok ==> Future() == (if old(Future()) == [] then [] else old(Future())[1..])
      ensures !ok ==> old(Future()) == [] || old(Future())[0] == Break
    {
      hide Events, HeaderPredictors, WholeGroups, Plays, CachedIn, Sane, Values, Future;
      ghost var rest, p := data[currentReadPos..], Predictors();
      FutureWithout();
      PayloadIsWhole(channels, blockAlign);
      var header := OnRead(4 * channels);
      if |header| != 4 * channels {
        TooShort(channels, blockAlign, p, rest);
        TooShort(channels, blockAlign, p, []);
        assert data[currentReadPos..] == [];
        FutureWithout();
        return false;
      }
      ghost var body := data[currentReadPos..];
      assert rest == header + body;
      bytesRemainingInBlock := blockAlign - 4 * channels;
      if header[2] >= STEPS || (channels == 2 && header[6] >= STEPS) {
        BadHeader(channels, blockAlign, p, header, body);
        OnSeekForward(bytesRemainingInBlock);
        bytesRemainingInBlock := 0;
        FutureWithout();
        return false;
      }
      GoodHeader(channels, blockAlign, p, header, body);
      StoreHeader(header);
      FutureWithOne(Values(Predictors()));
      return true;
    }

    /** Takes the first frame and the step indices from a block header. */
    method StoreHeader(header: seq<Byte>)
      requires Valid() && |header| == 4 * channels && ValidHeader(header, channels)
      requires WholeGroups(channels, bytesRemainingInBlock)
      modifies this`cachedFrameCount, predictor, stepIndex, cachedFrames
      ensures Valid() && cachedFrameCount == 1 && Predictors() == HeaderPredictors(header, channels)
      ensures CachedIn(cachedFrames[..], channels, 1) == [Values(Predictors())]
    {
      TableSizes();
      predictor[0], stepIndex[0] := Signed16(header[0], header[1]), Clamp(header[2], 0, STEPS - 1);
      if channels == 2 {
        predictor[1], stepIndex[1] := Signed16(header[4], header[5]), Clamp(header[6], 0, STEPS - 1);
        cachedFrames[14], cachedFrames[15] := predictor[0], predictor[1];
      } else {
        cachedFrames[15] := predictor[0];
      }
      cachedFrameCount := 1;
      var frames := CachedIn(cachedFrames[..], channels, 1);
      assert frames[0] == Values(Predictors());
    }

    /** One nibble of one channel. */
    method DecodeNibble(iChannel: nat, nibble: nat, cell: nat)
      requires Shape() && iChannel < channels && nibble < 16 && cell < 16
      modifies predictor, stepIndex, cachedFrames
      ensures Shape()
      ensures Predictor(predictor[iChannel], stepIndex[iChannel])
        == Next(Predictor(old(predictor[iChannel]), old(stepIndex[iChannel])), nibble)
      ensures forall c :: 0 <= c < 2 && c != iChannel ==>
        predictor[c] == old(predictor[c]) && stepIndex[c] == old(stepIndex[c])
      ensures cachedFrames[..] == old(cachedFrames[..])[cell := predictor[iChannel]]
    {
      TableSizes();
      var step := STEP_TABLE[stepIndex[iChannel]];
      var p := predictor[iChannel];
      var diff := step / 8;
      if nibble % 2 == 1 {
        diff := diff + step / 4;
      }
      if nibble / 2 % 2 == 1 {
        diff := diff + step / 2;
      }
      if nibble / 4 % 2 == 1 {
        diff := diff + step;
      }
      if nibble / 8 % 2 == 1 {
        diff := -diff;
      }
      p := Clamp(p + diff, -32768, 32767);
      predictor[iChannel] := p;
      stepIndex[iChannel] := Clamp(stepIndex[iChannel] + INDEX_TABLE[nibble], 0, STEPS - 1);
      cachedFrames[cell] := p;
    }

    /** The samples of one channel in a group that is being decoded, and where they came from. */
    ghost predicate ChannelDone(c: nat, p: Predictor, bytes: seq<Byte>, k: nat)
      requires Shape() && c < channels && Sane(p) && |bytes| == 4 && k <= 8
      reads this, predictor, stepIndex, cachedFrames
    {
      && Predictor(predictor[c], stepIndex[c]) == After(p, bytes, k)
      && SamplesIn(cachedFrames[..], channels, c, p, bytes, k)
    }

    /** The other channel is as it was. */
    twostate predicate OthersKept(iChannel: nat)
      requires Shape() && old(Shape()) && iChannel < channels
      reads this, predictor, stepIndex, cachedFrames
    {
      && (forall c :: 0 <= c < 2 && c != iChannel ==>
            predictor[c] == old(predictor[c]) && stepIndex[c] == old(stepIndex[c]))
      && (forall c, i :: 0 <= c < channels && c != iChannel && 0 <= i < 8 ==>
            cachedFrames[Cell(channels, 8, i, c)] == old(cachedFrames[Cell(channels, 8, i, c)]))
    }

    /** Nibble k of a channel's four bytes. */
    method DecodeNext(iChannel: nat, nibble: nat, cell: nat, ghost p: Predictor, ghost bytes: seq<Byte>, ghost k: nat)
      requires Shape() && iChannel < channels && Sane(p) && |bytes| == 4 && k < 8
      requires ChannelDone(iChannel, p, bytes, k) && nibble == Nibble(bytes, k)
        && cell == Cell(channels, 8, k, iChannel)
      modifies predictor, stepIndex, cachedFrames
      ensures Shape() && ChannelDone(iChannel, p, bytes, k + 1) && OthersKept(iChannel)
    {
      hide Next, Sane, Nibble;
      ghost var cache := cachedFrames[..];
      DecodeNibble(iChannel, nibble, cell);
      forall i | 0 <= i < k
        ensures cachedFrames[Cell(channels, 8, i, iChannel)] == cache[Cell(channels, 8, i, iChannel)]
      {
        CellsDiffer(channels, i, iChannel, k, iChannel);
      }
      forall c, i | 0 <= c < channels && c != iChannel && 0 <= i < 8
        ensures cachedFrames[Cell(channels, 8, i, c)] == cache[Cell(channels, 8, i, c)]
      {
        CellsDiffer(channels, i, c, k, iChannel);
      }
    }

    /** Both nibbles of a byte, the low one first. */
    method DecodeByte(iChannel: nat, byte: Byte, iByte: nat, ghost p: Predictor, ghost bytes: seq<Byte>)
      requires Shape() && iChannel < channels && Sane(p) && |bytes| == 4 && iByte < 4 && byte == bytes[iByte]
      requires ChannelDone(iChannel, p, bytes, 2 * iByte) && cachedFrameCount == 8
      modifies predictor, stepIndex, cachedFrames
      ensures Shape() && ChannelDone(iChannel, p, bytes, 2 * iByte + 2) && OthersKept(iChannel)
    {
      hide ChannelDone, Sane, Cell, Next, After;
      var nibble0 := byte % 16;
      var nibble1 := byte / 16;
      CellIs(channels, 8, iByte * 2 + 0, iChannel);
      CellIs(channels, 8, iByte * 2 + 1, iChannel);
      DecodeNext(iChannel, nibble0, 16 - cachedFrameCount * channels + (iByte * 2 + 0) * channels + iChannel,
                 p, bytes, 2 * iByte);
      DecodeNext(iChannel, nibble1, 16 - cachedFrameCount * channels + (iByte * 2 + 1) * channels + iChannel,
                 p, bytes, 2 * iByte + 1);
    }

    /** Four bytes of one channel. */
    method DecodeChannel(iChannel: nat) returns (ok: bool)
      requires Shape() && iChannel < channels && cachedFrameCount == 8 && bytesRemainingInBlock >= 4
      modifies this`currentReadPos, this`bytesRemainingInBlock, this`cachedFrameCount
      modifies predictor, stepIndex, cachedFrames
      ensures Shape() && OthersKept(iChannel) && ok == (|data| - old(currentReadPos) >= 4)
      ensures ok ==> currentReadPos == old(currentReadPos) + 4 && cachedFrameCount == 8
      ensures ok ==> bytesRemainingInBlock == old(bytesRemainingInBlock) - 4
      ensures ok ==> ChannelDone(iChannel, Predictor(old(predictor[iChannel]), old(stepIndex[iChannel])),
                                 data[old(currentReadPos)..currentReadPos], 8)
      ensures !ok ==> currentReadPos == |data| && cachedFrameCount == 0
      ensures !ok ==> bytesRemainingInBlock == old(bytesRemainingInBlock)
    {
      hide Next, Cell, After;
      ghost var p := Predictor(predictor[iChannel], stepIndex[iChannel]);
      var nibbles := OnRead(4);
      if |nibbles| != 4 {
        cachedFrameCount := 0;
        return false;
      }
      bytesRemainingInBlock := bytesRemainingInBlock - 4;
      NothingDone(iChannel, p, nibbles);
      var iByte := 0;
      while iByte < 4
        invariant iByte <= 4 && Shape() && ChannelDone(iChannel, p, nibbles, 2 * iByte) && OthersKept(iChannel)
        invariant cachedFrameCount == 8 && currentReadPos == old(currentReadPos) + 4
        invariant bytesRemainingInBlock == old(bytesRemainingInBlock) - 4
      {
        hide ChannelDone;
        DecodeByte(iChannel, nibbles[iByte], iByte, p, nibbles);
        iByte := iByte + 1;
      }
      return true;
    }

    lemma NothingDone(c: nat, p: Predictor, bytes: seq<Byte>)
      requires Shape() && c < channels && |bytes| == 4 && p == Predictor(predictor[c], stepIndex[c])
      ensures Sane(p) && ChannelDone(c, p, bytes, 0)
    {
    }

    /** A group with predictors p and bytes rest, decoded up to channel iChannel. */
    ghost predicate InGroup(p: seq<Predictor>, rest: seq<Byte>, iChannel: nat)
      requires Shape() && |p| == channels && AllSane(p) && iChannel <= channels && 4 * iChannel <= |rest|
      reads this, predictor, stepIndex, cachedFrames
    {
      && cachedFrameCount == 8 && rest[4 * iChannel..] == data[currentReadPos..]
      && (forall c :: 0 <= c < iChannel ==> ChannelDone(c, p[c], rest[4 * c..4 * c + 4], 8))
      && (forall c :: iChannel <= c < channels ==> p[c] == Predictor(predictor[c], stepIndex[c]))
    }

    /** One pass of the loop over the channels. */
    method DecodeNextChannel(iChannel: nat, ghost p: seq<Predictor>, ghost rest: seq<Byte>) returns (ok: bool)
      requires Shape() && |p| == channels && AllSane(p) && iChannel < channels && 4 * iChannel <= |rest|
      requires InGroup(p, rest, iChannel) && bytesRemainingInBlock >= 4
      modifies this`currentReadPos, this`bytesRemainingInBlock, this`cachedFrameCount
      modifies predictor, stepIndex, cachedFrames
      ensures Shape() && ok == (4 * iChannel + 4 <= |rest|)
      ensures ok ==> bytesRemainingInBlock == old(bytesRemainingInBlock) - 4 && InGroup(p, rest, iChannel + 1)
      ensures !ok ==> currentReadPos == |data| && cachedFrameCount == 0
      ensures !ok ==> bytesRemainingInBlock == old(bytesRemainingInBlock)
    {
      hide SamplesIn, Sane, Cell, After, Next;
      ghost var cache := cachedFrames[..];
      ok := DecodeChannel(iChannel);
      if ok {
        assert data[old(currentReadPos)..currentReadPos] == data[old(currentReadPos)..][..4]
          == rest[4 * iChannel..][..4];
        assert data[currentReadPos..] == rest[4 * iChannel..][4..] == rest[4 * (iChannel + 1)..];
        assert rest[4 * iChannel..][..4] == rest[4 * iChannel..4 * iChannel + 4];
        if iChannel == 1 {
          SamplesStay(cache, cachedFrames[..], channels, 0, p[0], rest[4 * 0..4 * 0 + 4]);
        }
      }
    }

    /** A group of eight frames: four bytes of one channel after the other. */
    method DecodeGroup() returns (ok: bool)
      requires Valid() && cachedFrameCount == 0 && bytesRemainingInBlock > 0
      modifies this, predictor, stepIndex, cachedFrames
      ensures Valid() && readCursorInPCMFrames == old(readCursorInPCMFrames)
      ensures ok ==> cachedFrameCount == 8 && Future() == old(Future()) && currentReadPos > old(currentReadPos)
      ensures !ok ==> cachedFrameCount == 0 && Future() == old(Future()) == []
    {
      hide Events, ChannelDone, Sane, Cell, Values, After, Next, CachedIn, Plays, GroupFrames, AfterFrames;
      ghost var rest, p, left := data[currentReadPos..], Predictors(), bytesRemainingInBlock;
      NothingCached(cachedFrames[..], channels, []);
      GroupBegins(channels, blockAlign, p, rest, left);
      cachedFrameCount := 8;
      var iChannel := 0;
      ok := true;
      while iChannel < channels
        invariant iChannel <= channels && Shape() && 4 * iChannel <= |rest| && InGroup(p, rest, iChannel)
        invariant readCursorInPCMFrames == old(readCursorInPCMFrames) && bytesRemainingInBlock == left - 4 * iChannel
        invariant left >= 4 * channels || (rest == [] && left >= 4)
      {
        ok := DecodeNextChannel(iChannel, p, rest);
        if !ok {
          CutOff(channels, blockAlign, Predictors(), bytesRemainingInBlock);
          NothingCached(cachedFrames[..], channels, []);
          assert data[currentReadPos..] == [];
          return;
        }
        iChannel := iChannel + 1;
      }
      GroupDone(p, rest);
      LeftIsWhole(channels, left);
    }

    lemma GroupDone(p: seq<Predictor>, rest: seq<Byte>)
      requires Shape() && |p| == channels && AllSane(p) && 4 * channels <= |rest|
      requires forall c :: 0 <= c < channels ==> ChannelDone(c, p[c], rest[4 * c..4 * c + 4], 8)
      ensures Predictors() == AfterFrames(p, rest, 8)
      ensures CachedIn(cachedFrames[..], channels, 8) == GroupFrames(p, rest)
    {
      hide After, Cell, Sane;
      var frames, group := CachedIn(cachedFrames[..], channels, 8), GroupFrames(p, rest);
      forall i | 0 <= i < 8
        ensures frames[i] == group[i]
      {
        forall c | 0 <= c < channels
          ensures frames[i][c] == group[i][c]
        {
          assert ChannelDone(c, p[c], rest[4 * c..4 * c + 4], 8);
        }
      }
      assert ChannelDone(0, p[0], rest[4 * 0..4 * 0 + 4], 8);
      assert channels == 2 ==> ChannelDone(1, p[1], rest[4 * 1..4 * 1 + 4], 8);
    }

    /** Hands out the oldest cached frame. */
    method OutputFrame(buffer: array?<int>, p: nat) returns (ghost frame: Frame)
      requires Valid() && cachedFrameCount > 0 && readCursorInPCMFrames < totalPCMFrameCount
      requires buffer != null ==> p + channels <= buffer.Length && buffer != predictor && buffer != cachedFrames
      modifies this`readCursorInPCMFrames, this`cachedFrameCount, buffer
      ensures Valid() && readCursorInPCMFrames == old(readCursorInPCMFrames) + 1
      ensures cachedFrameCount == old(cachedFrameCount) - 1
      ensures |frame| == channels && old(Future()) == [Play(frame)] + Future()
      ensures buffer != null ==> buffer[..p + channels] == old(buffer[..p]) + frame
    {
      hide Events, Sane, CachedIn, Plays;
      frame := CachedIn(cachedFrames[..], channels, cachedFrameCount)[0];
      ghost var cache := cachedFrames[..];
      if buffer != null {
        CopyFrame(buffer, p, frame);
      }
      FirstOfCache(cache, channels, cachedFrameCount);
      readCursorInPCMFrames := readCursorInPCMFrames + 1;
      cachedFrameCount := cachedFrameCount - 1;
    }

    method CopyFrame(buffer: array<int>, p: nat, ghost frame: Frame)
      requires Shape() && cachedFrameCount > 0 && frame == CachedIn(cachedFrames[..], channels, cachedFrameCount)[0]
      requires p + channels <= buffer.Length && buffer != cachedFrames
      modifies buffer
      ensures buffer[..p + channels] == old(buffer[..p]) + frame
    {
      hide Sane;
      ghost var cache := cachedFrames[..];
      var iSample := 0;
      while iSample < channels
        invariant iSample <= channels
        invariant buffer[..p + iSample] == old(buffer[..p]) + frame[..iSample]
      {
        CellIs(channels, cachedFrameCount, 0, iSample);
        buffer[p + iSample] := cachedFrames[16 - cachedFrameCount * channels + iSample];
        assert buffer[..p + iSample + 1] == buffer[..p + iSample] + [frame[iSample]];
        iSample := iSample + 1;
      }
    }

    /** total frames of what e promises have been delivered, the last of them at the front of the buffer. */
    ghost predicate Reading(e: seq<Event>, total: nat, buffer: array?<int>, p: nat)
      requires Valid()
      reads this, predictor, stepIndex, cachedFrames, buffer
    {
      var frames := Delivered(e, total);
      && |frames| == total && Future() == Remaining(e, total)
      && p == |Flat(frames)| == total * channels
      && (buffer != null ==> p <= buffer.Length && buffer[..p] == Flat(frames))
    }

    /** The loop over the cache. */
    method OutputCached(framesToRead: nat, buffer: array?<int>, p: nat, ghost e: seq<Event>, ghost total: nat)
      returns (n: nat, q: nat)
      requires Valid() && framesToRead > 0 && readCursorInPCMFrames < totalPCMFrameCount && Reading(e, total, buffer, p)
      requires buffer != null ==> (total + framesToRead) * channels <= buffer.Length
      requires buffer != null ==> buffer != predictor && buffer != cachedFrames
      modifies this`readCursorInPCMFrames, this`cachedFrameCount, buffer
      ensures Valid() && n <= framesToRead && Reading(e, total + n, buffer, q)
      ensures readCursorInPCMFrames == old(readCursorInPCMFrames) + n
      ensures old(cachedFrameCount) > 0 ==> n > 0
      ensures n == framesToRead || cachedFrameCount == 0 || readCursorInPCMFrames == totalPCMFrameCount
    {
      hide Events, Sane, Plays, CachedIn, Flat, Delivered, Remaining;
      n, q := 0, p;
      while n < framesToRead && cachedFrameCount > 0 && readCursorInPCMFrames < totalPCMFrameCount
        invariant Valid() && n <= framesToRead && Reading(e, total + n, buffer, q)
        invariant readCursorInPCMFrames == old(readCursorInPCMFrames) + n
        invariant n == 0 ==> cachedFrameCount == old(cachedFrameCount)
      {
        RoomForFrame(total + n, total + framesToRead, channels);
        ghost var frame := OutputFrame(buffer, q);
        DeliveredOneMore(e, total + n, frame, Future(), channels);
        q := q + channels;
        n := n + 1;
      }
    }

    /** How many of framesToRead frames lie before the end of the sound. */
    ghost function Asked(framesToRead: nat): nat
      requires Shape()
      reads this, predictor, stepIndex
    {
      if framesToRead <= totalPCMFrameCount - readCursorInPCMFrames then framesToRead
      else totalPCMFrameCount - readCursorInPCMFrames
    }

    /** drwav_read_pcm_frames_s16__ima */
    method ReadPcmFramesS16(framesToRead: nat, buffer: array?<int>) returns (totalFramesRead: nat)
      requires Valid() && framesToRead > 0
      requires buffer != null ==> framesToRead * channels <= buffer.Length
      requires buffer != null ==> buffer != predictor && buffer != cachedFrames
      modifies this, predictor, stepIndex, cachedFrames, buffer
      ensures Valid() && readCursorInPCMFrames == old(readCursorInPCMFrames) + totalFramesRead
      ensures totalFramesRead == |Delivered(old(Future()), old(Asked(framesToRead)))|
      ensures Future() == Remaining(old(Future()), old(Asked(framesToRead)))
      ensures buffer != null ==> var samples := Flat(Delivered(old(Future()), old(Asked(framesToRead))));
        |samples| <= buffer.Length && buffer[..|samples|] == samples
    {
      hide Events, Sane, Plays, CachedIn, Flat, Delivered, Remaining;
      ghost var e, k := Future(), Asked(framesToRead);
      totalFramesRead := 0;
      var toRead, p := framesToRead, 0;
      NothingDelivered(e);
      while readCursorInPCMFrames < totalPCMFrameCount
        invariant Valid() && toRead > 0 && totalFramesRead + toRead == framesToRead
        invariant readCursorInPCMFrames == old(readCursorInPCMFrames) + totalFramesRead
        invariant Reading(e, totalFramesRead, buffer, p)
        decreases toRead, |data| - currentReadPos
      {
        if cachedFrameCount == 0 && bytesRemainingInBlock == 0 {
          var ok := LoadBlock();
          if !ok {
            AskingInVain(e, totalFramesRead, k);
            return;
          }
        }
        ghost var cached := cachedFrameCount;
        var n, q := OutputCached(toRead, buffer, p, e, totalFramesRead);
        toRead, totalFramesRead, p := toRead - n, totalFramesRead + n, q;
        if toRead == 0 {
          break;
        }
        if cachedFrameCount == 0 {
          if bytesRemainingInBlock == 0 {
            continue;
          }
          var ok := DecodeGroup();
          if !ok {
            if totalFramesRead < k {
              AskingInVain(e, totalFramesRead, k);
            }
            return;
          }
        }
      }
    }

    /** The decoder stands where its cursor says. */
    ghost predicate InStep()
      reads this, predictor, stepIndex, cachedFrames
    {
      Valid() && readCursorInPCMFrames <= |Start(channels, blockAlign, data)|
        && Future() == Start(channels, blockAlign, data)[readCursorInPCMFrames..]
    }

    /** frames is the whole sound: no invalid block header among them. */
    ghost predicate Sound(frames: seq<Frame>)
      requires 1 <= channels <= 2 && 4 * channels <= blockAlign
    {
      |frames| == totalPCMFrameCount && Plays(frames) <= Start(channels, blockAlign, data)
    }

    /** drwav_seek_to_first_pcm_frame */
    method SeekToFirstPcmFrame()
      requires Valid()
      modifies this, predictor, stepIndex, cachedFrames
      ensures Valid() && readCursorInPCMFrames == 0 && InStep()
    {
      hide Events;
      currentReadPos := 0;
      predictor[0], predictor[1], stepIndex[0], stepIndex[1] := 0, 0, 0, 0;
      forall k | 0 <= k < 16 {
        cachedFrames[k] := 0;
      }
      bytesRemainingInBlock, cachedFrameCount, readCursorInPCMFrames := 0, 0, 0;
      StartIgnoresPredictors(Predictors(), channels, blockAlign, data);
      NothingCached(cachedFrames[..], channels, []);
      assert data[0..] == data;
    }

    /** A read in step delivers the frames from the cursor on, and stays in step. */
    method ReadInStep(framesToRead: nat, buffer: array?<int>, ghost frames: seq<Frame>) returns (framesRead: nat)
      requires InStep() && Sound(frames) && framesToRead > 0
      requires buffer != null ==> framesToRead * channels <= buffer.Length
      requires buffer != null ==> buffer != predictor && buffer != cachedFrames
      modifies this, predictor, stepIndex, cachedFrames, buffer
      ensures InStep() && framesRead == old(Asked(framesToRead))
      ensures readCursorInPCMFrames == old(readCursorInPCMFrames) + framesRead
      ensures buffer != null ==>
        var samples := Flat(frames[old(readCursorInPCMFrames)..readCursorInPCMFrames]);
        |samples| <= buffer.Length && buffer[..|samples|] == samples
    {
      hide Events, Flat, Delivered, Remaining, Plays;
      ghost var c, k := readCursorInPCMFrames, Asked(framesToRead);
      StaysInStep(Start(channels, blockAlign, data), frames, c, k);
      framesRead := ReadPcmFramesS16(framesToRead, buffer);
    }

    /** drwav_seek_to_pcm_frame, for a compressed format. */
    method SeekToPcmFrame(target: nat, ghost frames: seq<Frame>) returns (ok: bool)
      requires InStep() && Sound(frames)
      modifies this, predictor, stepIndex, cachedFrames
      ensures ok && InStep()
      ensures readCursorInPCMFrames == if target <= totalPCMFrameCount then target else totalPCMFrameCount
    {
      hide Events, Start, Plays;
      if totalPCMFrameCount == 0 {
        return true;
      }
      var targetFrameIndex := if target > totalPCMFrameCount then totalPCMFrameCount else target;
      if targetFrameIndex < readCursorInPCMFrames {
        SeekToFirstPcmFrame();
      }
      if targetFrameIndex > readCursorInPCMFrames {
        var offsetInFrames := targetFrameIndex - readCursorInPCMFrames;
        var devnull := new int[2048];
        while offsetInFrames > 0
          invariant offsetInFrames >= 0 && InStep() && readCursorInPCMFrames + offsetInFrames == targetFrameIndex
        {
          var framesToRead := offsetInFrames;
          if framesToRead > DevnullFrames(channels) {
            framesToRead := DevnullFrames(channels);
          }
          FramesFit(framesToRead, channels);
          var framesRead := ReadInStep(framesToRead, devnull, frames);
          if framesRead != framesToRead {
            return false;
          }
          offsetInFrames := offsetInFrames - framesRead;
        }
      }
      return true;
    }
  }

  /** Frames that fit a buffer of 2048 samples. */
  function DevnullFrames(channels: nat): (n: nat)
    requires 1 <= channels <= 2
    ensures n > 0
  {
    2048 / channels
  }

  lemma FramesFit(n: nat, channels: nat)
    requires 1 <= channels <= 2 && n <= DevnullFrames(channels)
    ensures n * channels <= 2048
  {
  }

  lemma {:induction false} StaysInStep(e: seq<Event>, frames: seq<Frame>, c: nat, k: nat)
    requires Plays(frames) <= e && c + k <= |frames|
    ensures Delivered(e[c..], k) == frames[c..c + k] && |Delivered(e[c..], k)| == k
    ensures Remaining(e[c..], k) == e[c + k..]
    decreases k
  {
    if k > 0 {
      StaysInStep(e, frames, c + 1, k - 1);
      assert e[c..][0] == Plays(frames)[c] == Play(frames[c]);
      assert e[c..][1..] == e[c + 1..];
    }
  }

  lemma NothingDelivered(e: seq<Event>)
    ensures Delivered(e, 0) == [] && Remaining(e, 0) == e && Flat([]) == []
  {
  }

  lemma RoomForFrame(n: nat, limit: nat, channels: nat)
    requires n < limit
    ensures n * channels + channels <= limit * channels
  {
    MulMonotone(n + 1, limit, channels);
  }

  lemma FirstOfCache(cache: seq<int>, channels: nat, count: nat)
    requires |cache| == 16 && 1 <= channels <= 2 && 0 < count <= 8
    ensures Plays(CachedIn(cache, channels, count))
      == [Play(CachedIn(cache, channels, count)[0])] + Plays(CachedIn(cache, channels, count - 1))
  {
    var frames, next := CachedIn(cache, channels, count), CachedIn(cache, channels, count - 1);
    forall i | 0 <= i < count - 1
      ensures next[i] == frames[i + 1]
    {
    }
  }

  lemma DeliveredOneMore(e: seq<Event>, total: nat, frame: Frame, future: seq<Event>, channels: nat)
    requires |Delivered(e, total)| == total && Remaining(e, total) == [Play(frame)] + future && |frame| == channels
    requires |Flat(Delivered(e, total))| == total * channels
    ensures |Delivered(e, total + 1)| == total + 1 && Remaining(e, total + 1) == future
    ensures Flat(Delivered(e, total + 1)) == Flat(Delivered(e, total)) + frame
    ensures |Flat(Delivered(e, total + 1))| == (total + 1) * channels
  {
    AskingOneMore(e, total);
    var frames := Delivered(e, total + 1);
    assert frames[..|frames| - 1] == Delivered(e, total);
  }

  lemma GroupBegins(channels: nat, align: nat, p: seq<Predictor>, rest: seq<Byte>, left: nat)
    requires 1 <= channels <= 2 && 4 * channels <= align && |p| == channels && AllSane(p) && left > 0
    requires WholeGroups(channels, left) || rest == []
    ensures WholeGroups(channels, left) ==> left >= 4 * channels
    ensures if |rest| < 4 * channels then Events(channels, align, p, rest, left) == [] else
      Events(channels, align, p, rest, left) == Plays(GroupFrames(p, rest)) +
           Events(channels, align, AfterFrames(p, rest, 8), rest[4 * channels..], left - 4 * channels)
  {
  }

  lemma CutOff(channels: nat, align: nat, p: seq<Predictor>, left: nat)
    requires 1 <= channels <= 2 && 4 * channels <= align && |p| == channels && AllSane(p)
    ensures Events(channels, align, p, [], left) == []
  {
  }

  lemma LeftIsWhole(channels: nat, left: nat)
    requires 1 <= channels <= 2 && WholeGroups(channels, left) && left >= 4 * channels
    ensures WholeGroups(channels, left - 4 * channels)
  {
    if channels == 1 {
      DivModUnique(left - 4, 4, left / 4 - 1, 0);
    } else {
      DivModUnique(left - 8, 8, left / 8 - 1, 0);
    }
  }

  lemma CellsDiffer(channels: nat, i: nat, c: nat, k: nat, d: nat)
    requires 1 <= channels <= 2 && i < 8 && k < 8 && c < channels && d < channels && (i != k || c != d)
    ensures Cell(channels, 8, i, c) != Cell(channels, 8, k, d)
  {
  }

  /** What can happen at the beginning of a block: too few bytes, an invalid header or a block. */
  lemma BlockBegins(channels: nat, align: nat, p: seq<Predictor>, rest: seq<Byte>)
    requires 1 <= channels <= 2 && 4 * channels <= align && |p| == channels && AllSane(p)
    ensures |rest| < 4 * channels ==> Events(channels, align, p, rest, 0) == []
    ensures |rest| >= 4 * channels ==>
      var header, body, payload := rest[..4 * channels], rest[4 * channels..], align - 4 * channels;
      if ValidHeader(header, channels) then
        var q := HeaderPredictors(header, channels);
        Events(channels, align, p, rest, 0) == [Play(Values(q))] + Events(channels, align, q, body, payload)
      else
        Events(channels, align, p, rest, 0)
          == [Break] + Events(channels, align, p, if payload <= |body| then body[payload..] else body, 0)
  {
  }

  lemma TooShort(channels: nat, align: nat, p: seq<Predictor>, rest: seq<Byte>)
    requires 1 <= channels <= 2 && 4 * channels <= align && |p| == channels && AllSane(p) && |rest| < 4 * channels
    ensures Events(channels, align, p, rest, 0) == []
  {
  }

  lemma BadHeader(channels: nat, align: nat, p: seq<Predictor>, header: seq<Byte>, body: seq<Byte>)
    requires 1 <= channels <= 2 && 4 * channels <= align && |p| == channels && AllSane(p)
    requires |header| == 4 * channels && !ValidHeader(header, channels)
    ensures var payload := align - 4 * channels;
      Events(channels, align, p, header + body, 0)
        == [Break] + Events(channels, align, p, if payload <= |body| then body[payload..] else body, 0)
  {
    hide Events;
    BlockBegins(channels, align, p, header + body);
    assert (header + body)[..4 * channels] == header && (header + body)[4 * channels..] == body;
  }

  lemma GoodHeader(channels: nat, align: nat, p: seq<Predictor>, header: seq<Byte>, body: seq<Byte>)
    requires 1 <= channels <= 2 && 4 * channels <= align && |p| == channels && AllSane(p)
    requires |header| == 4 * channels && ValidHeader(header, channels)
    ensures var q := HeaderPredictors(header, channels);
      Events(channels, align, p, header + body, 0)
        == [Play(Values(q))] + Events(channels, align, q, body, align - 4 * channels)
  {
    hide Events, HeaderPredictors, Values;
    BlockBegins(channels, align, p, header + body);
    assert (header + body)[..4 * channels] == header && (header + body)[4 * channels..] == body;
  }

  lemma NothingCached(cache: seq<int>, channels: nat, frame: Frame)
    requires |cache| == 16 && 1 <= channels <= 2
    ensures Plays(CachedIn(cache, channels, 0)) == [] && Plays([frame]) == [Play(frame)]
  {
  }

  lemma PayloadIsWhole(channels: nat, align: nat)
    requires 1 <= channels <= 2 && 4 * channels <= align && WholeGroups(channels, align)
    ensures WholeGroups(channels, align - 4 * channels) && WholeGroups(channels, 0)
  {
    LeftIsWhole(channels, align);
  }

  /** What a fresh decoder will bring. */
  function Start(channels: nat, align: nat, data: seq<Byte>): seq<Event>
    requires 1 <= channels <= 2 && 4 * channels <= align
  {
    Events(channels, align, seq(channels, _ => Predictor(0, 0)), data, 0)
  }

  /** Between blocks the predictors do not matter. */
  lemma {:induction false} StartIgnoresPredictors(p: seq<Predictor>, channels: nat, align: nat, data: seq<Byte>)
    requires 1 <= channels <= 2 && 4 * channels <= align && |p| == channels && AllSane(p)
    ensures Events(channels, align, p, data, 0) == Start(channels, align, data)
    decreases |data|
  {
    if |data| >= 4 * channels && !ValidHeader(data, channels) {
      var payload, body := align - 4 * channels, data[4 * channels..];
      var next := if payload <= |body| then body[payload..] else body;
      StartIgnoresPredictors(p, channels, align, next);
      StartIgnoresPredictors(seq(channels, _ => Predictor(0, 0)), channels, align, next);
    }
  }

  // ---------- The plain decoder: every sample of a block from the block alone ----------

  /** Bytes in g groups. */
  function GroupBytes(channels: nat, g: nat): nat {
    if channels == 1 then 4 * g else 8 * g
  }

  /** A block: a header and whole groups. */
  ghost predicate ValidBlock(channels: nat, block: seq<Byte>, groups: nat) {
    1 <= channels <= 2 && |block| == 4 * channels + GroupBytes(channels, groups) && ValidHeader(block, channels)
  }

  /** Where the four bytes of channel c in group g begin. */
  function GroupStart(channels: nat, c: nat, g: nat): nat {
    4 * channels + GroupBytes(channels, g) + 4 * c
  }

  lemma GroupInBlock(channels: nat, groups: nat, c: nat, g: nat)
    requires 1 <= channels <= 2 && c < channels && g < groups
    ensures GroupStart(channels, c, g) + 4 <= 4 * channels + GroupBytes(channels, groups)
  {
  }

  /** Predictor of channel c after g groups and k more nibbles; the header holds the first. */
  function Chain(channels: nat, block: seq<Byte>, groups: nat, c: nat, g: nat, k: nat): (p: Predictor)
    requires ValidBlock(channels, block, groups) && c < channels && k <= 8 && g <= groups && (k > 0 ==> g < groups)
    ensures Sane(p)
    decreases g, k
  {
    if k > 0 then
      GroupInBlock(channels, groups, c, g);
      var byte := block[GroupStart(channels, c, g) + (k - 1) / 2];
      Next(Chain(channels, block, groups, c, g, k - 1), if k % 2 == 1 then byte % 16 else byte / 16)
    else if g > 0 then Chain(channels, block, groups, c, g - 1, 8)
    else HeaderPredictors(block, channels)[c]
  }

  function PlainFrame(channels: nat, block: seq<Byte>, groups: nat, g: nat, k: nat): (f: Frame)
    requires ValidBlock(channels, block, groups) && k <= 8 && g <= groups && (k > 0 ==> g < groups)
    ensures |f| == channels
  {
    seq(channels, c requires 0 <= c < channels => Chain(channels, block, groups, c, g, k).value)
  }

  /** The frames from group g on. */
  function FramesFrom(channels: nat, block: seq<Byte>, groups: nat, g: nat): (f: seq<Frame>)
    requires ValidBlock(channels, block, groups) && g <= groups
    ensures |f| == 8 * (groups - g)
    decreases groups - g
  {
    if g == groups then [] else
      seq(8, i requires 0 <= i < 8 => PlainFrame(channels, block, groups, g, i + 1))
      + FramesFrom(channels, block, groups, g + 1)
  }

  /** All 8 * groups + 1 frames of a block. */
  function PlainBlock(channels: nat, block: seq<Byte>, groups: nat): (f: seq<Frame>)
    requires ValidBlock(channels, block, groups)
    ensures |f| == 8 * groups + 1
  {
    [PlainFrame(channels, block, groups, 0, 0)] + FramesFrom(channels, block, groups, 0)
  }

  /** The block's predictors after g groups. */
  function ChainAt(channels: nat, block: seq<Byte>, groups: nat, g: nat): (p: seq<Predictor>)
    requires ValidBlock(channels, block, groups) && g <= groups
    ensures |p| == channels && AllSane(p)
  {
    seq(channels, c requires 0 <= c < channels => Chain(channels, block, groups, c, g, 0))
  }

  lemma ChainStep(channels: nat, block: seq<Byte>, groups: nat, c: nat, g: nat, k: nat, bytes: seq<Byte>)
    requires ValidBlock(channels, block, groups) && g < groups && c < channels && 0 < k <= 8 && |bytes| == 4
    requires GroupStart(channels, c, g) + 4 <= |block|
    requires bytes == block[GroupStart(channels, c, g)..GroupStart(channels, c, g) + 4]
    ensures Chain(channels, block, groups, c, g, k)
      == Next(Chain(channels, block, groups, c, g, k - 1), Nibble(bytes, k - 1))
  {
    hide Next, GroupStart, ValidBlock, Sane;
    assert bytes[(k - 1) / 2] == block[GroupStart(channels, c, g) + (k - 1) / 2];
  }

  lemma {:induction false} ChainInGroup(channels: nat, block: seq<Byte>, groups: nat, c: nat, g: nat, k: nat,
                                        bytes: seq<Byte>)
    requires ValidBlock(channels, block, groups) && g < groups && c < channels && k <= 8 && |bytes| == 4
    requires GroupStart(channels, c, g) + 4 <= |block|
    requires bytes == block[GroupStart(channels, c, g)..GroupStart(channels, c, g) + 4]
    ensures After(Chain(channels, block, groups, c, g, 0), bytes, k) == Chain(channels, block, groups, c, g, k)
  {
    hide Next, Chain, Nibble, GroupStart, ValidBlock, Sane;
    if k > 0 {
      ChainInGroup(channels, block, groups, c, g, k - 1, bytes);
      ChainStep(channels, block, groups, c, g, k, bytes);
    }
  }

  /** One group of the stream is the next eight frames of the block. */
  lemma GroupIsPlain(channels: nat, block: seq<Byte>, groups: nat, g: nat, rest: seq<Byte>)
    requires ValidBlock(channels, block, groups) && g < groups
    requires block[4 * channels + GroupBytes(channels, g)..] <= rest
    ensures 4 * channels <= |rest|
    ensures GroupFrames(ChainAt(channels, block, groups, g), rest)
      == seq(8, i requires 0 <= i < 8 => PlainFrame(channels, block, groups, g, i + 1))
    ensures AfterFrames(ChainAt(channels, block, groups, g), rest, 8) == ChainAt(channels, block, groups, g + 1)
  {
    hide Chain, After, Sane;
    var p := ChainAt(channels, block, groups, g);
    GroupInBlock(channels, groups, channels - 1, g);
    forall c, k | 0 <= c < channels && 0 <= k <= 8
      ensures After(p[c], rest[4 * c..4 * c + 4], k) == Chain(channels, block, groups, c, g, k)
    {
      GroupInBlock(channels, groups, c, g);
      GroupBytesAt(channels, block, g, c, rest);
      ChainInGroup(channels, block, groups, c, g, k, rest[4 * c..4 * c + 4]);
    }
    NextChain(channels, block, groups, g);
    forall k | 1 <= k <= 8
      ensures Values(AfterFrames(p, rest, k)) == PlainFrame(channels, block, groups, g, k)
    {
      var u, v := Values(AfterFrames(p, rest, k)), PlainFrame(channels, block, groups, g, k);
      forall c | 0 <= c < channels
        ensures u[c] == v[c]
      {
        assert After(p[c], rest[4 * c..4 * c + 4], k) == Chain(channels, block, groups, c, g, k);
      }
    }
    var u, v := AfterFrames(p, rest, 8), ChainAt(channels, block, groups, g + 1);
    forall c | 0 <= c < channels
      ensures u[c] == v[c]
    {
      assert After(p[c], rest[4 * c..4 * c + 4], 8) == Chain(channels, block, groups, c, g, 8);
    }
    PlainSeq(channels, block, groups, g, p, rest);
  }

  lemma PlainSeq(channels: nat, block: seq<Byte>, groups: nat, g: nat, p: seq<Predictor>, rest: seq<Byte>)
    requires ValidBlock(channels, block, groups) && g < groups && AllSane(p) && 4 * |p| <= |rest|
    requires forall k :: 1 <= k <= 8 ==> Values(AfterFrames(p, rest, k)) == PlainFrame(channels, block, groups, g, k)
    ensures GroupFrames(p, rest) == seq(8, i requires 0 <= i < 8 => PlainFrame(channels, block, groups, g, i + 1))
  {
    hide Values, AfterFrames, PlainFrame;
    var u := GroupFrames(p, rest);
    var v := seq(8, i requires 0 <= i < 8 => PlainFrame(channels, block, groups, g, i + 1));
    forall i | 0 <= i < 8
      ensures u[i] == v[i]
    {
      assert u[i] == Values(AfterFrames(p, rest, i + 1));
      assert v[i] == PlainFrame(channels, block, groups, g, i + 1);
    }
  }

  lemma GroupBytesAt(channels: nat, block: seq<Byte>, g: nat, c: nat, rest: seq<Byte>)
    requires 1 <= channels <= 2 && c < channels && GroupStart(channels, c, g) + 4 <= |block|
    requires block[4 * channels + GroupBytes(channels, g)..] <= rest
    ensures 4 * c + 4 <= |rest|
    ensures rest[4 * c..4 * c + 4] == block[GroupStart(channels, c, g)..GroupStart(channels, c, g) + 4]
  {
    var start := 4 * channels + GroupBytes(channels, g);
    assert rest[4 * c..4 * c + 4] == block[start..][4 * c..4 * c + 4];
  }

  lemma NextChain(channels: nat, block: seq<Byte>, groups: nat, g: nat)
    requires ValidBlock(channels, block, groups) && g < groups
    ensures forall c: nat :: c < channels ==>
      Chain(channels, block, groups, c, g + 1, 0) == Chain(channels, block, groups, c, g, 8)
  {
  }

  lemma NextGroup(channels: nat, align: nat, p: seq<Predictor>, rest: seq<Byte>, left: nat)
    requires 1 <= channels <= 2 && 4 * channels <= align && |p| == channels && AllSane(p)
    requires 4 * channels <= left && 4 * channels <= |rest|
    ensures Events(channels, align, p, rest, left) == Plays(GroupFrames(p, rest)) +
      Events(channels, align, AfterFrames(p, rest, 8), rest[4 * channels..], left - 4 * channels)
  {
  }

  lemma NextFrames(channels: nat, block: seq<Byte>, groups: nat, g: nat)
    requires ValidBlock(channels, block, groups) && g < groups
    ensures Plays(FramesFrom(channels, block, groups, g))
      == Plays(seq(8, i requires 0 <= i < 8 => PlainFrame(channels, block, groups, g, i + 1)))
         + Plays(FramesFrom(channels, block, groups, g + 1))
  {
    hide PlainFrame, ValidBlock;
  }

  lemma BytesOfNextGroup(channels: nat, groups: nat, g: nat, block: seq<Byte>, next: seq<Byte>)
    requires 1 <= channels <= 2 && g < groups && |block| == 4 * channels + GroupBytes(channels, groups)
    ensures var start := 4 * channels + GroupBytes(channels, g);
      && 4 * channels + GroupBytes(channels, g + 1) == start + 4 * channels <= |block|
      && block[start..] <= block[start..] + next
      && (block[start..] + next)[4 * channels..] == block[start + 4 * channels..] + next
  {
  }

  /** From group g on, the stream brings the rest of the block's frames and then what follows it; a block that has been
      cut short, with fewer groups than fit, leaves room in the block. */
  lemma {:induction false} GroupsArePlain(channels: nat, align: nat, block: seq<Byte>, groups: nat, g: nat,
                                          next: seq<Byte>)
    requires ValidBlock(channels, block, groups) && g <= groups && |block| <= align
    ensures var start := 4 * channels + GroupBytes(channels, g);
      Events(channels, align, ChainAt(channels, block, groups, g), block[start..] + next, align - start)
        == Plays(FramesFrom(channels, block, groups, g))
           + Events(channels, align, ChainAt(channels, block, groups, groups), next, align - |block|)
    decreases groups - g
  {
    hide GroupFrames, AfterFrames, ChainAt, PlainFrame, Events, Plays, HeaderPredictors, Sane, ValidHeader;
    var start, p := 4 * channels + GroupBytes(channels, g), ChainAt(channels, block, groups, g);
    var rest := block[start..] + next;
    if g == groups {
      assert rest == next && FramesFrom(channels, block, groups, g) == [];
      NoPlays();
    } else {
      hide FramesFrom, GroupBytes;
      BytesOfNextGroup(channels, groups, g, block, next);
      GroupIsPlain(channels, block, groups, g, rest);
      NextGroup(channels, align, p, rest, align - start);
      GroupsArePlain(channels, align, block, groups, g + 1, next);
      NextFrames(channels, block, groups, g);
    }
  }

  lemma NoPlays()
    ensures Plays([]) == []
  {
  }

  lemma HeaderIsPlain(channels: nat, block: seq<Byte>, groups: nat, next: seq<Byte>)
    requires ValidBlock(channels, block, groups)
    ensures var header := (block + next)[..4 * channels];
      && header == block[..4 * channels] && ValidHeader(header, channels)
      && HeaderPredictors(header, channels) == ChainAt(channels, block, groups, 0)
      && Values(ChainAt(channels, block, groups, 0)) == PlainFrame(channels, block, groups, 0, 0)
    ensures (block + next)[4 * channels..] == block[4 * channels + GroupBytes(channels, 0)..] + next
  {
  }

  /** A block of the stream, whole or cut short, is the block decoded on its own. */
  lemma BlockIsPlain(channels: nat, align: nat, block: seq<Byte>, groups: nat, next: seq<Byte>)
    requires ValidBlock(channels, block, groups) && |block| <= align
    ensures Start(channels, align, block + next) == Plays(PlainBlock(channels, block, groups))
      + Events(channels, align, ChainAt(channels, block, groups, groups), next, align - |block|)
  {
    hide FramesFrom, Events, ChainAt, HeaderPredictors, PlainFrame, Values, ValidHeader;
    var data := block + next;
    HeaderIsPlain(channels, block, groups, next);
    BlockBegins(channels, align, seq(channels, _ => Predictor(0, 0)), data);
    GroupsArePlain(channels, align, block, groups, 0, next);
    var first, frames := PlainFrame(channels, block, groups, 0, 0), FramesFrom(channels, block, groups, 0);
    assert Plays([first] + frames) == [Play(first)] + Plays(frames);
  }

  /** After a whole block the next one begins. */
  lemma WholeBlockIsPlain(channels: nat, block: seq<Byte>, groups: nat, next: seq<Byte>)
    requires ValidBlock(channels, block, groups)
    ensures Start(channels, |block|, block + next)
      == Plays(PlainBlock(channels, block, groups)) + Start(channels, |block|, next)
  {
    hide PlainBlock, Start, ChainAt, Plays;
    BlockIsPlain(channels, |block|, block, groups, next);
    StartIgnoresPredictors(ChainAt(channels, block, groups, groups), channels, |block|, next);
  }

  /** The frames of whole blocks, each decoded on its own. */
  function PlainFrames(channels: nat, blocks: seq<seq<Byte>>, groups: nat): (f: seq<Frame>)
    requires forall b :: 0 <= b < |blocks| ==> ValidBlock(channels, blocks[b], groups)
  {
    if blocks == [] then [] else PlainBlock(channels, blocks[0], groups) + PlainFrames(channels, blocks[1..], groups)
  }

  lemma {:induction false} PlainFramesLength(channels: nat, blocks: seq<seq<Byte>>, groups: nat)
    requires forall b :: 0 <= b < |blocks| ==> ValidBlock(channels, blocks[b], groups)
    ensures |PlainFrames(channels, blocks, groups)| == |blocks| * (8 * groups + 1)
  {
    hide PlainBlock, ValidBlock;
    var size := 8 * groups + 1;
    if blocks != [] {
      PlainFramesLength(channels, blocks[1..], groups);
      var n := |blocks| - 1;
      assert (n + 1) * size == n * size + size;
    } else {
      assert 0 * size == 0;
    }
  }

  function Joined(blocks: seq<seq<Byte>>): seq<Byte> {
    if blocks == [] then [] else blocks[0] + Joined(blocks[1..])
  }

  /** A stream of whole valid blocks brings the frames of the plain decoder, whatever follows them. */
  lemma {:induction false} StreamIsPlain(channels: nat, align: nat, blocks: seq<seq<Byte>>, groups: nat,
                                         after: seq<Byte>)
    requires 1 <= channels <= 2 && align == 4 * channels + GroupBytes(channels, groups)
    requires forall b :: 0 <= b < |blocks| ==> ValidBlock(channels, blocks[b], groups)
    ensures Start(channels, align, Joined(blocks) + after)
      == Plays(PlainFrames(channels, blocks, groups)) + Start(channels, align, after)
  {
    hide Start, PlainBlock;
    if blocks == [] {
      assert Joined(blocks) + after == after;
    } else {
      StreamIsPlain(channels, align, blocks[1..], groups, after);
      var next := Joined(blocks[1..]) + after;
      assert Joined(blocks) + after == blocks[0] + next;
      WholeBlockIsPlain(channels, blocks[0], groups, next);
    }
  }

  // ---------- A data chunk that does not end with a whole block ----------

  /** Whole groups in n bytes. */
  function GroupsIn(channels: nat, n: nat): (g: nat)
    requires 1 <= channels <= 2
    ensures GroupBytes(channels, g) <= n < GroupBytes(channels, g) + 4 * channels
    ensures GroupBytes(channels, g) == n <==> WholeGroups(channels, n)
  {
    if channels == 1 then n / 4 else n / 8
  }

  /** Less than a block at the end of the data: a valid header, if there is room for one. */
  ghost predicate ValidTail(channels: nat, groups: nat, tail: seq<Byte>) {
    && 1 <= channels <= 2 && |tail| < 4 * channels + GroupBytes(channels, groups)
    && (|tail| >= 4 * channels ==> ValidHeader(tail, channels))
  }

  /** The header and the whole groups of a tail. */
  function TailBlock(channels: nat, tail: seq<Byte>): (block: seq<Byte>)
    requires 1 <= channels <= 2 && 4 * channels <= |tail| && ValidHeader(tail, channels)
    ensures ValidBlock(channels, block, GroupsIn(channels, |tail| - 4 * channels)) && block <= tail
    ensures |tail| - |block| < 4 * channels
  {
    tail[..4 * channels + GroupBytes(channels, GroupsIn(channels, |tail| - 4 * channels))]
  }

  /** The frames of a tail: none without a full header. */
  function PlainTail(channels: nat, groups: nat, tail: seq<Byte>): (f: seq<Frame>)
    requires ValidTail(channels, groups, tail)
    ensures |f| == TailLength(channels, |tail|)
  {
    if |tail| < 4 * channels then [] else
      PlainBlock(channels, TailBlock(channels, tail), GroupsIn(channels, |tail| - 4 * channels))
  }

  function TailLength(channels: nat, n: nat): nat
    requires 1 <= channels <= 2
  {
    if n < 4 * channels then 0 else 8 * GroupsIn(channels, n - 4 * channels) + 1
  }

  /** A tail brings its own frames first, and nothing else when the stream ends with it. */
  lemma TailIsPlain(channels: nat, groups: nat, tail: seq<Byte>, after: seq<Byte>)
    requires ValidTail(channels, groups, tail)
    ensures var align := 4 * channels + GroupBytes(channels, groups);
      && Plays(PlainTail(channels, groups, tail)) <= Start(channels, align, tail + after)
      && (after == [] ==> Plays(PlainTail(channels, groups, tail)) == Start(channels, align, tail + after))
  {
    hide PlainBlock, ChainAt, GroupBytes, ValidHeader;
    var align := 4 * channels + GroupBytes(channels, groups);
    if |tail| < 4 * channels {
      assert after == [] ==> tail + after == tail;
      NoPlays();
    } else {
      hide Start, ValidBlock, Events;
      var g, block := GroupsIn(channels, |tail| - 4 * channels), TailBlock(channels, tail);
      var next := tail[|block|..] + after;
      assert tail + after == block + next;
      BlockIsPlain(channels, align, block, g, next);
      CutShort(channels, align, ChainAt(channels, block, g, g), next, align - |block|);
    }
  }

  /** Too few bytes for a group bring nothing. */
  lemma CutShort(channels: nat, align: nat, p: seq<Predictor>, rest: seq<Byte>, left: nat)
    requires 1 <= channels <= 2 && 4 * channels <= align && |p| == channels && AllSane(p)
    ensures |rest| < 4 * channels ==> Events(channels, align, p, rest, left) == []
  {
  }

  // ---------- The frame count ----------

  const TWO64: nat := 0x1_0000_0000_0000_0000

  /** The largest data chunk whose double is no 65-bit number. */
  const MAX_DATA: nat := 0x7fff_ffff_ffff_ffff

  /** Arithmetic of 64 bits. */
  function Wrap64(x: int): (r: nat)
    ensures r < TWO64
  {
    x % TWO64
  }

  lemma WrapAround(x: int)
    ensures 0 <= x < TWO64 ==> Wrap64(x) == x
    ensures x < 0 <= x + TWO64 ==> Wrap64(x) == x + TWO64
    ensures TWO64 <= x < 2 * TWO64 ==> Wrap64(x) == x - TWO64
  {
  }

  /** The frame count that opening a file computes from the size of the data chunk. */
  function TotalFrames(dataChunkSize: nat, blockAlign: nat, channels: nat): nat
    requires blockAlign > 0 && channels > 0
  {
    var blockCount := dataChunkSize / blockAlign;
    var blockCount := if blockCount * blockAlign < dataChunkSize then blockCount + 1 else blockCount;
    FramesWithHeaders(dataChunkSize, blockCount, channels)
  }

  /** The same, once the headers have been counted. */
  function FramesWithHeaders(dataChunkSize: nat, blockCount: nat, channels: nat): nat
    requires channels > 0
  {
    var totalBlockHeaderSizeInBytes := Wrap64(blockCount * (4 * channels));
    Wrap64(Wrap64(Wrap64(dataChunkSize - totalBlockHeaderSizeInBytes) * 2) / channels + blockCount)
  }

  /** The count without wrap-around, and with it when there are fewer bytes than headers. */
  lemma CountMono(dataChunkSize: nat, blockCount: nat)
    requires dataChunkSize <= MAX_DATA && blockCount * 4 <= dataChunkSize + 4
    ensures var count, payload := FramesWithHeaders(dataChunkSize, blockCount, 1), dataChunkSize - blockCount * 4;
      || (payload >= 0 && count == 2 * payload + blockCount)
      || (payload < 0 && (count == 2 * payload + blockCount + TWO64 || count == 2 * payload + blockCount))
  {
    hide Wrap64;
    var payload := dataChunkSize - blockCount * 4;
    WrapAround(blockCount * 4);
    WrapAround(payload);
    WrapAround(if payload < 0 then (payload + TWO64) * 2 - TWO64 else payload * 2);
    WrapAround(Wrap64(payload) * 2);
    WrapAround(Wrap64(Wrap64(payload) * 2) + blockCount);
  }

  lemma CountStereo(dataChunkSize: nat, blockCount: nat)
    requires dataChunkSize <= MAX_DATA && blockCount * 8 <= dataChunkSize + 8
    ensures var count, payload := FramesWithHeaders(dataChunkSize, blockCount, 2), dataChunkSize - blockCount * 8;
      count == payload + blockCount + if payload < 0 then TWO64 / 2 else 0
  {
    hide Wrap64;
    var payload := dataChunkSize - blockCount * 8;
    WrapAround(blockCount * 8);
    WrapAround(payload);
    WrapAround(Wrap64(payload) * 2);
    WrapAround(Wrap64(Wrap64(payload) * 2) / 2 + blockCount);
  }

  /** When the count is right for blockCount whole blocks and rest more bytes. */
  predicate TailCounted(channels: nat, groups: nat, blockCount: nat, rest: nat)
    requires 1 <= channels <= 2
  {
    || rest == 0
    || (rest >= 4 * channels && WholeGroups(channels, rest - 4 * channels))
    || (channels == 2 && rest == 7 && blockCount > 0 && groups > 0)
  }

  /** Blocks and their headers: a partial block counts as one. */
  lemma BlocksOf(blockCount: nat, channels: nat, align: nat, rest: nat)
    requires channels > 0 && rest < align
    ensures TotalFrames(blockCount * align + rest, align, channels)
      == FramesWithHeaders(blockCount * align + rest, if rest > 0 then blockCount + 1 else blockCount, channels)
  {
    hide FramesWithHeaders;
    DivModUnique(blockCount * align + rest, align, blockCount, rest);
  }

  /** The bytes of the blocks: headers, and half a byte a sample. */
  lemma PayloadFrames(blockCount: nat, channels: nat, groups: nat, align: nat)
    requires 1 <= channels <= 2 && align == 4 * channels + GroupBytes(channels, groups)
    ensures var frames := blockCount * (8 * groups + 1) - blockCount;
      && frames >= 0 && (frames > 0 <==> blockCount > 0 && groups > 0) && (frames == 0 || frames >= 8)
      && 2 * (blockCount * align) == 8 * channels * blockCount + channels * frames
  {
    Distribute(blockCount, 8 * groups, 1);
    if channels == 1 {
      assert 2 * (blockCount * align) == blockCount * (8 + 8 * groups) by {
        MulShuffle(2, blockCount, align);
      }
      Distribute(blockCount, 8, 8 * groups);
    } else {
      Distribute(blockCount, 8, 8 * groups);
    }
    if blockCount > 0 && groups > 0 {
      MulMonotone(1, blockCount, 8 * groups);
    }
  }

  /** Mono: two frames a byte. */
  lemma MonoCounted(dataChunkSize: nat, blockCount: nat, frames: nat, rest: nat)
    requires 2 * (dataChunkSize - rest) == 8 * blockCount + frames && (frames == 0 || frames >= 8)
    requires dataChunkSize <= MAX_DATA && rest <= dataChunkSize
    ensures FramesWithHeaders(dataChunkSize, if rest > 0 then blockCount + 1 else blockCount, 1)
        == frames + blockCount + TailLength(1, rest)
      <==> (rest == 0 || (rest >= 4 && WholeGroups(1, rest - 4)))
  {
    hide FramesWithHeaders;
    CountMono(dataChunkSize, if rest > 0 then blockCount + 1 else blockCount);
  }

  /** Stereo: one frame a byte. */
  lemma StereoCounted(dataChunkSize: nat, blockCount: nat, frames: nat, rest: nat)
    requires dataChunkSize - rest == 8 * blockCount + frames && (frames == 0 || frames >= 8)
    requires dataChunkSize <= MAX_DATA && rest <= dataChunkSize
    ensures FramesWithHeaders(dataChunkSize, if rest > 0 then blockCount + 1 else blockCount, 2)
        == frames + blockCount + TailLength(2, rest)
      <==> (rest == 0 || (rest >= 8 && WholeGroups(2, rest - 8)) || (rest == 7 && frames > 0))
  {
    hide FramesWithHeaders;
    CountStereo(dataChunkSize, if rest > 0 then blockCount + 1 else blockCount);
  }

  /** For whole blocks and rest more bytes, the count is what they yield if and only if the rest is nothing, a header
      and whole groups, or seven bytes after stereo blocks that have groups. */
  lemma TotalIsWhatBytesYield(blockCount: nat, channels: nat, groups: nat, align: nat, rest: nat)
    requires 1 <= channels <= 2 && align == 4 * channels + GroupBytes(channels, groups) && rest < align
    requires blockCount * align + rest <= MAX_DATA
    ensures TotalFrames(blockCount * align + rest, align, channels)
        == blockCount * (8 * groups + 1) + TailLength(channels, rest)
      <==> TailCounted(channels, groups, blockCount, rest)
  {
    hide TotalFrames, FramesWithHeaders, TailLength, GroupBytes, WholeGroups;
    BlocksOf(blockCount, channels, align, rest);
    PayloadFrames(blockCount, channels, groups, align);
    var size, frames := blockCount * align, blockCount * (8 * groups + 1) - blockCount;
    if channels == 1 {
      MonoCounted(size + rest, blockCount, frames, rest);
    } else {
      StereoCounted(size + rest, blockCount, frames, rest);
    }
  }

  /** For whole blocks the count is what the blocks yield. */
  lemma TotalIsWhatBlocksYield(blockCount: nat, channels: nat, groups: nat, align: nat)
    requires 1 <= channels <= 2 && align == 4 * channels + GroupBytes(channels, groups)
    requires blockCount * align <= MAX_DATA
    ensures TotalFrames(blockCount * align, align, channels) == blockCount * (8 * groups + 1)
  {
    hide TotalFrames, GroupBytes;
    TotalIsWhatBytesYield(blockCount, channels, groups, align, 0);
  }

  /** One mono block of 65 frames and a stray byte are taken for 60 frames, and a stray byte alone for 2^64 - 5. */
  lemma StrayByteMiscounted()
    ensures TotalFrames(36, 36, 1) == 65 && TotalFrames(37, 36, 1) == 60 && TotalFrames(1, 36, 1) == TWO64 - 5
    ensures TailLength(1, 1) == 0
  {
    hide FramesWithHeaders;
    CountMono(36, 1);
    CountMono(37, 2);
    CountMono(1, 1);
  }

  /** The frames of blocks and a tail are at the front of what a new decoder brings. */
  lemma DataIsPlain(channels: nat, blocks: seq<seq<Byte>>, groups: nat, align: nat, tail: seq<Byte>, after: seq<Byte>)
    requires forall b :: 0 <= b < |blocks| ==> ValidBlock(channels, blocks[b], groups)
    requires ValidTail(channels, groups, tail) && align == 4 * channels + GroupBytes(channels, groups)
    ensures Plays(PlainFrames(channels, blocks, groups) + PlainTail(channels, groups, tail))
      <= Start(channels, align, Joined(blocks) + tail + after)
  {
    hide Start, GroupBytes, ValidBlock, Joined, PlainFrames, PlainTail, Plays, ValidHeader;
    StreamIsPlain(channels, align, blocks, groups, tail + after);
    TailIsPlain(channels, groups, tail, after);
    assert Joined(blocks) + tail + after == Joined(blocks) + (tail + after);
    PlaysAppend(PlainFrames(channels, blocks, groups), PlainTail(channels, groups, tail));
  }

  lemma PlaysAppend(a: seq<Frame>, b: seq<Frame>)
    ensures Plays(a + b) == Plays(a) + Plays(b)
  {
  }

  lemma LengthIsCounted(channels: nat, blocks: seq<seq<Byte>>, groups: nat, align: nat, tail: seq<Byte>)
    requires forall b :: 0 <= b < |blocks| ==> ValidBlock(channels, blocks[b], groups)
    requires ValidTail(channels, groups, tail) && align == 4 * channels + GroupBytes(channels, groups)
    requires |blocks| * align + |tail| <= MAX_DATA
    ensures |PlainFrames(channels, blocks, groups) + PlainTail(channels, groups, tail)|
        == TotalFrames(|blocks| * align + |tail|, align, channels)
      <==> TailCounted(channels, groups, |blocks|, |tail|)
  {
    hide TotalFrames, GroupBytes, ValidBlock, PlainFrames, PlainTail, TailCounted, ValidHeader, TailLength;
    PlainFramesLength(channels, blocks, groups);
    TotalIsWhatBytesYield(|blocks|, channels, groups, align, |tail|);
  }

  lemma SoundIsLength(wav: Wav, frames: seq<Frame>)
    requires 1 <= wav.channels <= 2 && 4 * wav.channels <= wav.blockAlign
    requires Plays(frames) <= Start(wav.channels, wav.blockAlign, wav.data)
    ensures wav.Sound(frames) <==> |frames| == wav.totalPCMFrameCount
  {
  }

  /** A decoder opened on valid blocks and a tail, whatever follows them: its sound is what the plain decoder makes of
      them if and only if the tail is counted. */
  lemma DataIsSound(wav: Wav, blocks: seq<seq<Byte>>, groups: nat, tail: seq<Byte>, after: seq<Byte>)
    requires 1 <= wav.channels <= 2 && wav.blockAlign == 4 * wav.channels + GroupBytes(wav.channels, groups)
    requires forall b :: 0 <= b < |blocks| ==> ValidBlock(wav.channels, blocks[b], groups)
    requires ValidTail(wav.channels, groups, tail) && wav.data == Joined(blocks) + tail + after
    requires |blocks| * wav.blockAlign + |tail| <= MAX_DATA
    requires wav.totalPCMFrameCount == TotalFrames(|blocks| * wav.blockAlign + |tail|, wav.blockAlign, wav.channels)
    ensures wav.Sound(PlainFrames(wav.channels, blocks, groups) + PlainTail(wav.channels, groups, tail))
      <==> TailCounted(wav.channels, groups, |blocks|, |tail|)
  {
    hide Start, Plays, TotalFrames, GroupBytes, ValidBlock, Joined, PlainFrames, PlainTail, TailCounted, ValidHeader;
    hide wav.Sound;
    DataIsPlain(wav.channels, blocks, groups, wav.blockAlign, tail, after);
    LengthIsCounted(wav.channels, blocks, groups, wav.blockAlign, tail);
    SoundIsLength(wav, PlainFrames(wav.channels, blocks, groups) + PlainTail(wav.channels, groups, tail));
  }

  /** Whole valid blocks: the sound is what the plain decoder makes of them. */
  lemma WholeBlocksAreSound(wav: Wav, blocks: seq<seq<Byte>>, groups: nat, after: seq<Byte>)
    requires 1 <= wav.channels <= 2 && wav.blockAlign == 4 * wav.channels + GroupBytes(wav.channels, groups)
    requires forall b :: 0 <= b < |blocks| ==> ValidBlock(wav.channels, blocks[b], groups)
    requires wav.data == Joined(blocks) + after && |blocks| * wav.blockAlign <= MAX_DATA
    requires wav.totalPCMFrameCount == TotalFrames(|blocks| * wav.blockAlign, wav.blockAlign, wav.channels)
    ensures wav.Sound(PlainFrames(wav.channels, blocks, groups))
  {
    hide Start, Plays, TotalFrames, GroupBytes, ValidBlock, Joined, PlainFrames;
    StreamIsPlain(wav.channels, wav.blockAlign, blocks, groups, after);
    TotalIsWhatBlocksYield(|blocks|, wav.channels, groups, wav.blockAlign);
    PlainFramesLength(wav.channels, blocks, groups);
  }
}
