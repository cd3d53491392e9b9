/** RIFF files of dr_wav: the memory writer with its back-patched sizes and the parser that undoes it. */
module RiffWav {
  import opened Common
  import opened PowersOfTwo

  // ---------- Little-endian numbers and tags ----------

  function U16(n: nat): (b: seq<Byte>)
    ensures |b| == 2
  {
    [n % 256, n / 256 % 256]
  }

  function U32(n: nat): (b: seq<Byte>)
    ensures |b| == 4
  {
    U16(n % 65536) + U16(n / 65536)
  }

  function FromU16(b: seq<Byte>): (n: nat)
    requires |b| == 2
    ensures n < 65536
  {
    (b[0] as int) + 256 * (b[1] as int)
  }

  function FromU32(b: seq<Byte>): (n: nat)
    requires |b| == 4
    ensures n < 0x1_0000_0000
  {
    FromU16(b[..2]) + 65536 * FromU16(b[2..])
  }

  lemma NumbersComeBack(n: nat)
    ensures n < 65536 ==> FromU16(U16(n)) == n
    ensures n < 0x1_0000_0000 ==> FromU32(U32(n)) == n
  {
    assert U32(n)[..2] == U16(n % 65536) && U32(n)[2..] == U16(n / 65536);
  }

  function Riff(): (t: seq<Byte>) ensures |t| == 4 { [0x52, 0x49, 0x46, 0x46] }

  function Wave(): (t: seq<Byte>) ensures |t| == 4 { [0x57, 0x41, 0x56, 0x45] }

  function FmtTag(): (t: seq<Byte>) ensures |t| == 4 { [0x66, 0x6d, 0x74, 0x20] }

  function DataTag(): (t: seq<Byte>) ensures |t| == 4 { [0x64, 0x61, 0x74, 0x61] }

  function FactTag(): (t: seq<Byte>) ensures |t| == 4 { [0x66, 0x61, 0x63, 0x74] }

  const MAX_SIZE: nat := 0xFFFF_FFFF

  // ---------- The growable memory file ----------

  /** s with t in place from p on, longer if t reaches past the end. */
  function Overlay(s: seq<Byte>, p: nat, t: seq<Byte>): (r: seq<Byte>)
    requires p <= |s|
    ensures |r| == if p + |t| <= |s| then |s| else p + |t|
  {
    if p + |t| <= |s| then s[..p] + t + s[p + |t|..] else s[..p] + t
  }

  lemma Overlaid(s: seq<Byte>, p: nat, t: seq<Byte>, data: seq<Byte>, now: seq<Byte>)
    requires p <= |s| <= |data| && p + |t| <= |data|
    requires |now| == (if p + |t| <= |s| then |s| else p + |t|) && now == data[..|now|]
    requires forall i :: 0 <= i < |data| ==>
      if p <= i < p + |t| then data[i] == t[i - p] else i < |s| ==> data[i] == s[i]
    ensures now == Overlay(s, p, t)
  {
    var o := Overlay(s, p, t);
    forall i | 0 <= i < |now|
      ensures now[i] == o[i]
    {
      assert now[i] == data[i];
    }
  }

  class MemoryFile {
    var data: array<Byte>
    var dataSize: nat
    var currentWritePos: nat

    ghost predicate Valid()
      reads this
    {
      currentWritePos <= dataSize <= data.Length
    }

    ghost function Contents(): seq<Byte>
      requires Valid()
      reads this, data
    {
      data[..dataSize]
    }

    constructor ()
      ensures Valid() && Contents() == [] && currentWritePos == 0 && fresh(data)
    {
      data := new Byte[0];
      dataSize, currentWritePos := 0, 0;
    }

    /** drwav__on_write_memory, where reallocation succeeds */
    method Write(bytes: seq<Byte>)
      requires Valid()
      modifies this, data
      ensures Valid() && currentWritePos == old(currentWritePos) + |bytes| && (data == old(data) || fresh(data))
      ensures Contents() == Overlay(old(Contents()), old(currentWritePos), bytes)
    {
      MakeRoom(|bytes|);
      Store(bytes);
      currentWritePos := currentWritePos + |bytes|;
      if dataSize < currentWritePos {
        dataSize := currentWritePos;
      }
      Overlaid(old(Contents()), old(currentWritePos), bytes, data[..], Contents());
    }

    /** Doubles the capacity, or takes exactly what is needed where that is not enough. */
    method MakeRoom(n: nat)
      requires Valid()
      modifies this`data
      ensures Valid() && currentWritePos + n <= data.Length && (data == old(data) || fresh(data))
      ensures Contents() == old(Contents())
    {
      var bytesRemaining := data.Length - currentWritePos;
      if bytesRemaining < n {
        var newDataCapacity := if data.Length == 0 then 256 else data.Length * 2;
        if newDataCapacity - currentWritePos < n {
          newDataCapacity := currentWritePos + n;
        }
        Reallocate(newDataCapacity);
      }
    }

    method Store(bytes: seq<Byte>)
      requires Valid() && currentWritePos + |bytes| <= data.Length
      modifies data
      ensures forall i :: 0 <= i < data.Length ==>
        data[i] == if currentWritePos <= i < currentWritePos + |bytes| then bytes[i - currentWritePos] else old(data[i])
    {
      forall i | currentWritePos <= i < currentWritePos + |bytes| {
        data[i] := bytes[i - currentWritePos];
      }
    }

    method Reallocate(capacity: nat)
      requires Valid() && capacity >= data.Length
      modifies this`data
      ensures Valid() && data.Length == capacity && fresh(data) && Contents() == old(Contents())
    {
      var next := new Byte[capacity](_ => 0);
      forall i | 0 <= i < data.Length {
        next[i] := data[i];
      }
      data := next;
    }

    /** The buffer that the caller owns in the end. */
    method Bytes() returns (bytes: seq<Byte>)
      requires Valid()
      ensures bytes == Contents()
    {
      bytes := data[..dataSize];
    }

    /** drwav__on_seek_memory_write from the start */
    method SeekFromStart(offset: nat)
      requires Valid()
      modifies this`currentWritePos
      ensures Valid() && currentWritePos == if offset <= dataSize then offset else dataSize
    {
      if offset <= dataSize {
        currentWritePos := offset;
      } else {
        currentWritePos := dataSize;
      }
    }
  }

  // ---------- Formats and file images ----------

  /** drwav_data_format, for the RIFF container */
  datatype DataFormat = DataFormat(format: nat, channels: nat, sampleRate: nat, bitsPerSample: nat)

  /** drwav_fmt, as far as the first 16 bytes of the chunk go */
  datatype Fmt = Fmt(formatTag: nat, channels: nat, sampleRate: nat, avgBytesPerSec: nat, blockAlign: nat,
                     bitsPerSample: nat)

  const ADPCM: nat := 0x2
  const ALAW: nat := 0x6
  const MULAW: nat := 0x7
  const DVI_ADPCM: nat := 0x11
  const EXTENSIBLE: nat := 0xFFFE

  predicate Unsigned32(f: DataFormat) {
    f.format < 0x1_0000_0000 && f.channels < 0x1_0000_0000 && f.sampleRate < 0x1_0000_0000
      && f.bitsPerSample < 0x1_0000_0000
  }

  /** Eighths of a 32-bit product. */
  function Eighths(product: nat): (e: nat)
    ensures e < 0x1_0000_0000
  {
    product % 0x1_0000_0000 / 8
  }

  /** The fields that drwav_preinit_write derives, with its 32-bit products and 16-bit casts. */
  function FmtOf(f: DataFormat): Fmt {
    Fmt(f.format % 65536, f.channels % 65536, f.sampleRate,
        Eighths(f.bitsPerSample * f.sampleRate * f.channels), Eighths(f.channels * f.bitsPerSample) % 65536,
        f.bitsPerSample % 65536)
  }

  /** Every field fits its place in the file. */
  predicate Fits(fmt: Fmt) {
    && fmt.formatTag < 65536 && fmt.channels < 65536 && fmt.sampleRate < 0x1_0000_0000
    && fmt.avgBytesPerSec < 0x1_0000_0000 && fmt.blockAlign < 65536 && fmt.bitsPerSample < 65536
  }

  function FmtBytes(fmt: Fmt): (b: seq<Byte>)
    ensures |b| == 16
  {
    U16(fmt.formatTag) + U16(fmt.channels) + U32(fmt.sampleRate) + U32(fmt.avgBytesPerSec) + U16(fmt.blockAlign)
    + U16(fmt.bitsPerSample)
  }

  /** The 44 bytes before the samples. */
  function Header(fmt: Fmt, riffSize: nat, dataSize: nat): (b: seq<Byte>)
    ensures |b| == 44
  {
    Riff() + U32(riffSize) + Middle(fmt) + U32(dataSize)
  }

  /** The bytes between the two sizes. */
  function Middle(fmt: Fmt): (b: seq<Byte>)
    ensures |b| == 32
  {
    Wave() + FmtTag() + U32(16) + FmtBytes(fmt) + DataTag()
  }

  /** drwav__chunk_padding_size_riff */
  function PaddingSize(n: nat): (p: nat)
    ensures p <= 1
  {
    n % 2
  }

  /** drwav__riff_chunk_size_riff, without metadata */
  function RiffChunkSize(n: nat): nat {
    var chunkSize := 4 + 24 + 8 + n + PaddingSize(n);
    if chunkSize > MAX_SIZE then MAX_SIZE else chunkSize
  }

  /** drwav__data_chunk_size_riff */
  function DataChunkSize(n: nat): nat {
    if n <= MAX_SIZE then n else MAX_SIZE
  }

  function Padding(n: nat): (p: seq<Byte>)
    ensures |p| == PaddingSize(n)
  {
    if PaddingSize(n) > 0 then [0] else []
  }

  /** A finished file. */
  function Image(fmt: Fmt, riffSize: nat, dataSize: nat, payload: seq<Byte>): seq<Byte> {
    Header(fmt, riffSize, dataSize) + payload + Padding(|payload|)
  }

  lemma OverlayAtEnd(s: seq<Byte>, t: seq<Byte>)
    ensures Overlay(s, |s|, t) == s + t
  {
    assert s + t == s[..|s|] + t;
  }

  /** Patching the two sizes changes nothing else. */
  lemma PatchRiffSize(fmt: Fmt, r: nat, d: nat, rest: seq<Byte>, n: nat)
    ensures Overlay(Header(fmt, r, d) + rest, 4, U32(n)) == Header(fmt, n, d) + rest
  {
    hide U32, Middle;
    var tail := Middle(fmt) + U32(d) + rest;
    var s := Header(fmt, r, d) + rest;
    assert s == Riff() + U32(r) + tail;
    assert s[..4] == Riff() && s[8..] == tail;
    assert Header(fmt, n, d) + rest == Riff() + U32(n) + tail;
  }

  lemma PatchDataSize(fmt: Fmt, r: nat, d: nat, rest: seq<Byte>, n: nat)
    ensures Overlay(Header(fmt, r, d) + rest, 40, U32(n)) == Header(fmt, r, n) + rest
  {
    hide U32, Middle;
    var front := Riff() + U32(r) + Middle(fmt);
    var s := Header(fmt, r, d) + rest;
    assert s == front + U32(d) + rest;
    assert s[..40] == front && s[44..] == rest;
  }

  lemma HeaderIs(fmt: Fmt, r: nat, d: nat)
    ensures [] + Riff() + U32(r) + Middle(fmt) + U32(d) == Header(fmt, r, d)
  {
  }

  lemma MiddleIs(c: seq<Byte>, fmt: Fmt)
    ensures c + Wave() + FmtTag() + U32(16) + FmtBytes(fmt) + DataTag() == c + Middle(fmt)
  {
  }

  lemma FmtBytesAre(c: seq<Byte>, fmt: Fmt)
    ensures c + U16(fmt.formatTag) + U16(fmt.channels) + U32(fmt.sampleRate) + U32(fmt.avgBytesPerSec)
      + U16(fmt.blockAlign) + U16(fmt.bitsPerSample) == c + FmtBytes(fmt)
  {
  }

  /** Bytes that frames frames take up. */
  function BytesFor(frames: nat, channels: nat, bitsPerSample: nat): nat {
    frames * channels * bitsPerSample / 8
  }

  /** Bytes that a number of samples take up. */
  function SampleBytes(count: nat, bitsPerSample: nat): nat {
    count * bitsPerSample / 8
  }

  /** The frame count that the writer returns for a number of bytes. */
  function FramesIn(bytes: nat, channels: nat, bitsPerSample: nat): nat
    requires channels > 0 && bitsPerSample > 0
  {
    FramesInBounds(bytes, channels, bitsPerSample);
    bytes * 8 / bitsPerSample / channels
  }

  lemma FramesInBounds(bytes: nat, channels: nat, bitsPerSample: nat)
    requires channels > 0 && bitsPerSample > 0
    ensures bytes * 8 / bitsPerSample / channels >= 0
  {
    NotNegative(bytes * 8, bitsPerSample);
    NotNegative(bytes * 8 / bitsPerSample, channels);
  }

  lemma NotNegative(n: nat, d: nat)
    requires d > 0
    ensures n / d >= 0
  {
    var q, r := n / d, n % d;
    assert n == d * q + r;
    if q < 0 {
      MulMonotone(q, -1, d);
    }
  }

  // ---------- The writer ----------

  class Writer {
    const file: MemoryFile
    var fmt: Fmt
    var channels: nat
    var bitsPerSample: nat
    var dataChunkDataPos: nat
    var dataChunkDataSize: nat
    var dataChunkDataSizeTargetWrite: nat
    var isSequentialWrite: bool
    /** The sample bytes written so far. */
    ghost var written: seq<Byte>

    /** Between init and uninit: a header with provisional sizes, then the samples. */
    ghost predicate Writing()
      reads this, file, file.data
    {
      && file.Valid() && file.currentWritePos == file.dataSize
      && file.Contents() == Header(fmt, 28 + dataChunkDataSizeTargetWrite, dataChunkDataSizeTargetWrite) + written
      && dataChunkDataPos == 44 && dataChunkDataSize == |written|
      && 0 < channels < 65536 && 0 < bitsPerSample < 65536
      && (!isSequentialWrite ==> dataChunkDataSizeTargetWrite == 0)
    }

    constructor ()
      ensures file.Valid() && file.Contents() == [] && file.currentWritePos == 0 && fresh(file) && fresh(file.data)
    {
      file := new MemoryFile();
      fmt := Fmt(0, 0, 0, 0, 0, 0);
      channels, bitsPerSample, dataChunkDataPos, dataChunkDataSize, dataChunkDataSizeTargetWrite := 0, 0, 0, 0, 0;
      isSequentialWrite, written := false, [];
    }

    /** drwav__write at the end of the file */
    method Append(bytes: seq<Byte>)
      requires file.Valid() && file.currentWritePos == file.dataSize
      modifies file, file.data
      ensures file.Valid() && file.currentWritePos == file.dataSize && (file.data == old(file.data) || fresh(file.data))
      ensures file.Contents() == old(file.Contents()) + bytes
    {
      OverlayAtEnd(file.Contents(), bytes);
      file.Write(bytes);
    }

    /** drwav_init_memory_write and its sequential variant: refuses formats that need a longer chunk or block headers,
        and a sequential file that is announced as too large. */
    method InitMemoryWrite(f: DataFormat, totalSampleCount: nat, isSequential: bool) returns (ok: bool)
      requires Unsigned32(f) && 0 < f.channels < 65536 && 0 < f.bitsPerSample < 65536
      requires file.Valid() && file.Contents() == [] && file.currentWritePos == 0
      modifies this, file, file.data
      ensures ok <==>
        && f.format !in {EXTENSIBLE, ADPCM, DVI_ADPCM}
        && (isSequential ==> SampleBytes(totalSampleCount, f.bitsPerSample) <= MAX_SIZE - 36)
      ensures ok ==> Writing() && written == [] && fmt == FmtOf(f) && isSequentialWrite == isSequential
      ensures ok ==> channels == f.channels && bitsPerSample == f.bitsPerSample
      ensures ok && isSequential ==> dataChunkDataSizeTargetWrite == SampleBytes(totalSampleCount, f.bitsPerSample)
      ensures file.data == old(file.data) || fresh(file.data)
    {
      hide Header, FmtOf, SampleBytes;
      if f.format == EXTENSIBLE || f.format == ADPCM || f.format == DVI_ADPCM {
        return false;
      }
      fmt := FmtOf(f);
      isSequentialWrite := isSequential;
      var initialDataChunkSize := 0;
      if isSequential {
        initialDataChunkSize := SampleBytes(totalSampleCount, f.bitsPerSample);
        if initialDataChunkSize > MAX_SIZE - 36 {
          return false;
        }
      }
      dataChunkDataSizeTargetWrite, dataChunkDataSize, written := initialDataChunkSize, 0, [];
      WriteHeader(initialDataChunkSize);
      channels, bitsPerSample := f.channels, f.bitsPerSample;
      dataChunkDataPos := 44;
      return true;
    }

    /** All chunk headers, in the order of drwav_init_write__internal. */
    method WriteHeader(initialDataChunkSize: nat)
      requires file.Valid() && file.Contents() == [] && file.currentWritePos == file.dataSize
      modifies file, file.data
      ensures file.Valid() && file.currentWritePos == file.dataSize && (file.data == old(file.data) || fresh(file.data))
      ensures file.Contents() == Header(fmt, 28 + initialDataChunkSize, initialDataChunkSize)
    {
      hide U16, U32, Riff, Wave, FmtTag, DataTag, MemoryFile.Valid, MemoryFile.Contents, FmtBytes, Header, Middle;
      Append(Riff());
      Append(U32(28 + initialDataChunkSize));
      WriteMiddle();
      Append(U32(initialDataChunkSize));
      HeaderIs(fmt, 28 + initialDataChunkSize, initialDataChunkSize);
    }

    method WriteMiddle()
      requires file.Valid() && file.currentWritePos == file.dataSize
      modifies file, file.data
      ensures file.Valid() && file.currentWritePos == file.dataSize && (file.data == old(file.data) || fresh(file.data))
      ensures file.Contents() == old(file.Contents()) + Middle(fmt)
    {
      hide U16, U32, Wave, FmtTag, DataTag, MemoryFile.Valid, MemoryFile.Contents, FmtBytes, Middle;
      ghost var c := file.Contents();
      Append(Wave());
      Append(FmtTag());
      Append(U32(16));
      WriteFmt();
      Append(DataTag());
      MiddleIs(c, fmt);
    }

    method WriteFmt()
      requires file.Valid() && file.currentWritePos == file.dataSize
      modifies file, file.data
      ensures file.Valid() && file.currentWritePos == file.dataSize && (file.data == old(file.data) || fresh(file.data))
      ensures file.Contents() == old(file.Contents()) + FmtBytes(fmt)
    {
      hide U16, U32, MemoryFile.Valid, MemoryFile.Contents, FmtBytes;
      ghost var c := file.Contents();
      Append(U16(fmt.formatTag));
      Append(U16(fmt.channels));
      Append(U32(fmt.sampleRate));
      Append(U32(fmt.avgBytesPerSec));
      Append(U16(fmt.blockAlign));
      Append(U16(fmt.bitsPerSample));
      FmtBytesAre(c, fmt);
    }

    /** drwav_write_raw */
    method WriteRaw(bytes: seq<Byte>) returns (bytesWritten: nat)
      requires Writing()
      modifies this`dataChunkDataSize, this`written, file, file.data
      ensures Writing() && bytesWritten == |bytes| && written == old(written) + bytes
      ensures file.data == old(file.data) || fresh(file.data)
    {
      if bytes == [] {
        return 0;
      }
      hide Header;
      Append(bytes);
      bytesWritten := |bytes|;
      dataChunkDataSize := dataChunkDataSize + bytesWritten;
      written := written + bytes;
    }

    /** drwav_write_pcm_frames_le */
    method WritePcmFrames(framesToWrite: nat, data: seq<Byte>) returns (framesWritten: nat)
      requires Writing() && BytesFor(framesToWrite, channels, bitsPerSample) <= |data|
      modifies this`dataChunkDataSize, this`written, file, file.data
      ensures Writing() && written == old(written) + data[..BytesFor(framesToWrite, channels, bitsPerSample)]
      ensures framesWritten == FramesIn(BytesFor(framesToWrite, channels, bitsPerSample), channels, bitsPerSample)
      ensures file.data == old(file.data) || fresh(file.data)
    {
      hide BytesFor, FramesIn;
      var total := BytesFor(framesToWrite, channels, bitsPerSample);
      var bytesWritten := WriteBytes(total, data);
      framesWritten := FramesIn(bytesWritten, channels, bitsPerSample);
    }

    /** The loop of drwav_write_pcm_frames_le. */
    method WriteBytes(total: nat, data: seq<Byte>) returns (bytesWritten: nat)
      requires Writing() && total <= |data|
      modifies this`dataChunkDataSize, this`written, file, file.data
      ensures Writing() && written == old(written) + data[..total] && bytesWritten == total
      ensures file.data == old(file.data) || fresh(file.data)
    {
      hide Writing;
      var bytesToWrite, pRunningData := total, 0;
      bytesWritten := 0;
      while bytesToWrite > 0
        invariant 0 <= bytesToWrite && pRunningData + bytesToWrite == total && bytesWritten == pRunningData
        invariant Writing() && written == old(written) + data[..pRunningData]
        invariant file.data == old(file.data) || fresh(file.data)
      {
        var bytesJustWritten := WriteRaw(data[pRunningData..pRunningData + bytesToWrite]);
        if bytesJustWritten == 0 {
          break;
        }
        assert data[..pRunningData + bytesJustWritten]
          == data[..pRunningData] + data[pRunningData..pRunningData + bytesToWrite];
        bytesToWrite := bytesToWrite - bytesJustWritten;
        bytesWritten := bytesWritten + bytesJustWritten;
        pRunningData := pRunningData + bytesJustWritten;
      }
    }

    /** drwav_uninit in write mode: padding, then the sizes of the RIFF and data chunks unless they were known. */
    method Uninit() returns (valid: bool)
      requires Writing()
      modifies file, file.data
      ensures file.Valid()
      ensures file.Contents() ==
        if isSequentialWrite then Image(fmt, 28 + dataChunkDataSizeTargetWrite, dataChunkDataSizeTargetWrite, written)
        else Image(fmt, RiffChunkSize(|written|), DataChunkSize(|written|), written)
      ensures valid <==> !isSequentialWrite || |written| == dataChunkDataSizeTargetWrite
    {
      hide Header, U32, Overlay, RiffChunkSize, DataChunkSize;
      ghost var rest := written + Padding(|written|);
      var paddingSize := PaddingSize(dataChunkDataSize);
      if paddingSize > 0 {
        Append([0]);
      }
      Regroup(fmt, 28 + dataChunkDataSizeTargetWrite, dataChunkDataSizeTargetWrite, written);
      if !isSequentialWrite {
        Patch(4, U32(RiffChunkSize(dataChunkDataSize)));
        PatchRiffSize(fmt, 28, 0, rest, RiffChunkSize(|written|));
        Patch(dataChunkDataPos - 4, U32(DataChunkSize(dataChunkDataSize)));
        PatchDataSize(fmt, RiffChunkSize(|written|), 0, rest, DataChunkSize(|written|));
        Regroup(fmt, RiffChunkSize(|written|), DataChunkSize(|written|), written);
      }
      valid := !isSequentialWrite || dataChunkDataSize == dataChunkDataSizeTargetWrite;
    }

    /** A seek back and a write. */
    method Patch(pos: nat, bytes: seq<Byte>)
      requires file.Valid() && pos <= file.dataSize
      modifies file, file.data
      ensures file.Valid() && (file.data == old(file.data) || fresh(file.data))
      ensures file.Contents() == Overlay(old(file.Contents()), pos, bytes)
    {
      file.SeekFromStart(pos);
      file.Write(bytes);
    }
  }

  lemma Regroup(fmt: Fmt, r: nat, d: nat, payload: seq<Byte>)
    ensures Header(fmt, r, d) + payload + Padding(|payload|) == Header(fmt, r, d) + (payload + Padding(|payload|))
    ensures Image(fmt, r, d, payload) == Header(fmt, r, d) + (payload + Padding(|payload|))
    ensures payload + [] == payload && Header(fmt, r, d) + payload + [] == Header(fmt, r, d) + payload
  {
  }

  // ---------- The parser, for RIFF files of uncompressed samples without metadata processing ----------

  const MAX_SAMPLE_RATE: nat := 384000
  const MAX_CHANNELS: nat := 256
  const MAX_BITS_PER_SAMPLE: nat := 64

  /** What the loop over the chunks comes to. */
  datatype Scan =
    | Found(hasFmt: bool, fmt: Fmt, subFormat: nat, dataPos: nat, size: nat)
    | NotFound
    | NotModelled

  /** What opening a file comes to. */
  datatype Opening =
    | Opened(fmt: Fmt, translatedFormatTag: nat, dataPos: nat, dataSize: nat, totalPCMFrameCount: nat)
    | Refused
    | Other

  function ParseFmt(b: seq<Byte>): Fmt
    requires |b| == 16
  {
    Fmt(FromU16(b[..2]), FromU16(b[2..4]), FromU32(b[4..8]), FromU32(b[8..12]), FromU16(b[12..14]), FromU16(b[14..]))
  }

  /** Where a format chunk's extra bytes leave the stream, and the format code they hold. */
  datatype FmtEnd = FmtEnd(pos: nat, subFormat: nat) | BadFmt | HugeFmt

  /** body is where the chunk's content begins. */
  function SkipFmt(data: seq<Byte>, body: nat, size: nat, tag: nat): (r: FmtEnd)
    requires body + 16 <= |data|
    ensures r.FmtEnd? ==> body + 16 <= r.pos <= |data|
  {
    if size >= 0x8000_0000 then HugeFmt
    else if size <= 16 then FmtEnd(body + 16, 0)
    else if |data| < body + 18 then BadFmt
    else
      var extendedSize := FromU16(data[body + 16..body + 18]);
      if extendedSize > 0 && tag == EXTENSIBLE && extendedSize != 22 then BadFmt
      else if |data| < body + 18 + extendedSize then BadFmt
      else if |data| < body + size then BadFmt
      else FmtEnd(body + size, if extendedSize > 0 && tag == EXTENSIBLE then FromU16(data[body + 24..body + 26]) else 0)
  }

  /** The loop over the chunks, from pos on. */
  function Chunks(data: seq<Byte>, pos: nat, hasFmt: bool, fmt: Fmt, subFormat: nat): Scan
    requires pos <= |data|
    decreases |data| - pos, 1
  {
    if |data| < pos + 8 then NotFound
    else
      var id := data[pos..pos + 4];
      var size := FromU32(data[pos + 4..pos + 8]);
      var body := pos + 8;
      if id == FmtTag() then FmtBranch(data, body, size)
      else if id == DataTag() then Found(hasFmt, fmt, subFormat, body, size)
      else if id == FactTag() && (|data| < body + 4 || size < 4) then NotFound
      else if |data| < body + size + PaddingSize(size) then NotFound
      else Chunks(data, body + size + PaddingSize(size), hasFmt, fmt, subFormat)
  }

  /** The loop, when a format chunk's content begins at body. */
  function FmtBranch(data: seq<Byte>, body: nat, size: nat): Scan
    requires body <= |data|
    decreases |data| - body, 0
  {
    if |data| < body + 16 then NotFound
    else
      var next := ParseFmt(data[body..body + 16]);
      match SkipFmt(data, body, size, next.formatTag)
      case BadFmt => NotFound
      case HugeFmt => NotModelled
      case FmtEnd(end, sub) =>
        if |data| < end + PaddingSize(size) then NotFound
        else Chunks(data, end + PaddingSize(size), true, next, sub)
  }

  lemma SliceOfSlice(s: seq<Byte>, a: nat, b: nat, i: nat, j: nat)
    requires a <= b <= |s| && i <= j <= b - a
    ensures s[a..b][i..j] == s[a + i..a + j]
  {
    var t, u := s[a..b][i..j], s[a + i..a + j];
    assert forall k :: 0 <= k < j - i ==> t[k] == u[k];
  }

  /** Frames of d bytes in n bytes. */
  function WholeFrames(n: nat, d: nat): nat
    requires d > 0
  {
    NotNegative(n, d);
    n / d
  }

  /** Bytes of a frame whose samples are packed. */
  function FrameBytes(f: DataFormat): nat {
    f.channels * f.bitsPerSample / 8
  }

  /** drwav_get_bytes_per_pcm_frame */
  function BytesPerFrame(fmt: Fmt, tag: nat): nat {
    var bytesPerFrame := if fmt.bitsPerSample % 8 == 0 then fmt.bitsPerSample * fmt.channels / 8 else fmt.blockAlign;
    if (tag == ALAW || tag == MULAW) && bytesPerFrame != fmt.channels then 0 else bytesPerFrame
  }

  /** What the parser asks of a format. */
  predicate Acceptable(fmt: Fmt, tag: nat) {
    && 0 < fmt.sampleRate <= MAX_SAMPLE_RATE && 0 < fmt.channels <= MAX_CHANNELS
    && 0 < fmt.bitsPerSample <= MAX_BITS_PER_SAMPLE && fmt.blockAlign != 0 && BytesPerFrame(fmt, tag) != 0
  }

  const NO_FMT := Fmt(0, 0, 0, 0, 0, 0)

  /** drwav_init__internal */
  function Parse(data: seq<Byte>): Opening {
    if |data| < 4 then Refused
    else if data[..4] != Riff() then Other
    else if |data| < 12 || FromU32(data[4..8]) < 36 || data[8..12] != Wave() then Refused
    else
      match Chunks(data, 12, false, NO_FMT, 0)
      case NotFound => Refused
      case NotModelled => Other
      case Found(hasFmt, fmt, sub, dataPos, size) =>
        var tag := if fmt.formatTag == EXTENSIBLE then sub else fmt.formatTag;
        if !hasFmt || !Acceptable(fmt, tag) then Refused
        else if tag == ADPCM || tag == DVI_ADPCM then Other
        else
          var dataSize := if size == MAX_SIZE && dataPos <= |data| then |data| - dataPos else size;
          Opened(fmt, tag, dataPos, dataSize, WholeFrames(dataSize, BytesPerFrame(fmt, tag)))
  }

  /** The reading side, over a memory stream. */
  class Reader {
    const data: seq<Byte>
    var currentReadPos: nat
    var fmt: Fmt
    var translatedFormatTag: nat
    var dataChunkDataPos: nat
    var dataChunkDataSize: nat
    var bytesRemaining: nat
    var totalPCMFrameCount: nat
    var readCursorInPCMFrames: nat

    constructor (data: seq<Byte>)
      ensures this.data == data && currentReadPos == 0
    {
      this.data, currentReadPos, fmt := data, 0, NO_FMT;
      translatedFormatTag, dataChunkDataPos, dataChunkDataSize, bytesRemaining := 0, 0, 0, 0;
      totalPCMFrameCount, readCursorInPCMFrames := 0, 0;
    }

    /** drwav__on_read_memory */
    method OnRead(bytesToRead: nat) returns (bytes: seq<Byte>)
      requires currentReadPos <= |data|
      modifies this`currentReadPos
      ensures currentReadPos == old(currentReadPos) + |bytes| <= |data|
      ensures bytes == data[old(currentReadPos)..currentReadPos]
      ensures |bytes| == if old(currentReadPos) + bytesToRead <= |data|
        then bytesToRead else |data| - old(currentReadPos)
    {
      var n := bytesToRead;
      if n > |data| - currentReadPos {
        n := |data| - currentReadPos;
      }
      bytes := data[currentReadPos..currentReadPos + n];
      currentReadPos := currentReadPos + n;
    }

    /** drwav__on_seek_memory, relative to the current position */
    method OnSeek(offset: int) returns (ok: bool)
      requires currentReadPos <= |data|
      modifies this`currentReadPos
      ensures ok <==> 0 <= old(currentReadPos) + offset <= |data|
      ensures currentReadPos == if ok then old(currentReadPos) + offset else old(currentReadPos)
    {
      if offset > 0 {
        if currentReadPos + offset > |data| {
          return false;
        }
      } else if currentReadPos < -offset {
        return false;
      }
      currentReadPos := currentReadPos + offset;
      return true;
    }

    /** The rest of a format chunk after its first 16 bytes. */
    method SkipFmtRest(size: nat, tag: nat) returns (r: FmtEnd)
      requires 16 <= currentReadPos <= |data|
      modifies this`currentReadPos
      ensures currentReadPos <= |data|
      ensures r == SkipFmt(data, old(currentReadPos) - 16, size, tag)
      ensures r.FmtEnd? ==> r.pos == currentReadPos
    {
      hide FromU16;
      ghost var body := currentReadPos - 16;
      if size >= 0x8000_0000 {
        return HugeFmt;
      }
      var subFormat := 0;
      if size > 16 {
        var cbSize := OnRead(2);
        if |cbSize| != 2 {
          return BadFmt;
        }
        assert cbSize == data[body + 16..body + 18];
        var bytesReadSoFar := 18;
        var extendedSize := FromU16(cbSize);
        if extendedSize > 0 {
          if tag == EXTENSIBLE {
            if extendedSize != 22 {
              return BadFmt;
            }
            var fmtext := OnRead(22);
            if |fmtext| != 22 {
              return BadFmt;
            }
            SliceOfSlice(data, body + 18, body + 40, 6, 8);
            subFormat := FromU16(fmtext[6..8]);
          } else {
            var ok := OnSeek(extendedSize);
            if !ok {
              return BadFmt;
            }
          }
          bytesReadSoFar := bytesReadSoFar + extendedSize;
        }
        var ok := OnSeek(size - bytesReadSoFar);
        if !ok {
          return BadFmt;
        }
      }
      return FmtEnd(currentReadPos, subFormat);
    }

    /** A format chunk, after its tag and size. */
    method FmtChunk(size: nat) returns (more: bool, r: Scan, fmt1: Fmt, sub1: nat)
      requires 8 <= currentReadPos <= |data|
      modifies this`currentReadPos
      ensures currentReadPos <= |data|
      ensures more ==> currentReadPos >= old(currentReadPos) + 16
      ensures more ==> FmtBranch(data, old(currentReadPos), size) == Chunks(data, currentReadPos, true, fmt1, sub1)
      ensures !more ==> r == FmtBranch(data, old(currentReadPos), size)
    {
      hide SkipFmt, ParseFmt, Chunks;
      ghost var body := currentReadPos;
      more, r, fmt1, sub1 := false, NotFound, NO_FMT, 0;
      var fmtData := OnRead(16);
      if |fmtData| != 16 {
        return;
      }
      fmt1 := ParseFmt(fmtData);
      var end := SkipFmtRest(size, fmt1.formatTag);
      if end.BadFmt? {
        return;
      }
      if end.HugeFmt? {
        r := NotModelled;
        return;
      }
      more := OnSeek(PaddingSize(size));
      sub1 := end.subFormat;
    }

    /** One chunk of the loop: true to go on. */
    method NextChunk(hasFmt: bool, fmt0: Fmt, sub0: nat) returns (more: bool, r: Scan, has: bool, fmt1: Fmt, sub1: nat)
      requires currentReadPos <= |data|
      modifies this`currentReadPos
      ensures currentReadPos <= |data|
      ensures more ==> currentReadPos > old(currentReadPos)
      ensures more ==>
        Chunks(data, old(currentReadPos), hasFmt, fmt0, sub0) == Chunks(data, currentReadPos, has, fmt1, sub1)
      ensures !more ==> r == Chunks(data, old(currentReadPos), hasFmt, fmt0, sub0)
    {
      hide FmtBranch, FromU32, FromU16, FmtTag, DataTag, FactTag;
      ghost var pos := currentReadPos;
      more, r, has, fmt1, sub1 := false, NotFound, hasFmt, fmt0, sub0;
      var id := OnRead(4);
      if |id| != 4 {
        return;
      }
      var sizeBytes := OnRead(4);
      if |sizeBytes| != 4 {
        return;
      }
      var size := FromU32(sizeBytes);
      if id == FmtTag() {
        more, r, fmt1, sub1 := FmtChunk(size);
        has := true;
        return;
      }
      if id == DataTag() {
        r := Found(hasFmt, fmt0, sub0, currentReadPos, size);
        return;
      }
      var chunkSize: int := size;
      if id == FactTag() {
        var sampleCount := OnRead(4);
        if |sampleCount| != 4 || size < 4 {
          return;
        }
        chunkSize := chunkSize - 4;
      }
      more := OnSeek(chunkSize + PaddingSize(size));
    }

    /** drwav_init__internal: the method refines Parse. */
    method Init() returns (o: Opening)
      requires currentReadPos == 0
      modifies this
      ensures o == Parse(data)
      ensures o.Opened? ==>
        && fmt == o.fmt && translatedFormatTag == o.translatedFormatTag
          && bytesRemaining == dataChunkDataSize == o.dataSize
        && currentReadPos == dataChunkDataPos == o.dataPos <= |data|
        && totalPCMFrameCount == o.totalPCMFrameCount && readCursorInPCMFrames == 0
    {
      hide Chunks, Riff, Wave, FromU32, Acceptable, BytesPerFrame;
      var riff := OnRead(4);
      if |riff| != 4 {
        return Refused;
      }
      if riff != Riff() {
        return Other;
      }
      var chunkSizeBytes := OnRead(4);
      if |chunkSizeBytes| != 4 || FromU32(chunkSizeBytes) < 36 {
        return Refused;
      }
      var wave := OnRead(4);
      if |wave| != 4 || wave != Wave() {
        return Refused;
      }
      var more, scan, has, fmt1, sub := true, NotFound, false, NO_FMT, 0;
      while more
        invariant currentReadPos <= |data|
        invariant more ==> Chunks(data, 12, false, NO_FMT, 0) == Chunks(data, currentReadPos, has, fmt1, sub)
        invariant !more ==> scan == Chunks(data, 12, false, NO_FMT, 0)
        decreases more, |data| - currentReadPos
      {
        more, scan, has, fmt1, sub := NextChunk(has, fmt1, sub);
      }
      o := Finish(scan);
    }

    /** What follows the loop over the chunks. */
    method Finish(scan: Scan) returns (o: Opening)
      requires |data| >= 12 && scan == Chunks(data, 12, false, NO_FMT, 0)
      requires data[..4] == Riff() && FromU32(data[4..8]) >= 36 && data[8..12] == Wave()
      modifies this
      ensures o == Parse(data)
      ensures o.Opened? ==>
        && fmt == o.fmt && translatedFormatTag == o.translatedFormatTag
          && bytesRemaining == dataChunkDataSize == o.dataSize
        && currentReadPos == dataChunkDataPos == o.dataPos <= |data|
        && totalPCMFrameCount == o.totalPCMFrameCount && readCursorInPCMFrames == 0
    {
      hide Chunks, Riff, Wave, FromU32;
      if scan.NotFound? {
        return Refused;
      }
      if scan.NotModelled? {
        return Other;
      }
      ScanInside(data, 12, false, NO_FMT, 0);
      var next := scan.fmt;
      var tag := if next.formatTag == EXTENSIBLE then scan.subFormat else next.formatTag;
      if !scan.hasFmt || !Acceptable(next, tag) {
        return Refused;
      }
      if tag == ADPCM || tag == DVI_ADPCM {
        return Other;
      }
      var size := if scan.size == MAX_SIZE then |data| - scan.dataPos else scan.size;
      fmt, translatedFormatTag, dataChunkDataPos, dataChunkDataSize := next, tag, scan.dataPos, size;
      currentReadPos, bytesRemaining, readCursorInPCMFrames := scan.dataPos, size, 0;
      totalPCMFrameCount := WholeFrames(size, BytesPerFrame(next, tag));
      return Opened(next, tag, scan.dataPos, size, totalPCMFrameCount);
    }

    /** drwav_read_raw into a buffer */
    method ReadRaw(bytesToRead: nat) returns (bytes: seq<Byte>)
      requires currentReadPos <= |data| && fmt.channels > 0
      modifies this`currentReadPos, this`bytesRemaining, this`readCursorInPCMFrames
      ensures currentReadPos == old(currentReadPos) + |bytes| <= |data|
      ensures bytes == data[old(currentReadPos)..currentReadPos] && bytesRemaining == old(bytesRemaining) - |bytes|
      ensures |bytes| == if BytesPerFrame(fmt, translatedFormatTag) == 0 then 0 else
        Least(Least(bytesToRead, old(bytesRemaining)), |data| - old(currentReadPos))
      ensures BytesPerFrame(fmt, translatedFormatTag) > 0 ==>
        readCursorInPCMFrames == old(readCursorInPCMFrames)
          + WholeFrames(|bytes|, BytesPerFrame(fmt, translatedFormatTag))
    {
      hide BytesPerFrame;
      bytes := [];
      var n := if bytesToRead > bytesRemaining then bytesRemaining else bytesToRead;
      var bytesPerFrame := BytesPerFrame(fmt, translatedFormatTag);
      if n == 0 || bytesPerFrame == 0 {
        NoBytes(bytesPerFrame);
        return;
      }
      bytes := OnRead(n);
      readCursorInPCMFrames := readCursorInPCMFrames + WholeFrames(|bytes|, bytesPerFrame);
      bytesRemaining := bytesRemaining - |bytes|;
    }
  }

  lemma NoBytes(d: nat)
    ensures d > 0 ==> WholeFrames(0, d) == 0
  {
    if d > 0 {
      DivModUnique(0, d, 0, 0);
    }
  }

  lemma {:induction false} ScanInside(data: seq<Byte>, pos: nat, hasFmt: bool, fmt: Fmt, subFormat: nat)
    requires pos <= |data|
    ensures var r := Chunks(data, pos, hasFmt, fmt, subFormat); r.Found? ==> pos + 8 <= r.dataPos <= |data|
    decreases |data| - pos
  {
    hide FromU32, FromU16, FmtTag, DataTag, FactTag, SkipFmt;
    if |data| >= pos + 8 {
      var size, body := FromU32(data[pos + 4..pos + 8]), pos + 8;
      if data[pos..pos + 4] == FmtTag() {
        if |data| >= body + 16 {
          var next := ParseFmt(data[body..body + 16]);
          var end := SkipFmt(data, body, size, next.formatTag);
          if end.FmtEnd? && |data| >= end.pos + PaddingSize(size) {
            ScanInside(data, end.pos + PaddingSize(size), true, next, end.subFormat);
          }
        }
      } else if |data| >= body + size + PaddingSize(size) {
        ScanInside(data, body + size + PaddingSize(size), hasFmt, fmt, subFormat);
      }
    }
  }

  // ---------- Writing and reading back ----------

  lemma FmtComesBack(fmt: Fmt)
    requires Fits(fmt)
    ensures ParseFmt(FmtBytes(fmt)) == fmt
  {
    hide U16, U32, FromU16, FromU32;
    var b := FmtBytes(fmt);
    assert b[..2] == U16(fmt.formatTag) && b[2..4] == U16(fmt.channels);
    assert b[4..8] == U32(fmt.sampleRate) && b[8..12] == U32(fmt.avgBytesPerSec);
    assert b[12..14] == U16(fmt.blockAlign) && b[14..] == U16(fmt.bitsPerSample);
    NumbersComeBack(fmt.formatTag);
    NumbersComeBack(fmt.channels);
    NumbersComeBack(fmt.sampleRate);
    NumbersComeBack(fmt.avgBytesPerSec);
    NumbersComeBack(fmt.blockAlign);
    NumbersComeBack(fmt.bitsPerSample);
  }

  /** Where everything is in a finished file. */
  lemma ImageFields(fmt: Fmt, r: nat, d: nat, payload: seq<Byte>)
    ensures var s := Image(fmt, r, d, payload);
      && |s| == 44 + |payload| + PaddingSize(|payload|)
      && s[..4] == Riff() && s[4..8] == U32(r) && s[8..12] == Wave() && s[12..16] == FmtTag() && s[16..20] == U32(16)
      && s[20..36] == FmtBytes(fmt) && s[36..40] == DataTag() && s[40..44] == U32(d) && s[44..44 + |payload|] == payload
  {
    hide U32, FmtBytes, Riff, Wave, FmtTag, DataTag;
    var s, h := Image(fmt, r, d, payload), Header(fmt, r, d);
    var rest := payload + Padding(|payload|);
    Regroup(fmt, r, d, payload);
    HeaderFields(fmt, r, d);
    assert forall a, b :: 0 <= a <= b <= 44 ==> s[a..b] == h[a..b];
    assert s[44..44 + |payload|] == payload;
  }

  lemma HeaderFields(fmt: Fmt, r: nat, d: nat)
    ensures var h := Header(fmt, r, d);
      && h[0..4] == Riff() && h[4..8] == U32(r) && h[8..12] == Wave() && h[12..16] == FmtTag() && h[16..20] == U32(16)
      && h[20..36] == FmtBytes(fmt) && h[36..40] == DataTag() && h[40..44] == U32(d)
  {
    hide U32, FmtBytes, Riff, Wave, FmtTag, DataTag;
    var h, m := Header(fmt, r, d), Middle(fmt);
    assert m[0..4] == Wave() && m[4..8] == FmtTag() && m[8..12] == U32(16) && m[12..28] == FmtBytes(fmt);
    assert m[28..32] == DataTag();
    assert forall a, b :: 0 <= a <= b <= 32 ==> h[8 + a..8 + b] == m[a..b];
    assert h[8 + 0..8 + 4] == m[0..4] && h[8 + 4..8 + 8] == m[4..8] && h[8 + 8..8 + 12] == m[8..12];
    assert h[8 + 12..8 + 28] == m[12..28] && h[8 + 28..8 + 32] == m[28..32];
  }

  lemma TagsDiffer()
    ensures FmtTag() != DataTag() && FmtTag() != FactTag() && DataTag() != FactTag()
  {
    assert FmtTag()[0] != DataTag()[0];
    assert DataTag()[0] != FactTag()[0];
    assert FmtTag()[1] != FactTag()[1];
  }

  lemma ChunksOfImage(s: seq<Byte>, fmt: Fmt, d: nat)
    requires Fits(fmt) && d < MAX_SIZE && |s| >= 44
    requires s[12..16] == FmtTag() && s[16..20] == U32(16) && s[20..36] == FmtBytes(fmt)
    requires s[36..40] == DataTag() && s[40..44] == U32(d)
    ensures Chunks(s, 12, false, NO_FMT, 0) == Found(true, fmt, 0, 44, d)
  {
    hide U32, FromU32, FromU16, FmtBytes, ParseFmt, FmtTag, DataTag, FactTag;
    TagsDiffer();
    NumbersComeBack(16);
    NumbersComeBack(d);
    FmtComesBack(fmt);
    assert Chunks(s, 36, true, fmt, 0) == Found(true, fmt, 0, 44, d);
    assert SkipFmt(s, 20, 16, fmt.formatTag) == FmtEnd(36, 0);
  }

  /** A finished file opens exactly when its format is acceptable and the RIFF size is at least 36. */
  lemma ImageOpens(fmt: Fmt, r: nat, payload: seq<Byte>)
    requires Fits(fmt) && r < 0x1_0000_0000 && |payload| < MAX_SIZE
    requires fmt.formatTag !in {EXTENSIBLE, ADPCM, DVI_ADPCM}
    ensures Parse(Image(fmt, r, |payload|, payload)) ==
      if r >= 36 && Acceptable(fmt, fmt.formatTag)
      then Opened(fmt, fmt.formatTag, 44, |payload|, WholeFrames(|payload|, BytesPerFrame(fmt, fmt.formatTag)))
      else Refused
  {
    hide U32, FromU32, FmtBytes, Riff, Wave, FmtTag, DataTag, Chunks, BytesPerFrame, Image;
    ImageFields(fmt, r, |payload|, payload);
    ChunksOfImage(Image(fmt, r, |payload|, payload), fmt, |payload|);
    NumbersComeBack(r);
  }

  // ---------- Which formats come back, and their frame counts ----------

  /** What drwav_init_write lets through and the parser takes. */
  predicate GoodFormat(f: DataFormat) {
    && f.format < 65536 && f.format !in {EXTENSIBLE, ADPCM, DVI_ADPCM}
    && 0 < f.sampleRate <= MAX_SAMPLE_RATE && 0 < f.channels <= MAX_CHANNELS
      && 0 < f.bitsPerSample <= MAX_BITS_PER_SAMPLE
    && FrameBytes(f) > 0 && (f.format in {ALAW, MULAW} ==> FrameBytes(f) == f.channels)
  }

  /** A format that the writer takes, with fields that survive its 16-bit casts. */
  predicate Writable(f: DataFormat) {
    Unsigned32(f) && f.format < 65536 && 0 < f.channels < 65536 && 0 < f.bitsPerSample < 65536
    && f.format !in {EXTENSIBLE, ADPCM, DVI_ADPCM}
  }

  lemma DerivedFields(f: DataFormat)
    requires Writable(f)
    ensures Fits(FmtOf(f)) && FmtOf(f).formatTag == f.format && FmtOf(f).channels == f.channels
    ensures FmtOf(f).sampleRate == f.sampleRate && FmtOf(f).bitsPerSample == f.bitsPerSample
    ensures f.channels <= MAX_CHANNELS && f.bitsPerSample <= MAX_BITS_PER_SAMPLE ==>
      FmtOf(f).blockAlign == FrameBytes(f)
  {
    hide Eighths, FrameBytes;
    if f.channels <= MAX_CHANNELS && f.bitsPerSample <= MAX_BITS_PER_SAMPLE {
      SmallProduct(f.channels, f.bitsPerSample);
      FrameBytesAre(f);
    }
  }

  lemma FrameBytesAre(f: DataFormat)
    ensures FrameBytes(f) == f.channels * f.bitsPerSample / 8
  {
  }

  lemma SmallProduct(a: nat, b: nat)
    requires a <= 256 && b <= 64
    ensures Eighths(a * b) % 65536 == a * b / 8
  {
    MulMonotone(a, 256, b);
    MulMonotone(0, a, b);
    SmallEighths(a * b);
  }

  lemma SmallEighths(n: nat)
    requires n <= 16384
    ensures Eighths(n) % 65536 == n / 8
  {
  }

  lemma GoodFormatIsAcceptable(f: DataFormat)
    requires Writable(f)
    ensures Acceptable(FmtOf(f), f.format) <==> GoodFormat(f)
    ensures GoodFormat(f) ==> BytesPerFrame(FmtOf(f), f.format) == FrameBytes(f)
  {
    hide FmtOf;
    DerivedFields(f);
    assert f.bitsPerSample * f.channels == f.channels * f.bitsPerSample;
  }

  /** Writing any frames and closing, then opening: the format fields, the bytes and where they are come back exactly
      when the parser accepts the format, provided the RIFF size fits 32 bits. */
  lemma RoundTrip(f: DataFormat, payload: seq<Byte>)
    requires Writable(f) && 36 + |payload| + PaddingSize(|payload|) <= MAX_SIZE
    ensures var n := |payload|;
      var s := Image(FmtOf(f), RiffChunkSize(n), DataChunkSize(n), payload);
      && Parse(s) == (if GoodFormat(f) then Opened(FmtOf(f), f.format, 44, n, WholeFrames(n, FrameBytes(f)))
        else Refused)
      && 44 + n <= |s| && s[44..44 + n] == payload
  {
    DerivedFields(f);
    GoodFormatIsAcceptable(f);
    hide Acceptable, BytesPerFrame, FmtOf, Image, Parse, GoodFormat;
    ImageOpens(FmtOf(f), RiffChunkSize(|payload|), payload);
    ImageFields(FmtOf(f), RiffChunkSize(|payload|), DataChunkSize(|payload|), payload);
  }

  /** In sequential mode the RIFF size is written eight too small, without the data chunk's own header: the file opens
      exactly when it holds at least eight sample bytes. */
  lemma SequentialRoundTrip(f: DataFormat, payload: seq<Byte>)
    requires Writable(f) && |payload| <= MAX_SIZE - 36
    ensures var n := |payload|;
      Parse(Image(FmtOf(f), 28 + n, n, payload)) ==
        if GoodFormat(f) && n >= 8 then Opened(FmtOf(f), f.format, 44, n, WholeFrames(n, FrameBytes(f))) else Refused
  {
    DerivedFields(f);
    GoodFormatIsAcceptable(f);
    hide Acceptable, BytesPerFrame, FmtOf, Image, Parse, GoodFormat;
    ImageOpens(FmtOf(f), 28 + |payload|, payload);
  }

  /** One frame of 16-bit mono sound written in sequential mode: the file is reported valid and does not open. */
  method SequentialFrameLost() returns (valid: bool, o: Opening)
    ensures valid && o == Refused
  {
    hide Writer.Writing, FmtOf, MemoryFile.Valid, MemoryFile.Contents, Parse, Image, PaddingSize, FramesIn;
    var f := DataFormat(1, 1, 44100, 16);
    var w := new Writer();
    var ok := w.InitMemoryWrite(f, 1, true);
    assert BytesFor(1, 1, 16) == 2;
    var _ := w.WritePcmFrames(1, [0, 0]);
    assert w.written == [0, 0];
    valid := w.Uninit();
    var bytes := w.file.Bytes();
    SequentialRoundTrip(f, [0, 0]);
    var r := new Reader(bytes);
    o := r.Init();
  }

  /** For frames of whole bytes the calls' bytes add up. */
  lemma BytesAddUp(a: nat, b: nat, f: DataFormat)
    requires f.channels * f.bitsPerSample % 8 == 0
    ensures BytesFor(a, f.channels, f.bitsPerSample) == a * FrameBytes(f)
    ensures BytesFor(a + b, f.channels, f.bitsPerSample)
      == BytesFor(a, f.channels, f.bitsPerSample) + BytesFor(b, f.channels, f.bitsPerSample)
  {
    WholeBytes(a, f);
    WholeBytes(b, f);
    WholeBytes(a + b, f);
    Distribute(FrameBytes(f), a, b);
  }

  lemma WholeBytes(n: nat, f: DataFormat)
    requires f.channels * f.bitsPerSample % 8 == 0
    ensures BytesFor(n, f.channels, f.bitsPerSample) == n * FrameBytes(f)
  {
    var product, bytes := f.channels * f.bitsPerSample, FrameBytes(f);
    assert product == 8 * bytes;
    MulAssociates(n, f.channels, f.bitsPerSample);
    assert n * product == 8 * (n * bytes) by {
      MulShuffle(n, 8, bytes);
    }
  }

  lemma MulAssociates(a: int, b: int, c: int)
    ensures a * b * c == a * (b * c)
  {
  }

  /** Two frames of 12-bit mono are three bytes; the reader takes a frame for one byte and counts three. */
  lemma HalfBytesMiscounted()
    ensures var f := DataFormat(1, 1, 44100, 12);
      BytesFor(2, 1, 12) == 3 && FrameBytes(f) == 1 && WholeFrames(3, FrameBytes(f)) == 3
  {
  }

  /** The reader counts the frames that were written, whatever their number, exactly when frames are whole bytes. */
  lemma CountComesBack(f: DataFormat)
    requires GoodFormat(f)
    ensures (forall n: nat :: WholeFrames(BytesFor(n, f.channels, f.bitsPerSample), FrameBytes(f)) == n)
      <==> f.channels * f.bitsPerSample % 8 == 0
  {
    var product, bytes := f.channels * f.bitsPerSample, FrameBytes(f);
    if product % 8 == 0 {
      forall n: nat
        ensures WholeFrames(BytesFor(n, f.channels, f.bitsPerSample), bytes) == n
      {
        WholeBytes(n, f);
        DivModUnique(n * bytes, bytes, n, 0);
      }
    } else {
      var n := 8 * bytes;
      MulAssociates(n, f.channels, f.bitsPerSample);
      assert n * product == 8 * (bytes * product) by {
        MulAssociates(8, bytes, product);
      }
      DivModUnique(product * bytes, bytes, product, 0);
      assert WholeFrames(BytesFor(n, f.channels, f.bitsPerSample), bytes) == product != n;
    }
  }

  // ---------- A whole session ----------

  /** One call of the writer: a frame count and the buffer it is taken from. */
  datatype Call = Call(frames: nat, buffer: seq<Byte>)

  ghost predicate BuffersHold(calls: seq<Call>, f: DataFormat) {
    forall k :: 0 <= k < |calls| ==> BytesFor(calls[k].frames, f.channels, f.bitsPerSample) <= |calls[k].buffer|
  }

  ghost function Payload(calls: seq<Call>, f: DataFormat): seq<Byte>
    requires BuffersHold(calls, f)
  {
    if calls == [] then [] else
      var last := calls[|calls| - 1];
      Payload(calls[..|calls| - 1], f) + last.buffer[..BytesFor(last.frames, f.channels, f.bitsPerSample)]
  }

  function TotalFrames(calls: seq<Call>): nat {
    if calls == [] then 0 else TotalFrames(calls[..|calls| - 1]) + calls[|calls| - 1].frames
  }

  lemma {:induction false} PayloadLength(calls: seq<Call>, f: DataFormat)
    requires BuffersHold(calls, f) && f.channels * f.bitsPerSample % 8 == 0
    ensures |Payload(calls, f)| == BytesFor(TotalFrames(calls), f.channels, f.bitsPerSample)
  {
    hide BytesFor;
    if calls == [] {
      WholeBytes(0, f);
    } else {
      var n := |calls| - 1;
      PayloadLength(calls[..n], f);
      BytesAddUp(TotalFrames(calls[..n]), calls[n].frames, f);
    }
  }

  lemma NextCall(calls: seq<Call>, f: DataFormat, k: nat)
    requires BuffersHold(calls, f) && k < |calls|
    ensures BuffersHold(calls[..k], f) && BuffersHold(calls[..k + 1], f)
    ensures Payload(calls[..k + 1], f)
      == Payload(calls[..k], f) + calls[k].buffer[..BytesFor(calls[k].frames, f.channels, f.bitsPerSample)]
  {
    assert calls[..k + 1][..k] == calls[..k];
  }

  /** Writes frames in any number of calls and closes. */
  method WriteAll(f: DataFormat, calls: seq<Call>) returns (bytes: seq<Byte>)
    requires Writable(f) && BuffersHold(calls, f)
    ensures var payload := Payload(calls, f);
      bytes == Image(FmtOf(f), RiffChunkSize(|payload|), DataChunkSize(|payload|), payload)
  {
    hide BytesFor, Writer.Writing, FmtOf, MemoryFile.Valid, MemoryFile.Contents, Image;
    hide RiffChunkSize, DataChunkSize, PaddingSize, FramesIn;
    var w := new Writer();
    var ok := w.InitMemoryWrite(f, 0, false);
    var k := 0;
    assert calls[..0] == [];
    while k < |calls|
      invariant k <= |calls| && BuffersHold(calls[..k], f) && w.Writing() && w.written == Payload(calls[..k], f)
      invariant fresh(w) && fresh(w.file) && fresh(w.file.data) && !w.isSequentialWrite && w.fmt == FmtOf(f)
      invariant w.channels == f.channels && w.bitsPerSample == f.bitsPerSample
    {
      NextCall(calls, f, k);
      var framesWritten := w.WritePcmFrames(calls[k].frames, calls[k].buffer);
      k := k + 1;
    }
    assert calls[..k] == calls;
    var valid := w.Uninit();
    bytes := w.file.Bytes();
  }

  /** Writes frames in any number of calls, closes, opens what has been written and reads all of it. */
  method WriteAndReadBack(f: DataFormat, calls: seq<Call>) returns (o: Opening, samples: seq<Byte>)
    requires Writable(f) && GoodFormat(f) && f.channels * f.bitsPerSample % 8 == 0 && BuffersHold(calls, f)
    requires 36 + |Payload(calls, f)| + PaddingSize(|Payload(calls, f)|) <= MAX_SIZE
    ensures o == Opened(FmtOf(f), f.format, 44, |Payload(calls, f)|, TotalFrames(calls))
    ensures samples == Payload(calls, f)
  {
    hide BuffersHold, FmtOf, GoodFormat, Parse, FrameBytes, Image, Payload, Writable;
    hide RiffChunkSize, DataChunkSize, WholeFrames, BytesPerFrame, PaddingSize;
    var bytes := WriteAll(f, calls);
    RoundTrip(f, Payload(calls, f));
    FrameSizes(f, calls);
    var r := new Reader(bytes);
    o := r.Init();
    samples := r.ReadRaw(o.dataSize);
  }

  lemma FrameSizes(f: DataFormat, calls: seq<Call>)
    requires Writable(f) && GoodFormat(f) && f.channels * f.bitsPerSample % 8 == 0 && BuffersHold(calls, f)
    ensures FmtOf(f).channels > 0 && FrameBytes(f) > 0 && BytesPerFrame(FmtOf(f), f.format) == FrameBytes(f)
    ensures WholeFrames(|Payload(calls, f)|, FrameBytes(f)) == TotalFrames(calls)
  {
    DerivedFields(f);
    GoodFormatIsAcceptable(f);
    hide FmtOf;
    PayloadLength(calls, f);
    CountComesBack(f);
  }
}
