/** Metadata chunks of dr_wav: one routine that either counts or writes. */
module RiffMetadata {
  import opened Common
  import opened RiffWav

  datatype Location = TopLevel | InsideInfoList | InsideAdtlList

  datatype Loop = Loop(cuePointId: nat, kind: nat, firstSampleByteOffset: nat, lastSampleByteOffset: nat,
                       sampleFraction: nat, playCount: nat)

  datatype CuePoint = CuePoint(id: nat, playOrderPosition: nat, dataChunkId: seq<Byte>, chunkStart: nat,
                               blockStart: nat, sampleByteOffset: nat)

  /** drwav_metadata; strings are given without their terminators. */
  datatype Metadata =
    | Smpl(manufacturerId: nat, productId: nat, samplePeriodNanoseconds: nat, midiUnityNote: nat,
           midiPitchFraction: nat, smpteFormat: nat, smpteOffset: nat, loops: seq<Loop>, samplerSpecificData: seq<Byte>)
    | Inst(notes: seq<Byte>)
    | Cue(points: seq<CuePoint>)
    | Acid(flags: nat, unityNote: nat, reserved1: nat, reserved2: seq<Byte>, numBeats: nat, meterDenominator: nat,
           meterNumerator: nat, tempo: seq<Byte>)
    | Bext(description: seq<Byte>, originatorName: seq<Byte>, originatorReference: seq<Byte>,
           originationDate: seq<Byte>, originationTime: seq<Byte>, timeReference: nat, version: nat, umid: seq<Byte>,
           loudnessValue: nat, loudnessRange: nat, maxTruePeakLevel: nat, maxMomentaryLoudness: nat,
           maxShortTermLoudness: nat, codingHistory: seq<Byte>)
    | Unknown(id: seq<Byte>, location: Location, data: seq<Byte>)
    | InfoText(kind: InfoKind, text: seq<Byte>)
    | LabelOrNote(note: bool, cuePointId: nat, text: seq<Byte>)
    | LabelledCueRegion(cuePointId: nat, sampleLength: nat, purposeId: seq<Byte>, country: nat, language: nat,
                        dialect: nat, codePage: nat, text: seq<Byte>)

  datatype InfoKind = Software | Copyright | Title | Artist | Comment | Date | Genre | Album | TrackNumber

  /** The members of fixed size have that size. */
  predicate ValidMetadata(m: Metadata) {
    match m
    case Inst(notes) => |notes| == 7
    case Cue(points) => forall k :: 0 <= k < |points| ==> |points[k].dataChunkId| == 4
    case Acid(_, _, _, reserved2, _, _, _, tempo) => |reserved2| == 4 && |tempo| == 4
    case Bext(_, _, _, date, time, _, _, umid, _, _, _, _, _, _) => |date| == 10 && |time| == 8 && |umid| == 64
    case Unknown(id, _, _) => |id| == 4
    case LabelledCueRegion(_, _, purposeId, _, _, _, _, _) => |purposeId| == 4
    case _ => true
  }

  type Known = m: Metadata | ValidMetadata(m) witness InfoText(Software, [])

  const SMPL_BYTES: nat := 36
  const SMPL_LOOP_BYTES: nat := 24
  const INST_BYTES: nat := 7
  const CUE_BYTES: nat := 4
  const CUE_POINT_BYTES: nat := 24
  const ACID_BYTES: nat := 24
  const BEXT_BYTES: nat := 602
  const LABEL_OR_NOTE_BYTES: nat := 4
  const LABELLED_TEXT_BYTES: nat := 20

  // ---------- Contents of the chunks ----------

  function ZeroBytes(n: nat): (z: seq<Byte>)
    ensures |z| == n
  {
    seq(n, _ => 0)
  }

  /** drwav__write_or_count_string_to_fixed_size_buf */
  function FixedSize(s: seq<Byte>, n: nat): (b: seq<Byte>)
    ensures |b| == n
  {
    if |s| < n then s + ZeroBytes(n - |s|) else s[..n]
  }

  function LoopsBytes(loops: seq<Loop>): (b: seq<Byte>)
    ensures |b| == 24 * |loops|
  {
    if loops == [] then [] else
      var l := loops[|loops| - 1];
      LoopsBytes(loops[..|loops| - 1]) + U32(l.cuePointId) + U32(l.kind) + U32(l.firstSampleByteOffset)
      + U32(l.lastSampleByteOffset) + U32(l.sampleFraction) + U32(l.playCount)
  }

  function PointsBytes(points: seq<CuePoint>): (b: seq<Byte>)
    requires forall k :: 0 <= k < |points| ==> |points[k].dataChunkId| == 4
    ensures |b| == 24 * |points|
  {
    if points == [] then [] else
      var p := points[|points| - 1];
      PointsBytes(points[..|points| - 1]) + U32(p.id) + U32(p.playOrderPosition) + p.dataChunkId + U32(p.chunkStart)
      + U32(p.blockStart) + U32(p.sampleByteOffset)
  }

  /** A chunk: its tag, the number that goes into its size field, and what follows, without padding. */
  datatype Chunk = Chunk(id: seq<Byte>, size: nat, body: seq<Byte>)

  /** chunkSize of the first loop: computed from the kind of metadata, before anything is written; 0 without a chunk. */
  function TopSize(m: Known): nat {
    match m
    case Smpl(_, _, _, _, _, _, _, loops, specific) => SMPL_BYTES + SMPL_LOOP_BYTES * |loops| + |specific|
    case Inst(_) => INST_BYTES
    case Cue(points) => CUE_BYTES + CUE_POINT_BYTES * |points|
    case Acid(_, _, _, _, _, _, _, _) => ACID_BYTES
    case Bext(_, _, _, _, _, _, _, _, _, _, _, _, _, history) => BEXT_BYTES + |history|
    case Unknown(_, location, data) => if location == TopLevel then |data| else 0
    case _ => 0
  }

  /** The chunk that one piece of metadata becomes at the top level, if any. */
  function TopChunk(m: Known): (c: seq<Chunk>)
    ensures |c| <= 1 && forall k :: 0 <= k < |c| ==> |c[k].id| == 4
  {
    match m
    case Smpl(manufacturer, product, period, note, fraction, format, offset, loops, specific) =>
      [Chunk([0x73, 0x6d, 0x70, 0x6c], TopSize(m),
             U32(manufacturer) + U32(product) + U32(period) + U32(note) + U32(fraction) + U32(format) + U32(offset)
             + U32(|loops|) + U32(|specific|) + LoopsBytes(loops) + specific)]
    case Inst(notes) => [Chunk([0x69, 0x6e, 0x73, 0x74], TopSize(m), notes)]
    case Cue(points) => [Chunk([0x63, 0x75, 0x65, 0x20], TopSize(m), U32(|points|) + PointsBytes(points))]
    case Acid(flags, note, reserved1, reserved2, beats, denominator, numerator, tempo) =>
      [Chunk([0x61, 0x63, 0x69, 0x64], TopSize(m),
             U32(flags) + U16(note) + U16(reserved1) + reserved2 + U32(beats) + U16(denominator)
             + U16(numerator) + tempo)]
    case Bext(description, name, reference, date, time, timeReference, version, umid, value, range, peak, momentary,
              short, history) =>
      [Chunk([0x62, 0x65, 0x78, 0x74], TopSize(m),
             FixedSize(description, 256) + FixedSize(name, 32) + FixedSize(reference, 32) + date + time
             + U32(timeReference % 0x1_0000_0000) + U32(timeReference / 0x1_0000_0000) + U16(version) + umid
             + U16(value) + U16(range) + U16(peak) + U16(momentary) + U16(short) + ZeroBytes(180) + history)]
    case Unknown(id, location, data) => if location == TopLevel then [Chunk(id, TopSize(m), data)] else []
    case _ => []
  }

  /** The computed size is that of the content. */
  lemma TopSizeIsRight(m: Known)
    ensures TopSize(m) == if TopChunk(m) == [] then 0 else |TopChunk(m)[0].body|
    ensures forall k :: 0 <= k < |TopChunk(m)| ==> TopChunk(m)[k].size == |TopChunk(m)[k].body|
  {
    hide U32, U16;
  }

  function InfoId(kind: InfoKind): (id: seq<Byte>)
    ensures |id| == 4
  {
    match kind
    case Software => [0x49, 0x53, 0x46, 0x54]
    case Copyright => [0x49, 0x43, 0x4f, 0x50]
    case Title => [0x49, 0x4e, 0x41, 0x4d]
    case Artist => [0x49, 0x41, 0x52, 0x54]
    case Comment => [0x49, 0x43, 0x4d, 0x54]
    case Date => [0x49, 0x43, 0x52, 0x44]
    case Genre => [0x49, 0x47, 0x4e, 0x52]
    case Album => [0x49, 0x50, 0x52, 0x44]
    case TrackNumber => [0x49, 0x54, 0x52, 0x4b]
  }

  predicate InInfoList(m: Known) {
    m.InfoText? || (m.Unknown? && m.location == InsideInfoList)
  }

  predicate InAdtlList(m: Known) {
    m.LabelOrNote? || m.LabelledCueRegion? || (m.Unknown? && m.location == InsideAdtlList)
  }

  /** subchunkSize inside the INFO list; 0 without a chunk. */
  function InfoSize(m: Known): nat {
    if m.InfoText? && |m.text| > 0 then |m.text| + 1
    else if m.Unknown? && m.location == InsideInfoList then |m.data|
    else 0
  }

  /** subchunkSize inside the adtl list; 0 without a chunk. */
  function AdtlSize(m: Known): nat {
    if m.LabelOrNote? then if |m.text| > 0 then LABEL_OR_NOTE_BYTES + (|m.text| + 1) else 0
    else if m.LabelledCueRegion? then LABELLED_TEXT_BYTES + if |m.text| > 0 then |m.text| + 1 else 0
    else if m.Unknown? && m.location == InsideAdtlList then |m.data|
    else 0
  }

  /** The chunk inside the INFO list: none for an empty text or an empty unknown chunk. */
  function InfoChunk(m: Known): (c: seq<Chunk>)
    ensures |c| <= 1 && forall k :: 0 <= k < |c| ==> |c[k].id| == 4
  {
    if m.InfoText? && m.text != [] then [Chunk(InfoId(m.kind), InfoSize(m), m.text + [0])]
    else if m.Unknown? && m.location == InsideInfoList && m.data != [] then [Chunk(m.id, InfoSize(m), m.data)]
    else []
  }

  /** The chunk inside the adtl list: none for an empty label or note. */
  function AdtlChunk(m: Known): (c: seq<Chunk>)
    ensures |c| <= 1 && forall k :: 0 <= k < |c| ==> |c[k].id| == 4
  {
    if m.LabelOrNote? && m.text != [] then
      [Chunk(if m.note then [0x6e, 0x6f, 0x74, 0x65] else [0x6c, 0x61, 0x62, 0x6c], AdtlSize(m),
             U32(m.cuePointId) + m.text + [0])]
    else if m.LabelledCueRegion? then
      [Chunk([0x6c, 0x74, 0x78, 0x74], AdtlSize(m),
             U32(m.cuePointId) + U32(m.sampleLength) + m.purposeId + U16(m.country) + U16(m.language) + U16(m.dialect)
             + U16(m.codePage) + if m.text != [] then m.text + [0] else [])]
    else if m.Unknown? && m.location == InsideAdtlList then [Chunk(m.id, AdtlSize(m), m.data)]
    else []
  }

  /** The sizes computed for the chunks of both lists are those of their contents. */
  lemma ListedSizesAreRight(m: Known)
    ensures InfoSize(m) == if InfoChunk(m) == [] then 0 else |InfoChunk(m)[0].body|
    ensures AdtlSize(m) == if AdtlChunk(m) == [] then 0 else |AdtlChunk(m)[0].body|
    ensures forall k :: 0 <= k < |InfoChunk(m)| ==> InfoChunk(m)[k].size == |InfoChunk(m)[k].body|
    ensures forall k :: 0 <= k < |AdtlChunk(m)| ==> AdtlChunk(m)[k].size == |AdtlChunk(m)[k].body|
  {
    hide U32, U16;
  }

  function Even(n: nat): (e: nat)
    ensures e == n + PaddingSize(n)
  {
    if n % 2 != 0 then n + 1 else n
  }

  /** What the size of the INFO list grows by for one piece of metadata, empty or not. */
  function InfoShare(m: Known): nat {
    if m.InfoText? then 8 + (|m.text| + 1) else if m.Unknown? && m.location == InsideInfoList then 8 + |m.data| else 0
  }

  function AdtlShare(m: Known): nat {
    if m.LabelOrNote? then 8 + LABEL_OR_NOTE_BYTES + if |m.text| > 0 then |m.text| + 1 else 0
    else if m.LabelledCueRegion? then 8 + LABELLED_TEXT_BYTES + if |m.text| > 0 then |m.text| + 1 else 0
    else if m.Unknown? && m.location == InsideAdtlList then 8 + |m.data|
    else 0
  }

  /** The size field of the INFO list, as it is added up. */
  function InfoListSize(ms: seq<Known>): nat {
    if ms == [] then 4 else Even(InfoListSize(ms[..|ms| - 1]) + InfoShare(ms[|ms| - 1]))
  }

  function AdtlListSize(ms: seq<Known>): nat {
    if ms == [] then 4 else Even(AdtlListSize(ms[..|ms| - 1]) + AdtlShare(ms[|ms| - 1]))
  }

  // ---------- Bytes ----------

  function ChunkBytes(c: Chunk): seq<Byte> {
    c.id + U32(c.size) + c.body + Padding(c.size)
  }

  function Bytes(c: seq<Chunk>): seq<Byte> {
    if c == [] then [] else Bytes(c[..|c| - 1]) + ChunkBytes(c[|c| - 1])
  }

  function TopBytes(ms: seq<Known>): seq<Byte> {
    if ms == [] then [] else TopBytes(ms[..|ms| - 1]) + Bytes(TopChunk(ms[|ms| - 1]))
  }

  function InfoBytes(ms: seq<Known>): seq<Byte> {
    if ms == [] then [] else InfoBytes(ms[..|ms| - 1]) + Bytes(InfoChunk(ms[|ms| - 1]))
  }

  function AdtlBytes(ms: seq<Known>): seq<Byte> {
    if ms == [] then [] else AdtlBytes(ms[..|ms| - 1]) + Bytes(AdtlChunk(ms[|ms| - 1]))
  }

  function ListTag(): (t: seq<Byte>) ensures |t| == 4 { [0x4c, 0x49, 0x53, 0x54] }

  function InfoTag(): (t: seq<Byte>) ensures |t| == 4 { [0x49, 0x4e, 0x46, 0x4f] }

  function AdtlTag(): (t: seq<Byte>) ensures |t| == 4 { [0x61, 0x64, 0x74, 0x6c] }

  predicate HasInfo(ms: seq<Known>) {
    exists k :: 0 <= k < |ms| && InInfoList(ms[k])
  }

  predicate HasAdtl(ms: seq<Known>) {
    exists k :: 0 <= k < |ms| && InAdtlList(ms[k])
  }

  /** All that writing mode emits. */
  function Emitted(ms: seq<Known>): seq<Byte> {
    TopBytes(ms)
    + (if HasInfo(ms) then ListTag() + U32(InfoListSize(ms)) + InfoTag() + InfoBytes(ms) else [])
    + (if HasAdtl(ms) then ListTag() + U32(AdtlListSize(ms)) + AdtlTag() + AdtlBytes(ms) else [])
  }

  lemma ChunkIsEven(c: Chunk)
    requires |c.id| == 4 && c.size == |c.body|
    ensures |ChunkBytes(c)| == Even(8 + |c.body|) && |ChunkBytes(c)| % 2 == 0
  {
    hide U32;
  }

  lemma AtMostOne(c: seq<Chunk>)
    requires |c| <= 1
    ensures Bytes(c) == if c == [] then [] else ChunkBytes(c[0])
  {
    if c != [] {
      assert c[..0] == [];
    }
  }

  lemma EvenAdds(a: nat, b: nat)
    requires a % 2 == 0
    ensures Even(a + b) == a + Even(b) && (a + Even(b)) % 2 == 0
    ensures b % 2 == 0 ==> Even(b) == b && (a + b) % 2 == 0
  {
  }

  lemma TopShareIsEven(m: Known)
    ensures |Bytes(TopChunk(m))| % 2 == 0
  {
    hide TopChunk, ChunkBytes;
    TopSizeIsRight(m);
    var c := TopChunk(m);
    AtMostOne(c);
    if c != [] {
      ChunkIsEven(c[0]);
    }
  }

  lemma {:induction false} TopIsEven(ms: seq<Known>)
    ensures |TopBytes(ms)| % 2 == 0
  {
    hide TopChunk, Bytes;
    if ms != [] {
      TopIsEven(ms[..|ms| - 1]);
      TopShareIsEven(ms[|ms| - 1]);
      EvenAdds(|TopBytes(ms[..|ms| - 1])|, |Bytes(TopChunk(ms[|ms| - 1]))|);
    }
  }

  /** Empty pieces that are counted but not written. */
  predicate InfoEmpty(m: Known) {
    (m.InfoText? && m.text == []) || (m.Unknown? && m.location == InsideInfoList && m.data == [])
  }

  predicate AdtlEmpty(m: Known) {
    m.LabelOrNote? && m.text == []
  }

  lemma InfoShareIsPayload(m: Known)
    ensures |Bytes(InfoChunk(m))| == if InfoEmpty(m) then 0 else Even(InfoShare(m))
    ensures InfoEmpty(m) ==> InfoShare(m) > 0
  {
    hide ChunkBytes;
    ListedSizesAreRight(m);
    var c := InfoChunk(m);
    AtMostOne(c);
    if c != [] {
      ChunkIsEven(c[0]);
    }
  }

  lemma AdtlShareIsPayload(m: Known)
    ensures |Bytes(AdtlChunk(m))| == if AdtlEmpty(m) then 0 else Even(AdtlShare(m))
    ensures AdtlEmpty(m) ==> AdtlShare(m) > 0
  {
    hide ChunkBytes, U32, U16;
    ListedSizesAreRight(m);
    var c := AdtlChunk(m);
    AtMostOne(c);
    if c != [] {
      ChunkIsEven(c[0]);
    }
  }

  /** A list's size field is its payload exactly when nothing in it is empty; otherwise it is larger. */
  lemma {:induction false} InfoSizeIsPayload(ms: seq<Known>)
    ensures 4 + |InfoBytes(ms)| <= InfoListSize(ms) && InfoListSize(ms) % 2 == 0 && |InfoBytes(ms)| % 2 == 0
    ensures InfoListSize(ms) == 4 + |InfoBytes(ms)| <==> forall k :: 0 <= k < |ms| ==> !InfoEmpty(ms[k])
  {
    hide InfoChunk, Bytes, InfoShare, InfoEmpty;
    if ms != [] {
      var n := |ms| - 1;
      InfoSizeIsPayload(ms[..n]);
      InfoShareIsPayload(ms[n]);
      EvenAdds(InfoListSize(ms[..n]), InfoShare(ms[n]));
      EvenAdds(|InfoBytes(ms[..n])|, |Bytes(InfoChunk(ms[n]))|);
      assert forall k :: 0 <= k < n ==> ms[..n][k] == ms[k];
    }
  }

  lemma {:induction false} AdtlSizeIsPayload(ms: seq<Known>)
    ensures 4 + |AdtlBytes(ms)| <= AdtlListSize(ms) && AdtlListSize(ms) % 2 == 0 && |AdtlBytes(ms)| % 2 == 0
    ensures AdtlListSize(ms) == 4 + |AdtlBytes(ms)| <==> forall k :: 0 <= k < |ms| ==> !AdtlEmpty(ms[k])
  {
    hide AdtlChunk, Bytes, AdtlShare, AdtlEmpty;
    if ms != [] {
      var n := |ms| - 1;
      AdtlSizeIsPayload(ms[..n]);
      AdtlShareIsPayload(ms[n]);
      EvenAdds(AdtlListSize(ms[..n]), AdtlShare(ms[n]));
      EvenAdds(|AdtlBytes(ms[..n])|, |Bytes(AdtlChunk(ms[n]))|);
      assert forall k :: 0 <= k < n ==> ms[..n][k] == ms[k];
    }
  }

  /** The number of bytes is even, whatever the metadata. */
  lemma EmittedIsEven(ms: seq<Known>)
    ensures |Emitted(ms)| % 2 == 0
  {
    hide TopBytes, InfoBytes, AdtlBytes, U32, InfoListSize, AdtlListSize, HasInfo, HasAdtl;
    TopIsEven(ms);
    InfoSizeIsPayload(ms);
    AdtlSizeIsPayload(ms);
  }

  /** One empty title, or one empty label: a size field of 14 or 16 in front of four bytes. */
  lemma EmptyTextCounted()
    ensures var info, adtl := [InfoText(Title, [])], [LabelOrNote(false, 1, [])];
      && InfoListSize(info) == 14 && InfoBytes(info) == []
      && AdtlListSize(adtl) == 16 && AdtlBytes(adtl) == []
  {
    var title: Known, lab: Known := InfoText(Title, []), LabelOrNote(false, 1, []);
    assert [title][..0] == [] && [lab][..0] == [];
    assert InfoChunk(title) == [] && AdtlChunk(lab) == [];
  }

  // ---------- Counting or writing ----------

  /** No writer means counting mode; a writer stands at the end of its file. */
  ghost predicate Ready(w: Writer?)
    reads if w == null then {} else {w, w.file}
  {
    w != null ==> w.file.Valid() && w.file.currentWritePos == w.file.dataSize
  }

  ghost function Target(w: Writer?): set<object>
    reads if w == null then {} else {w, w.file}
  {
    if w == null then {} else {w.file, w.file.data}
  }

  /** What is in the file, nothing in counting mode. */
  ghost function Written(w: Writer?): seq<Byte>
    requires Ready(w)
    reads if w == null then {} else {w, w.file, w.file.data}
  {
    if w == null then [] else w.file.Contents()
  }

  twostate predicate SameOrFresh(w: Writer?)
    reads if w == null then {} else {w, w.file}
  {
    w != null ==> w.file.data == old(w.file.data) || fresh(w.file.data)
  }

  /** drwav__write_or_count and its variants */
  method WriteOrCount(w: Writer?, bytes: seq<Byte>) returns (n: nat)
    requires Ready(w)
    modifies Target(w)
    ensures Ready(w) && SameOrFresh(w) && n == |bytes|
    ensures w != null ==> Written(w) == old(Written(w)) + bytes
  {
    if w != null {
      w.Append(bytes);
    }
    n := |bytes|;
  }

  /** Tag, size, content and padding of one chunk; the padding goes by the number in the size field. */
  method WriteChunk(w: Writer?, c: Chunk) returns (n: nat)
    requires Ready(w)
    modifies Target(w)
    ensures Ready(w) && SameOrFresh(w) && n == |ChunkBytes(c)|
    ensures w != null ==> Written(w) == old(Written(w)) + ChunkBytes(c)
  {
    hide U32, Written, Ready;
    ghost var before := Written(w);
    var n0 := WriteOrCount(w, c.id);
    var n1 := WriteOrCount(w, U32(c.size));
    var n2 := WriteOrCount(w, c.body);
    var n3 := 0;
    if c.size % 2 != 0 {
      n3 := WriteOrCount(w, [0]);
    }
    n := n0 + n1 + n2 + n3;
    ChunkInOrder(before, c);
  }

  lemma ChunkInOrder(before: seq<Byte>, c: Chunk)
    ensures before + c.id + U32(c.size) + c.body + Padding(c.size) == before + ChunkBytes(c)
    ensures before + c.id + U32(c.size) + c.body + [] == before + c.id + U32(c.size) + c.body
  {
  }

  /** The chunk of one piece of metadata, if it has one. */
  method WriteAtMostOne(w: Writer?, c: seq<Chunk>) returns (n: nat)
    requires Ready(w) && |c| <= 1
    modifies Target(w)
    ensures Ready(w) && SameOrFresh(w) && n == |Bytes(c)|
    ensures w != null ==> Written(w) == old(Written(w)) + Bytes(c)
  {
    hide Written, Ready, ChunkBytes;
    AtMostOne(c);
    n := 0;
    if c != [] {
      n := WriteChunk(w, c[0]);
    }
  }

  /** drwav__write_or_count_metadata: counting returns the number of bytes that writing emits. */
  method WriteOrCountMetadata(w: Writer?, ms: seq<Known>) returns (bytesWritten: nat)
    requires Ready(w)
    modifies Target(w)
    ensures Ready(w) && bytesWritten == |Emitted(ms)|
    ensures w != null ==> Written(w) == old(Written(w)) + Emitted(ms)
  {
    hide Written, Ready, Bytes, U32, TopChunk, Emitted;
    ghost var before := Written(w);
    var hasListInfo, hasListAdtl := false, false;
    bytesWritten := 0;
    var k := 0;
    while k < |ms|
      invariant k <= |ms| && Ready(w) && SameOrFresh(w) && bytesWritten == |TopBytes(ms[..k])|
      invariant hasListInfo == HasInfo(ms[..k]) && hasListAdtl == HasAdtl(ms[..k])
      invariant w != null ==> Written(w) == before + TopBytes(ms[..k])
    {
      assert ms[..k + 1][..k] == ms[..k];
      HasNext(ms, k);
      if InInfoList(ms[k]) {
        hasListInfo := true;
      }
      if InAdtlList(ms[k]) {
        hasListAdtl := true;
      }
      var n := WriteAtMostOne(w, TopChunk(ms[k]));
      bytesWritten := bytesWritten + n;
      k := k + 1;
    }
    assert ms[..k] == ms;
    if hasListInfo {
      var n := WriteInfoList(w, ms);
      bytesWritten := bytesWritten + n;
    }
    if hasListAdtl {
      var n := WriteAdtlList(w, ms);
      bytesWritten := bytesWritten + n;
    }
    EmittedInOrder(before, ms);
  }

  lemma HasNext(ms: seq<Known>, k: nat)
    requires k < |ms|
    ensures HasInfo(ms[..k + 1]) <==> HasInfo(ms[..k]) || InInfoList(ms[k])
    ensures HasAdtl(ms[..k + 1]) <==> HasAdtl(ms[..k]) || InAdtlList(ms[k])
  {
    assert ms[..k + 1][k] == ms[k];
    assert forall i :: 0 <= i < k ==> ms[..k + 1][i] == ms[..k][i];
  }

  function InfoList(ms: seq<Known>): seq<Byte> {
    ListHead(InfoListSize(ms), InfoTag()) + InfoBytes(ms)
  }

  function AdtlList(ms: seq<Known>): seq<Byte> {
    ListHead(AdtlListSize(ms), AdtlTag()) + AdtlBytes(ms)
  }

  lemma EmittedInOrder(before: seq<Byte>, ms: seq<Known>)
    ensures var top := before + TopBytes(ms);
      var info := if HasInfo(ms) then top + InfoList(ms) else top;
      (if HasAdtl(ms) then info + AdtlList(ms) else info) == before + Emitted(ms)
    ensures |Emitted(ms)| == |TopBytes(ms)| + (if HasInfo(ms) then |InfoList(ms)| else 0)
                                           + (if HasAdtl(ms) then |AdtlList(ms)| else 0)
  {
    hide TopBytes, HasInfo, HasAdtl, U32, InfoBytes, AdtlBytes, InfoListSize, AdtlListSize;
  }

  /** Tag, size and type of a list. */
  function ListHead(size: nat, tag: seq<Byte>): seq<Byte> {
    ListTag() + U32(size) + tag
  }

  method WriteListHead(w: Writer?, size: nat, tag: seq<Byte>) returns (n: nat)
    requires Ready(w)
    modifies Target(w)
    ensures Ready(w) && SameOrFresh(w) && n == |ListHead(size, tag)|
    ensures w != null ==> Written(w) == old(Written(w)) + ListHead(size, tag)
  {
    hide Written, Ready, U32, ListTag;
    ghost var before := Written(w);
    var n0 := WriteOrCount(w, ListTag());
    var n1 := WriteOrCount(w, U32(size));
    var n2 := WriteOrCount(w, tag);
    n := n0 + n1 + n2;
    assert before + ListTag() + U32(size) + tag == before + ListHead(size, tag);
  }

  /** The size field of the INFO list, as the source adds it up. */
  method AddInfoSizes(ms: seq<Known>) returns (chunkSize: nat)
    ensures chunkSize == InfoListSize(ms)
  {
    hide InfoShare;
    chunkSize := 4;
    var k := 0;
    while k < |ms|
      invariant k <= |ms| && chunkSize == InfoListSize(ms[..k])
    {
      assert ms[..k + 1][..k] == ms[..k];
      chunkSize := chunkSize + InfoShare(ms[k]);
      if chunkSize % 2 != 0 {
        chunkSize := chunkSize + 1;
      }
      k := k + 1;
    }
    assert ms[..k] == ms;
  }

  /** The INFO list: its head, then its chunks. */
  method WriteInfoList(w: Writer?, ms: seq<Known>) returns (n: nat)
    requires Ready(w)
    modifies Target(w)
    ensures Ready(w) && SameOrFresh(w) && n == |InfoList(ms)|
    ensures w != null ==> Written(w) == old(Written(w)) + InfoList(ms)
  {
    hide Written, Ready, Bytes, U32, InfoChunk, InfoListSize, ListHead;
    var chunkSize := AddInfoSizes(ms);
    n := WriteListHead(w, chunkSize, InfoTag());
    ghost var before, head := old(Written(w)), ListHead(chunkSize, InfoTag());
    var k := 0;
    while k < |ms|
      invariant k <= |ms| && Ready(w) && SameOrFresh(w) && n == |head| + |InfoBytes(ms[..k])|
      invariant w != null ==> Written(w) == before + head + InfoBytes(ms[..k])
    {
      assert ms[..k + 1][..k] == ms[..k];
      var m := WriteAtMostOne(w, InfoChunk(ms[k]));
      n := n + m;
      k := k + 1;
    }
    assert ms[..k] == ms;
    assert before + head + InfoBytes(ms) == before + (head + InfoBytes(ms));
  }

  /** The size field of the adtl list. */
  method AddAdtlSizes(ms: seq<Known>) returns (chunkSize: nat)
    ensures chunkSize == AdtlListSize(ms)
  {
    hide AdtlShare;
    chunkSize := 4;
    var k := 0;
    while k < |ms|
      invariant k <= |ms| && chunkSize == AdtlListSize(ms[..k])
    {
      assert ms[..k + 1][..k] == ms[..k];
      chunkSize := chunkSize + AdtlShare(ms[k]);
      if chunkSize % 2 != 0 {
        chunkSize := chunkSize + 1;
      }
      k := k + 1;
    }
    assert ms[..k] == ms;
  }

  /** The adtl list, in the same way. */
  method WriteAdtlList(w: Writer?, ms: seq<Known>) returns (n: nat)
    requires Ready(w)
    modifies Target(w)
    ensures Ready(w) && SameOrFresh(w) && n == |AdtlList(ms)|
    ensures w != null ==> Written(w) == old(Written(w)) + AdtlList(ms)
  {
    hide Written, Ready, Bytes, U32, AdtlChunk, AdtlListSize, ListHead;
    var chunkSize := AddAdtlSizes(ms);
    n := WriteListHead(w, chunkSize, AdtlTag());
    ghost var before, head := old(Written(w)), ListHead(chunkSize, AdtlTag());
    var k := 0;
    while k < |ms|
      invariant k <= |ms| && Ready(w) && SameOrFresh(w) && n == |head| + |AdtlBytes(ms[..k])|
      invariant w != null ==> Written(w) == before + head + AdtlBytes(ms[..k])
    {
      assert ms[..k + 1][..k] == ms[..k];
      var m := WriteAtMostOne(w, AdtlChunk(ms[k]));
      n := n + m;
      k := k + 1;
    }
    assert ms[..k] == ms;
    assert before + head + AdtlBytes(ms) == before + (head + AdtlBytes(ms));
  }

  // ---------- The chunks tile what has been written ----------

  /** What the first chunk takes up, by its size field. */
  function FirstLength(b: seq<Byte>): (n: nat)
    requires |b| >= 8
    ensures n >= 8
  {
    8 + Even(FromU32(b[4..8]))
  }

  /** b is chunk after chunk: every size field is followed by that many bytes and, if odd, a padding byte. */
  ghost predicate IsChunkList(b: seq<Byte>)
    decreases |b|
  {
    b == [] || (|b| >= 8 && FirstLength(b) <= |b| && IsChunkList(b[FirstLength(b)..]))
  }

  lemma FirstLengthStays(a: seq<Byte>, b: seq<Byte>)
    requires |a| >= 8
    ensures FirstLength(a + b) == FirstLength(a)
  {
    assert (a + b)[4..8] == a[4..8];
  }

  lemma TailOfSum(a: seq<Byte>, b: seq<Byte>, n: nat)
    requires n <= |a|
    ensures (a + b)[n..] == a[n..] + b
  {
  }

  lemma {:induction false} ChunkListsAppend(a: seq<Byte>, b: seq<Byte>)
    requires IsChunkList(a) && IsChunkList(b)
    ensures IsChunkList(a + b)
    decreases |a|
  {
    hide FirstLength;
    if a == [] {
      assert a + b == b;
    } else {
      ChunkListsAppend(a[FirstLength(a)..], b);
      FirstLengthStays(a, b);
      TailOfSum(a, b, FirstLength(a));
    }
  }

  lemma OneChunkIsList(id: seq<Byte>, size: nat, body: seq<Byte>)
    requires |id| == 4 && size <= MAX_SIZE && |body| == Even(size)
    ensures IsChunkList(id + U32(size) + body)
  {
    var b := id + U32(size) + body;
    assert b[4..8] == U32(size);
    hide U32, FromU32;
    NumbersComeBack(size);
    assert b[8 + Even(size)..] == [];
  }

  lemma AtMostOneIsList(c: seq<Chunk>)
    requires |c| <= 1 && forall k :: 0 <= k < |c| ==> |c[k].id| == 4 && c[k].size == |c[k].body| <= MAX_SIZE
    ensures IsChunkList(Bytes(c))
  {
    hide U32;
    AtMostOne(c);
    if c != [] {
      var body := c[0].body + Padding(c[0].size);
      OneChunkIsList(c[0].id, c[0].size, body);
      assert c[0].id + U32(c[0].size) + body == ChunkBytes(c[0]);
    }
  }

  /** No chunk is too long for its size field. */
  predicate SizesFit(ms: seq<Known>) {
    && (forall k :: 0 <= k < |ms| ==> TopSize(ms[k]) <= MAX_SIZE)
    && InfoListSize(ms) <= MAX_SIZE && AdtlListSize(ms) <= MAX_SIZE
  }

  lemma {:induction false} ListSizesGrow(ms: seq<Known>, k: nat)
    requires k < |ms|
    ensures InfoListSize(ms) >= InfoShare(ms[k]) && AdtlListSize(ms) >= AdtlShare(ms[k])
  {
    hide InfoShare, AdtlShare;
    if k < |ms| - 1 {
      ListSizesGrow(ms[..|ms| - 1], k);
    }
  }

  lemma ListedChunksFit(m: Known)
    requires InfoShare(m) <= MAX_SIZE && AdtlShare(m) <= MAX_SIZE
    ensures forall k :: 0 <= k < |InfoChunk(m)| ==> |InfoChunk(m)[k].body| <= MAX_SIZE
    ensures forall k :: 0 <= k < |AdtlChunk(m)| ==> |AdtlChunk(m)[k].body| <= MAX_SIZE
  {
    hide U32, U16;
  }

  lemma {:induction false} TopTiles(ms: seq<Known>)
    requires forall k :: 0 <= k < |ms| ==> TopSize(ms[k]) <= MAX_SIZE
    ensures IsChunkList(TopBytes(ms))
  {
    hide TopChunk, TopSize, Bytes, IsChunkList;
    if ms != [] {
      var n := |ms| - 1;
      TopTiles(ms[..n]);
      TopSizeIsRight(ms[n]);
      AtMostOneIsList(TopChunk(ms[n]));
      ChunkListsAppend(TopBytes(ms[..n]), Bytes(TopChunk(ms[n])));
    } else {
      EmptyList();
    }
  }

  lemma EmptyList()
    ensures IsChunkList([])
  {
  }

  lemma {:induction false} InfoTiles(ms: seq<Known>)
    requires forall k :: 0 <= k < |ms| ==> InfoShare(ms[k]) <= MAX_SIZE && AdtlShare(ms[k]) <= MAX_SIZE
    ensures IsChunkList(InfoBytes(ms)) && IsChunkList(AdtlBytes(ms))
  {
    hide InfoChunk, AdtlChunk, InfoShare, AdtlShare, Bytes, IsChunkList;
    if ms != [] {
      var n := |ms| - 1;
      InfoTiles(ms[..n]);
      ListedChunksFit(ms[n]);
      ListedSizesAreRight(ms[n]);
      AtMostOneIsList(InfoChunk(ms[n]));
      AtMostOneIsList(AdtlChunk(ms[n]));
      ChunkListsAppend(InfoBytes(ms[..n]), Bytes(InfoChunk(ms[n])));
      ChunkListsAppend(AdtlBytes(ms[..n]), Bytes(AdtlChunk(ms[n])));
    } else {
      EmptyList();
    }
  }

  /** Without empty texts, labels, notes and unknown chunks in the INFO list, everything that is written is chunk after
      chunk, and so are the contents of both lists. */
  lemma EmittedTiles(ms: seq<Known>)
    requires SizesFit(ms) && forall k :: 0 <= k < |ms| ==> !InfoEmpty(ms[k]) && !AdtlEmpty(ms[k])
    ensures IsChunkList(Emitted(ms)) && IsChunkList(InfoBytes(ms)) && IsChunkList(AdtlBytes(ms))
  {
    hide IsChunkList, TopBytes, InfoBytes, AdtlBytes, InfoListSize, AdtlListSize, HasInfo, HasAdtl;
    hide InfoEmpty, AdtlEmpty, InfoShare, AdtlShare, TopSize, ListHead, Emitted;
    forall k | 0 <= k < |ms|
      ensures InfoShare(ms[k]) <= MAX_SIZE && AdtlShare(ms[k]) <= MAX_SIZE
    {
      ListSizesGrow(ms, k);
    }
    TopTiles(ms);
    InfoTiles(ms);
    InfoSizeIsPayload(ms);
    AdtlSizeIsPayload(ms);
    ListTiles(InfoListSize(ms), InfoTag(), InfoBytes(ms));
    ListTiles(AdtlListSize(ms), AdtlTag(), AdtlBytes(ms));
    EmittedInOrder([], ms);
    var first := if HasInfo(ms) then TopBytes(ms) + InfoList(ms) else TopBytes(ms);
    ChunkListsAppend(TopBytes(ms), InfoList(ms));
    ChunkListsAppend(first, AdtlList(ms));
    assert [] + TopBytes(ms) == TopBytes(ms) && [] + Emitted(ms) == Emitted(ms);
  }

  lemma ListTiles(size: nat, tag: seq<Byte>, bytes: seq<Byte>)
    requires |tag| == 4 && size == 4 + |bytes| <= MAX_SIZE && size % 2 == 0
    ensures IsChunkList(ListHead(size, tag) + bytes)
  {
    hide IsChunkList, U32;
    OneChunkIsList(ListTag(), size, tag + bytes);
    assert ListHead(size, tag) + bytes == ListTag() + U32(size) + (tag + bytes);
  }
}
