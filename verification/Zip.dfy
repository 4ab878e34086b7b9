/** The strict single-entry ZIP reader of `scripts/final-submission-gate.ts`, proved against a
    writer of the layout in sections 4.3.7 (local header), 4.3.9 (data descriptor), 4.3.12
    (central directory) and 4.3.16 (end record) of PKWARE APPNOTE 6.3. */
module Zip {
  import Crc
  import opened Options

  newtype Byte = x: int | 0 <= x < 256

  datatype Reason =
    | SizeInvalid
    | NoEndRecord
    | StructureNotCanonical
    | EntryInvalid
    | LocalEntryInvalid
    | InflateFailed
    | IntegrityCheckFailed
    | NotCanonicalJson

  datatype Result<+T> = Accepted(value: T) | Rejected(reason: Reason)

  const LOCAL_SIGNATURE := 0x04034b50
  const DESCRIPTOR_SIGNATURE := 0x08074b50
  const CENTRAL_SIGNATURE := 0x02014b50
  const END_SIGNATURE := 0x06054b50

  const STORED := 0
  const DEFLATED := 8

  /** The external services: inflateRawSync, Buffer.toString("utf8") and the final strict
      UTF-8 decode followed by JSON.parse. */
  datatype Services<!J> = Services(
    inflate: seq<Byte> -> Option<seq<Byte>>,
    utf8: seq<Byte> -> string,
    parse: seq<Byte> -> Option<J>)

  function Checksum(value: seq<Byte>): (crc: nat)
    ensures crc < 0x1_0000_0000
  {
    Crc.Checksum(seq(|value|, i requires 0 <= i < |value| => value[i] as bv8)) as nat
  }

  // ---- little-endian fields ----

  function ReadU16(s: seq<Byte>, at: nat): (n: nat)
    requires at + 2 <= |s|
    ensures n < 0x1_0000
  {
    s[at] as nat + 256 * (s[at + 1] as nat)
  }

  function ReadU32(s: seq<Byte>, at: nat): (n: nat)
    requires at + 4 <= |s|
    ensures n < 0x1_0000_0000
  {
    ReadU16(s, at) + 0x1_0000 * ReadU16(s, at + 2)
  }

  function U16(n: nat): (s: seq<Byte>)
    requires n < 0x1_0000
    ensures |s| == 2
  {
    [(n % 256) as Byte, (n / 256) as Byte]
  }

  function U32(n: nat): (s: seq<Byte>)
    requires n < 0x1_0000_0000
    ensures |s| == 4
  {
    U16(n % 0x1_0000) + U16(n / 0x1_0000)
  }

  /** Buffer.subarray, which clamps both ends. */
  function Subarray(s: seq<Byte>, from: nat, to: nat): seq<Byte>
    requires from <= to
  {
    s[(if from < |s| then from else |s|)..(if to < |s| then to else |s|)]
  }

  predicate At(s: seq<Byte>, at: nat, part: seq<Byte>) {
    at + |part| <= |s| && s[at..at + |part|] == part
  }

  lemma AtConcat(s: seq<Byte>, at: nat, x: seq<Byte>, y: seq<Byte>)
    ensures At(s, at, x + y) <==> At(s, at, x) && At(s, at + |x|, y)
  {
    if at + |x| + |y| <= |s| {
      var whole := s[at..at + |x + y|];
      assert whole[..|x|] == s[at..at + |x|] && whole[|x|..] == s[at + |x|..at + |x| + |y|];
      assert (x + y)[..|x|] == x && (x + y)[|x|..] == y;
      assert whole == whole[..|x|] + whole[|x|..];
    }
  }

  lemma U16AtIsRead(s: seq<Byte>, at: nat, n: nat)
    requires n < 0x1_0000
    ensures At(s, at, U16(n)) <==> at + 2 <= |s| && ReadU16(s, at) == n
  {
    if at + 2 <= |s| {
      assert s[at..at + 2] == [s[at], s[at + 1]];
    }
  }

  lemma U32AtIsRead(s: seq<Byte>, at: nat, n: nat)
    requires n < 0x1_0000_0000
    ensures At(s, at, U32(n)) <==> at + 4 <= |s| && ReadU32(s, at) == n
  {
    AtConcat(s, at, U16(n % 0x1_0000), U16(n / 0x1_0000));
    U16AtIsRead(s, at, n % 0x1_0000);
    U16AtIsRead(s, at + 2, n / 0x1_0000);
  }

  // ---- the writer ----

  /** Everything one single-entry archive records. The byte runs the reader never looks at
      (versions, times, attributes) are kept as raw bytes. */
  datatype Entry = Entry(
    localVersion: seq<Byte>, localTime: seq<Byte>, localName: seq<Byte>, localExtra: seq<Byte>,
    centralVersions: seq<Byte>, centralTime: seq<Byte>, centralAttributes: seq<Byte>,
    centralName: seq<Byte>, centralExtra: seq<Byte>, entryComment: seq<Byte>,
    archiveComment: seq<Byte>,
    flags: nat, compression: nat, crc: nat, size: nat, data: seq<Byte>)
  {
    predicate UsesDescriptor() {
      (flags / 8) % 2 == 1
    }

    predicate Encodable() {
      && |localVersion| == 2 && |localTime| == 4
      && |centralVersions| == 4 && |centralTime| == 4 && |centralAttributes| == 8
      && |localName| < 0x1_0000 && |localExtra| < 0x1_0000
      && |centralName| < 0x1_0000 && |centralExtra| < 0x1_0000
      && |entryComment| < 0x1_0000 && |archiveComment| < 0x1_0000
      && flags < 0x1_0000 && compression < 0x1_0000
      && crc < 0x1_0000_0000 && size < 0x1_0000_0000 && |data| < 0x1_0000_0000
      && CentralStart() < 0x1_0000_0000 && CentralSize() < 0x1_0000_0000
    }

    function DataStart(): nat {
      30 + |localName| + |localExtra|
    }

    function DataEnd(): nat {
      DataStart() + |data|
    }

    function CentralStart(): nat {
      DataEnd() + if UsesDescriptor() then 16 else 0
    }

    function CentralSize(): nat {
      46 + |centralName| + |centralExtra| + |entryComment|
    }

    function EndStart(): nat {
      CentralStart() + CentralSize()
    }
  }

  function LocalFixed(e: Entry): seq<Byte>
    requires e.Encodable()
  {
    var descriptor := e.UsesDescriptor();
    U32(LOCAL_SIGNATURE) + (e.localVersion + (U16(e.flags) + (U16(e.compression) + (e.localTime +
    (U32(if descriptor then 0 else e.crc) + (U32(if descriptor then 0 else |e.data|) +
    (U32(if descriptor then 0 else e.size) + (U16(|e.localName|) + U16(|e.localExtra|)))))))))
  }

  function Descriptor(e: Entry): seq<Byte>
    requires e.Encodable()
  {
    if e.UsesDescriptor() then
      U32(DESCRIPTOR_SIGNATURE) + (U32(e.crc) + (U32(|e.data|) + U32(e.size)))
    else
      []
  }

  function CentralFixed(e: Entry): seq<Byte>
    requires e.Encodable()
  {
    U32(CENTRAL_SIGNATURE) + (e.centralVersions + (U16(e.flags) + (U16(e.compression) +
    (e.centralTime + (U32(e.crc) + (U32(|e.data|) + (U32(e.size) + (U16(|e.centralName|) +
    (U16(|e.centralExtra|) + (U16(|e.entryComment|) + (e.centralAttributes + U32(0))))))))))))
  }

  function EndRecord(e: Entry): seq<Byte>
    requires e.Encodable()
  {
    U32(END_SIGNATURE) + (U16(0) + (U16(0) + (U16(1) + (U16(1) + (U32(e.CentralSize()) +
    (U32(e.CentralStart()) + (U16(|e.archiveComment|) + e.archiveComment)))))))
  }

  function LocalPart(e: Entry): seq<Byte>
    requires e.Encodable()
  {
    LocalFixed(e) + (e.localName + (e.localExtra + e.data))
  }

  function CentralPart(e: Entry): seq<Byte>
    requires e.Encodable()
  {
    CentralFixed(e) + (e.centralName + (e.centralExtra + e.entryComment))
  }

  /** The archive: local header, data, descriptor, central record and end record, no gaps. */
  function Write(e: Entry): seq<Byte>
    requires e.Encodable()
  {
    LocalPart(e) + (Descriptor(e) + (CentralPart(e) + EndRecord(e)))
  }

  // ---- what the fixed headers say, field by field ----

  predicate LocalReads(s: seq<Byte>, e: Entry) {
    && 30 <= |s|
    && ReadU32(s, 0) == LOCAL_SIGNATURE
    && At(s, 4, e.localVersion)
    && ReadU16(s, 6) == e.flags
    && ReadU16(s, 8) == e.compression
    && At(s, 10, e.localTime)
    && ReadU32(s, 14) == (if e.UsesDescriptor() then 0 else e.crc)
    && ReadU32(s, 18) == (if e.UsesDescriptor() then 0 else |e.data|)
    && ReadU32(s, 22) == (if e.UsesDescriptor() then 0 else e.size)
    && ReadU16(s, 26) == |e.localName|
    && ReadU16(s, 28) == |e.localExtra|
  }

  predicate DescriptorReads(s: seq<Byte>, at: nat, e: Entry) {
    e.UsesDescriptor() ==>
      && at + 16 <= |s|
      && ReadU32(s, at) == DESCRIPTOR_SIGNATURE
      && ReadU32(s, at + 4) == e.crc
      && ReadU32(s, at + 8) == |e.data|
      && ReadU32(s, at + 12) == e.size
  }

  predicate CentralReads(s: seq<Byte>, at: nat, e: Entry) {
    && at + 46 <= |s|
    && ReadU32(s, at) == CENTRAL_SIGNATURE
    && At(s, at + 4, e.centralVersions)
    && ReadU16(s, at + 8) == e.flags
    && ReadU16(s, at + 10) == e.compression
    && At(s, at + 12, e.centralTime)
    && ReadU32(s, at + 16) == e.crc
    && ReadU32(s, at + 20) == |e.data|
    && ReadU32(s, at + 24) == e.size
    && ReadU16(s, at + 28) == |e.centralName|
    && ReadU16(s, at + 30) == |e.centralExtra|
    && ReadU16(s, at + 32) == |e.entryComment|
    && At(s, at + 34, e.centralAttributes)
    && ReadU32(s, at + 42) == 0
  }

  predicate EndReads(s: seq<Byte>, at: nat, e: Entry) {
    && at + 22 + |e.archiveComment| == |s|
    && ReadU32(s, at) == END_SIGNATURE
    && ReadU16(s, at + 4) == 0
    && ReadU16(s, at + 6) == 0
    && ReadU16(s, at + 8) == 1
    && ReadU16(s, at + 10) == 1
    && ReadU32(s, at + 12) == e.CentralSize()
    && ReadU32(s, at + 16) == e.CentralStart()
    && ReadU16(s, at + 20) == |e.archiveComment|
    && At(s, at + 22, e.archiveComment)
  }

  lemma LocalLayout(s: seq<Byte>, e: Entry)
    requires e.Encodable()
    ensures At(s, 0, LocalFixed(e)) <==> LocalReads(s, e)
  {
    hide ReadU16, ReadU32, U16, U32, At;
    var none := e.UsesDescriptor();
    var p9 := U16(|e.localName|) + U16(|e.localExtra|);
    var p8 := U32(if none then 0 else e.size) + p9;
    var p7 := U32(if none then 0 else |e.data|) + p8;
    var p6 := U32(if none then 0 else e.crc) + p7;
    var p5 := e.localTime + p6;
    var p4 := U16(e.compression) + p5;
    var p3 := U16(e.flags) + p4;
    var p2 := e.localVersion + p3;
    AtConcat(s, 0, U32(LOCAL_SIGNATURE), p2);
    AtConcat(s, 4, e.localVersion, p3);
    AtConcat(s, 6, U16(e.flags), p4);
    AtConcat(s, 8, U16(e.compression), p5);
    AtConcat(s, 10, e.localTime, p6);
    AtConcat(s, 14, U32(if none then 0 else e.crc), p7);
    AtConcat(s, 18, U32(if none then 0 else |e.data|), p8);
    AtConcat(s, 22, U32(if none then 0 else e.size), p9);
    AtConcat(s, 26, U16(|e.localName|), U16(|e.localExtra|));
    U32AtIsRead(s, 0, LOCAL_SIGNATURE);
    U16AtIsRead(s, 6, e.flags);
    U16AtIsRead(s, 8, e.compression);
    U32AtIsRead(s, 14, if none then 0 else e.crc);
    U32AtIsRead(s, 18, if none then 0 else |e.data|);
    U32AtIsRead(s, 22, if none then 0 else e.size);
    U16AtIsRead(s, 26, |e.localName|);
    U16AtIsRead(s, 28, |e.localExtra|);
  }

  lemma DescriptorLayout(s: seq<Byte>, at: nat, e: Entry)
    requires e.Encodable()
    requires at + |Descriptor(e)| <= |s|
    ensures At(s, at, Descriptor(e)) <==> DescriptorReads(s, at, e)
  {
    hide ReadU16, ReadU32, U16, U32;
    if e.UsesDescriptor() {
      var p3 := U32(|e.data|) + U32(e.size);
      var p2 := U32(e.crc) + p3;
      AtConcat(s, at, U32(DESCRIPTOR_SIGNATURE), p2);
      AtConcat(s, at + 4, U32(e.crc), p3);
      AtConcat(s, at + 8, U32(|e.data|), U32(e.size));
      U32AtIsRead(s, at, DESCRIPTOR_SIGNATURE);
      U32AtIsRead(s, at + 4, e.crc);
      U32AtIsRead(s, at + 8, |e.data|);
      U32AtIsRead(s, at + 12, e.size);
    }
  }

  lemma CentralLayout(s: seq<Byte>, at: nat, e: Entry)
    requires e.Encodable()
    ensures At(s, at, CentralFixed(e)) <==> CentralReads(s, at, e)
  {
    hide ReadU16, ReadU32, U16, U32, At;
    var p12 := e.centralAttributes + U32(0);
    var p11 := U16(|e.entryComment|) + p12;
    var p10 := U16(|e.centralExtra|) + p11;
    var p9 := U16(|e.centralName|) + p10;
    var p8 := U32(e.size) + p9;
    var p7 := U32(|e.data|) + p8;
    var p6 := U32(e.crc) + p7;
    var p5 := e.centralTime + p6;
    var p4 := U16(e.compression) + p5;
    var p3 := U16(e.flags) + p4;
    var p2 := e.centralVersions + p3;
    AtConcat(s, at, U32(CENTRAL_SIGNATURE), p2);
    AtConcat(s, at + 4, e.centralVersions, p3);
    AtConcat(s, at + 8, U16(e.flags), p4);
    AtConcat(s, at + 10, U16(e.compression), p5);
    AtConcat(s, at + 12, e.centralTime, p6);
    AtConcat(s, at + 16, U32(e.crc), p7);
    AtConcat(s, at + 20, U32(|e.data|), p8);
    AtConcat(s, at + 24, U32(e.size), p9);
    AtConcat(s, at + 28, U16(|e.centralName|), p10);
    AtConcat(s, at + 30, U16(|e.centralExtra|), p11);
    AtConcat(s, at + 32, U16(|e.entryComment|), p12);
    AtConcat(s, at + 34, e.centralAttributes, U32(0));
    U32AtIsRead(s, at, CENTRAL_SIGNATURE);
    U16AtIsRead(s, at + 8, e.flags);
    U16AtIsRead(s, at + 10, e.compression);
    U32AtIsRead(s, at + 16, e.crc);
    U32AtIsRead(s, at + 20, |e.data|);
    U32AtIsRead(s, at + 24, e.size);
    U16AtIsRead(s, at + 28, |e.centralName|);
    U16AtIsRead(s, at + 30, |e.centralExtra|);
    U16AtIsRead(s, at + 32, |e.entryComment|);
    U32AtIsRead(s, at + 42, 0);
  }

  lemma EndLayout(s: seq<Byte>, at: nat, e: Entry)
    requires e.Encodable()
    requires at + |EndRecord(e)| == |s|
    ensures At(s, at, EndRecord(e)) <==> EndReads(s, at, e)
  {
    hide ReadU16, ReadU32, U16, U32, At;
    var p7 := U16(|e.archiveComment|) + e.archiveComment;
    var p6 := U32(e.CentralStart()) + p7;
    var p5 := U32(e.CentralSize()) + p6;
    var p4 := U16(1) + p5;
    var p3 := U16(1) + p4;
    var p2 := U16(0) + p3;
    var p1 := U16(0) + p2;
    AtConcat(s, at, U32(END_SIGNATURE), p1);
    AtConcat(s, at + 4, U16(0), p2);
    AtConcat(s, at + 6, U16(0), p3);
    AtConcat(s, at + 8, U16(1), p4);
    AtConcat(s, at + 10, U16(1), p5);
    AtConcat(s, at + 12, U32(e.CentralSize()), p6);
    AtConcat(s, at + 16, U32(e.CentralStart()), p7);
    AtConcat(s, at + 20, U16(|e.archiveComment|), e.archiveComment);
    U32AtIsRead(s, at, END_SIGNATURE);
    U16AtIsRead(s, at + 4, 0);
    U16AtIsRead(s, at + 6, 0);
    U16AtIsRead(s, at + 8, 1);
    U16AtIsRead(s, at + 10, 1);
    U32AtIsRead(s, at + 12, e.CentralSize());
    U32AtIsRead(s, at + 16, e.CentralStart());
    U16AtIsRead(s, at + 20, |e.archiveComment|);
  }

  predicate LocalTiles(s: seq<Byte>, e: Entry) {
    && LocalReads(s, e)
    && At(s, 30, e.localName)
    && At(s, 30 + |e.localName|, e.localExtra)
    && At(s, 30 + |e.localName| + |e.localExtra|, e.data)
  }

  predicate CentralTiles(s: seq<Byte>, at: nat, e: Entry) {
    && CentralReads(s, at, e)
    && At(s, at + 46, e.centralName)
    && At(s, at + 46 + |e.centralName|, e.centralExtra)
    && At(s, at + 46 + |e.centralName| + |e.centralExtra|, e.entryComment)
  }

  /** The buffer read header by header: every part in its place and nothing in between. */
  predicate Tiles(s: seq<Byte>, e: Entry) {
    && |s| == e.EndStart() + 22 + |e.archiveComment|
    && LocalTiles(s, e)
    && DescriptorReads(s, e.DataEnd(), e)
    && CentralTiles(s, e.CentralStart(), e)
    && EndReads(s, e.EndStart(), e)
  }

  lemma PartSizes(e: Entry)
    requires e.Encodable()
    ensures |LocalFixed(e)| == 30 && |LocalPart(e)| == e.DataEnd()
    ensures |CentralFixed(e)| == 46 && |CentralPart(e)| == e.CentralSize()
    ensures |EndRecord(e)| == 22 + |e.archiveComment|
    ensures |Descriptor(e)| == e.CentralStart() - e.DataEnd()
    ensures |Write(e)| == e.EndStart() + 22 + |e.archiveComment|
  {
    hide U16, U32;
  }

  lemma EqualsIffAtStart(s: seq<Byte>, t: seq<Byte>)
    ensures s == t <==> |s| == |t| && At(s, 0, t)
  {
    assert s[0..|s|] == s;
  }

  lemma FourParts(s: seq<Byte>, at: nat, a: seq<Byte>, b: seq<Byte>, c: seq<Byte>, d: seq<Byte>)
    ensures At(s, at, a + (b + (c + d))) <==>
      && At(s, at, a) && At(s, at + |a|, b)
      && At(s, at + |a| + |b|, c) && At(s, at + |a| + |b| + |c|, d)
  {
    hide At;
    AtConcat(s, at, a, b + (c + d));
    AtConcat(s, at + |a|, b, c + d);
    AtConcat(s, at + |a| + |b|, c, d);
  }

  lemma LocalPartLayout(s: seq<Byte>, e: Entry)
    requires e.Encodable()
    ensures At(s, 0, LocalPart(e)) <==> LocalTiles(s, e)
  {
    hide At, LocalFixed, LocalReads, Write, EndRecord, Descriptor, CentralPart, CentralFixed;
    PartSizes(e);
    FourParts(s, 0, LocalFixed(e), e.localName, e.localExtra, e.data);
    LocalLayout(s, e);
  }

  lemma CentralPartLayout(s: seq<Byte>, at: nat, e: Entry)
    requires e.Encodable()
    ensures At(s, at, CentralPart(e)) <==> CentralTiles(s, at, e)
  {
    hide At, CentralFixed, CentralReads, Write, EndRecord, Descriptor, LocalPart, LocalFixed;
    PartSizes(e);
    FourParts(s, at, CentralFixed(e), e.centralName, e.centralExtra, e.entryComment);
    CentralLayout(s, at, e);
  }

  /** A buffer is the writer's output exactly when its headers tile it. */
  lemma WrittenIffTiled(s: seq<Byte>, e: Entry)
    requires e.Encodable()
    ensures s == Write(e) <==> Tiles(s, e)
  {
    hide At, LocalPart, CentralPart, EndRecord, Descriptor,
      LocalTiles, CentralTiles, EndReads, DescriptorReads;
    PartSizes(e);
    EqualsIffAtStart(s, Write(e));
    FourParts(s, 0, LocalPart(e), Descriptor(e), CentralPart(e), EndRecord(e));
    LocalPartLayout(s, e);
    CentralPartLayout(s, e.CentralStart(), e);
    if |s| == |Write(e)| {
      DescriptorLayout(s, e.DataEnd(), e);
      EndLayout(s, e.EndStart(), e);
    }
  }

  // ---- the reader ----

  predicate SignatureAt(s: seq<Byte>, at: nat) {
    at + 22 <= |s| && ReadU32(s, at) == END_SIGNATURE
  }

  predicate LastSignature(s: seq<Byte>, at: nat) {
    SignatureAt(s, at) && forall later :: at < later <= |s| - 22 ==> !SignatureAt(s, later)
  }

  /** The backward scan: the last end-record signature a 16-bit comment length can reach. */
  method FindEndRecord(input: seq<Byte>) returns (found: Option<nat>)
    requires 22 <= |input|
    ensures found.Some? ==> LastSignature(input, found.value)
    ensures found.None? ==>
      forall at :: |input| - 22 - 65535 <= at <= |input| - 22 && 0 <= at ==> !SignatureAt(input, at)
  {
    var minimum := if |input| - 22 - 65535 > 0 then |input| - 22 - 65535 else 0;
    var offset := |input| - 22;
    found := None;
    while offset >= minimum
      invariant minimum - 1 <= offset <= |input| - 22
      invariant forall at :: offset < at <= |input| - 22 && 0 <= at ==> !SignatureAt(input, at)
    {
      if ReadU32(input, offset) == END_SIGNATURE {
        return Some(offset);
      }
      offset := offset - 1;
    }
  }

  predicate StructureOk(s: seq<Byte>, end: nat)
    requires end + 22 <= |s|
  {
    && ReadU16(s, end + 4) == 0
    && ReadU16(s, end + 6) == 0
    && ReadU16(s, end + 8) == 1
    && ReadU16(s, end + 10) == 1
    && end + 22 + ReadU16(s, end + 20) == |s|
    && ReadU32(s, end + 16) + ReadU32(s, end + 12) == end
    && 46 <= ReadU32(s, end + 12)
    && ReadU32(s, ReadU32(s, end + 16)) == CENTRAL_SIGNATURE
  }

  predicate FlagsOk(flags: nat) {
    flags == 0 || flags == 0x0008 || flags == 0x0800 || flags == 0x0808
  }

  predicate EntryOk(s: seq<Byte>, end: nat, path: string, utf8: seq<Byte> -> string)
    requires end + 22 <= |s| && StructureOk(s, end)
  {
    var central := ReadU32(s, end + 16);
    var nameLength := ReadU16(s, central + 28);
    && 46 + nameLength + ReadU16(s, central + 30) + ReadU16(s, central + 32) == ReadU32(s, end + 12)
    && utf8(Subarray(s, central + 46, central + 46 + nameLength)) == path
    && FlagsOk(ReadU16(s, central + 8))
    && (ReadU16(s, central + 10) == STORED || ReadU16(s, central + 10) == DEFLATED)
    && 2 <= ReadU32(s, central + 24) <= 65_536
    && ReadU32(s, central + 42) == 0
    && 30 <= central
    && ReadU32(s, 0) == LOCAL_SIGNATURE
  }

  /** The headers of the buffer as one entry record. */
  function EntryOf(s: seq<Byte>, end: nat): (e: Entry)
    requires end + 22 <= |s| && StructureOk(s, end)
    requires 30 <= ReadU32(s, end + 16)
  {
    var central := ReadU32(s, end + 16);
    var nameEnd := central + 46 + ReadU16(s, central + 28);
    var extraEnd := nameEnd + ReadU16(s, central + 30);
    var localNameEnd := 30 + ReadU16(s, 26);
    var dataStart := localNameEnd + ReadU16(s, 28);
    Entry(
      s[4..6], s[10..14], Subarray(s, 30, localNameEnd), Subarray(s, localNameEnd, dataStart),
      s[central + 4..central + 8], s[central + 12..central + 16], s[central + 34..central + 42],
      Subarray(s, central + 46, nameEnd), Subarray(s, nameEnd, extraEnd),
      Subarray(s, extraEnd, extraEnd + ReadU16(s, central + 32)),
      s[end + 22..],
      ReadU16(s, central + 8), ReadU16(s, central + 10), ReadU32(s, central + 16),
      ReadU32(s, central + 24),
      Subarray(s, dataStart, dataStart + ReadU32(s, central + 20)))
  }

  predicate LocalOk(s: seq<Byte>, end: nat, path: string, utf8: seq<Byte> -> string)
    requires end + 22 <= |s| && StructureOk(s, end) && EntryOk(s, end, path, utf8)
  {
    var central := ReadU32(s, end + 16);
    var flags, crc := ReadU16(s, central + 8), ReadU32(s, central + 16);
    var compressedSize, size := ReadU32(s, central + 20), ReadU32(s, central + 24);
    var dataStart := 30 + ReadU16(s, 26) + ReadU16(s, 28);
    var dataEnd := dataStart + compressedSize;
    && ReadU16(s, 6) == flags
    && ReadU16(s, 8) == ReadU16(s, central + 10)
    && utf8(Subarray(s, 30, 30 + ReadU16(s, 26))) == path
    && (if (flags / 8) % 2 == 1 then
          && dataEnd + 16 == central
          && ReadU32(s, dataEnd) == DESCRIPTOR_SIGNATURE
          && ReadU32(s, dataEnd + 4) == crc
          && ReadU32(s, dataEnd + 8) == compressedSize
          && ReadU32(s, dataEnd + 12) == size
          && ReadU32(s, 14) == 0 && ReadU32(s, 18) == 0 && ReadU32(s, 22) == 0
        else
          && dataEnd == central
          && ReadU32(s, 14) == crc && ReadU32(s, 18) == compressedSize && ReadU32(s, 22) == size)
  }

  function Decompress(compression: nat, data: seq<Byte>, inflate: seq<Byte> -> Option<seq<Byte>>): Option<seq<Byte>> {
    if compression == STORED then Some(data) else inflate(data)
  }

  /** What the reader may accept: exactly the writer's archives of one entry under the expected
      path, with no end signature hidden in the comment and an intact body. */
  ghost predicate Acceptable<J>(s: seq<Byte>, path: string, services: Services<J>, e: Entry, body: seq<Byte>) {
    && e.Encodable()
    && s == Write(e)
    && |s| <= 1_000_000
    && LastSignature(s, e.EndStart())
    && services.utf8(e.centralName) == path
    && services.utf8(e.localName) == path
    && FlagsOk(e.flags)
    && (e.compression == STORED || e.compression == DEFLATED)
    && 2 <= e.size <= 65_536
    && Decompress(e.compression, e.data, services.inflate) == Some(body)
    && |body| == e.size
    && Checksum(body) == e.crc
  }

  lemma TiledIsOk(s: seq<Byte>, path: string, utf8: seq<Byte> -> string, e: Entry)
    requires e.Encodable() && Tiles(s, e)
    requires utf8(e.centralName) == path && utf8(e.localName) == path && FlagsOk(e.flags)
    requires (e.compression == STORED || e.compression == DEFLATED) && 2 <= e.size <= 65_536
    ensures StructureOk(s, e.EndStart()) && EntryOk(s, e.EndStart(), path, utf8) && LocalOk(s, e.EndStart(), path, utf8)
  {
    hide ReadU16, ReadU32;
    assert Subarray(s, e.CentralStart() + 46, e.CentralStart() + 46 + |e.centralName|) == e.centralName;
    assert Subarray(s, 30, 30 + |e.localName|) == e.localName;
  }

  lemma TiledIsEntry(s: seq<Byte>, end: nat, e: Entry)
    requires end + 22 <= |s| && StructureOk(s, end) && 30 <= ReadU32(s, end + 16)
    requires e.Encodable() && Tiles(s, e) && end == e.EndStart()
    ensures EntryOf(s, end) == e
  {
    hide ReadU16, ReadU32;
  }

  lemma AcceptableReads<J>(s: seq<Byte>, path: string, services: Services<J>, e: Entry, body: seq<Byte>, end: nat)
    requires Acceptable(s, path, services, e, body)
    requires LastSignature(s, end)
    ensures end == e.EndStart() && end + 22 + |e.archiveComment| == |s|
    ensures StructureOk(s, end) && EntryOk(s, end, path, services.utf8) && LocalOk(s, end, path, services.utf8)
    ensures e == EntryOf(s, end)
    ensures Decompress(e.compression, e.data, services.inflate) == Some(body)
    ensures |body| == e.size && Checksum(body) == e.crc
  {
    hide Write, ReadU16, ReadU32, Checksum, LocalTiles, CentralTiles, DescriptorReads, EntryOf, LastSignature;
    WrittenIffTiled(s, e);
    OneLastSignature(s, end, e.EndStart());
    TiledIsOk(s, path, services.utf8, e);
    TiledIsEntry(s, end, e);
  }

  lemma OneLastSignature(s: seq<Byte>, a: nat, b: nat)
    requires LastSignature(s, a) && LastSignature(s, b)
    ensures a == b
  {
    hide ReadU32;
    assert SignatureAt(s, a) && SignatureAt(s, b);
  }

  lemma EntryShape(s: seq<Byte>, end: nat, path: string, utf8: seq<Byte> -> string)
    requires end + 22 <= |s|
    requires StructureOk(s, end) && EntryOk(s, end, path, utf8) && LocalOk(s, end, path, utf8)
    ensures var e := EntryOf(s, end); var central := ReadU32(s, end + 16);
            && e.Encodable()
            && e.CentralStart() == central && e.EndStart() == end
            && |e.localName| == ReadU16(s, 26) && |e.localExtra| == ReadU16(s, 28)
            && |e.data| == ReadU32(s, central + 20)
            && |e.centralName| == ReadU16(s, central + 28)
            && |e.centralExtra| == ReadU16(s, central + 30)
            && |e.entryComment| == ReadU16(s, central + 32)
            && |e.archiveComment| == ReadU16(s, end + 20)
  {
    hide ReadU16, ReadU32;
  }

  lemma EntryTiles(s: seq<Byte>, end: nat, path: string, utf8: seq<Byte> -> string)
    requires SignatureAt(s, end)
    requires StructureOk(s, end) && EntryOk(s, end, path, utf8) && LocalOk(s, end, path, utf8)
    ensures EntryOf(s, end).Encodable() && Tiles(s, EntryOf(s, end))
    ensures EntryOf(s, end).EndStart() == end
  {
    hide ReadU16, ReadU32;
    EntryShape(s, end, path, utf8);
    var e := EntryOf(s, end);
    assert LocalTiles(s, e) && DescriptorReads(s, e.DataEnd(), e);
    assert CentralTiles(s, e.CentralStart(), e);
    assert EndReads(s, end, e);
  }

  lemma ReadsAcceptable<J>(s: seq<Byte>, path: string, services: Services<J>, body: seq<Byte>, end: nat)
    requires |s| <= 1_000_000 && LastSignature(s, end)
    requires StructureOk(s, end) && EntryOk(s, end, path, services.utf8) && LocalOk(s, end, path, services.utf8)
    requires var e := EntryOf(s, end);
             && Decompress(e.compression, e.data, services.inflate) == Some(body)
             && |body| == e.size && Checksum(body) == e.crc
    ensures Acceptable(s, path, services, EntryOf(s, end), body)
  {
    hide Write, Tiles, ReadU16, ReadU32, Checksum;
    EntryTiles(s, end, path, services.utf8);
    WrittenIffTiled(s, EntryOf(s, end));
    EntryShape(s, end, path, services.utf8);
  }

  /** An accepted buffer determines every field of its entry, and its body. */
  lemma AcceptableUnique<J>(s: seq<Byte>, path: string, services: Services<J>,
                            e: Entry, body: seq<Byte>, f: Entry, other: seq<Byte>)
    requires Acceptable(s, path, services, e, body) && Acceptable(s, path, services, f, other)
    ensures e == f && body == other
  {
    assert LastSignature(s, e.EndStart());
    hide Acceptable, EntryOf;
    AcceptableReads(s, path, services, e, body, e.EndStart());
    AcceptableReads(s, path, services, f, other, e.EndStart());
  }

  /** No archive of the writer, whatever its entry, is this buffer. */
  ghost predicate Unacceptable<J>(s: seq<Byte>, path: string, services: Services<J>) {
    forall e, body :: !Acceptable(s, path, services, e, body)
  }

  /** The body an acceptable buffer holds, and no other. */
  ghost predicate Holds<J>(s: seq<Byte>, path: string, services: Services<J>, body: seq<Byte>) {
    && (exists e :: Acceptable(s, path, services, e, body))
    && forall e, other :: Acceptable(s, path, services, e, other) ==> other == body
  }

  /** At most one body is held, and none by an unacceptable buffer. */
  lemma HoldsOneBody<J>(s: seq<Byte>, path: string, services: Services<J>)
    ensures Unacceptable(s, path, services) ==> forall body :: !Holds(s, path, services, body)
    ensures forall body, other :: Holds(s, path, services, body) && Holds(s, path, services, other) ==> body == other
    ensures forall body :: Holds(s, path, services, body) ==> !Unacceptable(s, path, services)
  {
    hide Acceptable;
  }

  lemma AcceptableSignature<J>(s: seq<Byte>, path: string, services: Services<J>, e: Entry, body: seq<Byte>)
    requires Acceptable(s, path, services, e, body)
    ensures 22 <= |s| <= 1_000_000 && SignatureAt(s, e.EndStart())
    ensures |s| - 22 - 65535 <= e.EndStart() <= |s| - 22
  {
    hide Write, ReadU16, ReadU32, Checksum;
    WrittenIffTiled(s, e);
  }

  lemma NoEndRecordUnacceptable<J>(s: seq<Byte>, path: string, services: Services<J>)
    requires |s| < 22 || |s| > 1_000_000
      || forall at :: |s| - 22 - 65535 <= at <= |s| - 22 && 0 <= at ==> !SignatureAt(s, at)
    ensures Unacceptable(s, path, services)
  {
    hide Acceptable, ReadU32, SignatureAt;
    forall e, body | Acceptable(s, path, services, e, body) ensures false {
      AcceptableSignature(s, path, services, e, body);
    }
  }

  predicate Necessary(s: seq<Byte>, end: nat, path: string, utf8: seq<Byte> -> string)
    requires end + 22 <= |s|
  {
    StructureOk(s, end) && EntryOk(s, end, path, utf8) && LocalOk(s, end, path, utf8)
  }

  /** Each group of checks is necessary, and once all three pass only the body is left to check. */
  lemma ChecksDecide<J>(s: seq<Byte>, path: string, services: Services<J>, end: nat)
    requires |s| <= 1_000_000 && LastSignature(s, end)
    ensures !StructureOk(s, end) ==> Unacceptable(s, path, services)
    ensures StructureOk(s, end) && !EntryOk(s, end, path, services.utf8) ==> Unacceptable(s, path, services)
    ensures StructureOk(s, end) && EntryOk(s, end, path, services.utf8) && !LocalOk(s, end, path, services.utf8)
      ==> Unacceptable(s, path, services)
    ensures Necessary(s, end, path, services.utf8)
      ==> var e := EntryOf(s, end);
          match Decompress(e.compression, e.data, services.inflate)
          case None => Unacceptable(s, path, services)
          case Some(body) =>
            if |body| == e.size && Checksum(body) == e.crc then Holds(s, path, services, body)
            else Unacceptable(s, path, services)
  {
    hide Acceptable, EntryOf, ReadU16, ReadU32, Checksum, Decompress, LocalOk, Subarray;
    forall e, body | Acceptable(s, path, services, e, body)
      ensures StructureOk(s, end) && EntryOk(s, end, path, services.utf8)
      ensures LocalOk(s, end, path, services.utf8) && e == EntryOf(s, end)
      ensures Decompress(e.compression, e.data, services.inflate) == Some(body)
      ensures |body| == e.size && Checksum(body) == e.crc
    {
      AcceptableReads(s, path, services, e, body, end);
    }
    if Necessary(s, end, path, services.utf8) {
      var e := EntryOf(s, end);
      var output := Decompress(e.compression, e.data, services.inflate);
      if output.Some? && |output.value| == e.size && Checksum(output.value) == e.crc {
        ReadsAcceptable(s, path, services, output.value, end);
      }
    }
  }

  lemma EntryFields(s: seq<Byte>, end: nat)
    requires end + 22 <= |s| && StructureOk(s, end) && 30 <= ReadU32(s, end + 16)
    ensures var e, central := EntryOf(s, end), ReadU32(s, end + 16);
            var dataStart := 30 + ReadU16(s, 26) + ReadU16(s, 28);
            && e.compression == ReadU16(s, central + 10)
            && e.crc == ReadU32(s, central + 16)
            && e.size == ReadU32(s, central + 24)
            && e.data == Subarray(s, dataStart, dataStart + ReadU32(s, central + 20))
  {
  }

  /** The first block of checks: the end record. */
  method EndRecordIsCanonical(input: seq<Byte>, end: nat) returns (ok: bool)
    requires SignatureAt(input, end)
    ensures ok == StructureOk(input, end)
  {
    hide ReadU16, ReadU32;
    var disk := ReadU16(input, end + 4);
    var centralDisk := ReadU16(input, end + 6);
    var entriesOnDisk := ReadU16(input, end + 8);
    var entries := ReadU16(input, end + 10);
    var centralSize := ReadU32(input, end + 12);
    var centralOffset := ReadU32(input, end + 16);
    var commentLength := ReadU16(input, end + 20);
    if disk != 0 || centralDisk != 0 || entriesOnDisk != 1 || entries != 1
       || end + 22 + commentLength != |input| || centralOffset + centralSize != end
       || centralSize < 46 || ReadU32(input, centralOffset) != CENTRAL_SIGNATURE {
      return false;
    }
    ok := true;
  }

  /** The second: the central record, and where the local one starts. */
  method CentralEntryIsCanonical(input: seq<Byte>, end: nat, expectedPath: string, utf8: seq<Byte> -> string)
    returns (ok: bool)
    requires end + 22 <= |input| && StructureOk(input, end)
    ensures ok == EntryOk(input, end, expectedPath, utf8)
  {
    hide ReadU16, ReadU32, Subarray;
    var centralSize := ReadU32(input, end + 12);
    var centralOffset := ReadU32(input, end + 16);
    var flags := ReadU16(input, centralOffset + 8);
    var compression := ReadU16(input, centralOffset + 10);
    var uncompressedSize := ReadU32(input, centralOffset + 24);
    var nameLength := ReadU16(input, centralOffset + 28);
    var extraLength := ReadU16(input, centralOffset + 30);
    var entryCommentLength := ReadU16(input, centralOffset + 32);
    var localOffset := ReadU32(input, centralOffset + 42);
    var centralEntryEnd := centralOffset + 46 + nameLength + extraLength + entryCommentLength;
    var name := utf8(Subarray(input, centralOffset + 46, centralOffset + 46 + nameLength));
    if centralEntryEnd != centralOffset + centralSize || name != expectedPath || !FlagsOk(flags)
       || (compression != STORED && compression != DEFLATED)
       || uncompressedSize < 2 || uncompressedSize > 65_536 || localOffset != 0
       || localOffset + 30 > centralOffset || ReadU32(input, localOffset) != LOCAL_SIGNATURE {
      return false;
    }
    ok := true;
  }

  /** The third: the local record, the data's extent, and the descriptor. */
  method LocalEntryIsCanonical(input: seq<Byte>, end: nat, expectedPath: string, utf8: seq<Byte> -> string)
    returns (ok: bool)
    requires end + 22 <= |input| && StructureOk(input, end) && EntryOk(input, end, expectedPath, utf8)
    ensures ok == LocalOk(input, end, expectedPath, utf8)
  {
    hide ReadU16, ReadU32, Subarray;
    var centralOffset := ReadU32(input, end + 16);
    var flags := ReadU16(input, centralOffset + 8);
    var compression := ReadU16(input, centralOffset + 10);
    var expectedCrc := ReadU32(input, centralOffset + 16);
    var compressedSize := ReadU32(input, centralOffset + 20);
    var uncompressedSize := ReadU32(input, centralOffset + 24);
    var localOffset := ReadU32(input, centralOffset + 42);
    var localFlags := ReadU16(input, localOffset + 6);
    var localCompression := ReadU16(input, localOffset + 8);
    var localCrc := ReadU32(input, localOffset + 14);
    var localCompressedSize := ReadU32(input, localOffset + 18);
    var localUncompressedSize := ReadU32(input, localOffset + 22);
    var localNameLength := ReadU16(input, localOffset + 26);
    var localExtraLength := ReadU16(input, localOffset + 28);
    var localName := utf8(Subarray(input, localOffset + 30, localOffset + 30 + localNameLength));
    var dataStart := localOffset + 30 + localNameLength + localExtraLength;
    var dataEnd := dataStart + compressedSize;
    var exactTerminalStructure :=
      if (flags / 8) % 2 == 1 then
        && dataEnd + 16 == centralOffset
        && ReadU32(input, dataEnd) == DESCRIPTOR_SIGNATURE
        && ReadU32(input, dataEnd + 4) == expectedCrc
        && ReadU32(input, dataEnd + 8) == compressedSize
        && ReadU32(input, dataEnd + 12) == uncompressedSize
        && localCrc == 0 && localCompressedSize == 0 && localUncompressedSize == 0
      else
        && dataEnd == centralOffset
        && localCrc == expectedCrc && localCompressedSize == compressedSize
        && localUncompressedSize == uncompressedSize;
    if localFlags != flags || localCompression != compression || localName != expectedPath
       || dataStart > dataEnd || dataEnd > centralOffset || !exactTerminalStructure {
      return false;
    }
    ok := true;
  }

  /** What an accepted buffer looks like, in bytes: the three signatures, and that of the descriptor where
      bit 3 of the flags says there is one; one disk, one entry and no gap; flags that say nothing but that
      there is a descriptor or that the name is UTF-8; a body of 2 to 65536 bytes, stored or deflated. */
  predicate InBytes(s: seq<Byte>, end: nat, central: nat) {
    && 76 <= central + 46 <= end && end + 22 <= |s| <= 1_000_000
    && s[..4] == [0x50, 0x4b, 0x03, 0x04]
    && s[central..central + 4] == [0x50, 0x4b, 0x01, 0x02]
    && s[end..end + 12] == [0x50, 0x4b, 0x05, 0x06, 0, 0, 0, 0, 1, 0, 1, 0]
    && central == s[end + 16] as nat + 0x100 * s[end + 17] as nat + 0x1_0000 * s[end + 18] as nat
    && s[end + 19] == 0
    && |s| == end + 22 + s[end + 20] as nat + 0x100 * s[end + 21] as nat
    && s[central + 8..central + 10] in [[0, 0], [0x08, 0], [0, 0x08], [0x08, 0x08]]
    && s[6..8] == s[central + 8..central + 10]
    && s[central + 10..central + 12] in [[0, 0], [8, 0]]
    && s[8..10] == s[central + 10..central + 12]
    && (s[6] == 0x08 ==> central >= 46 && s[central - 16..central - 12] == [0x50, 0x4b, 0x07, 0x08])
    && var size := s[central + 24] as nat + 0x100 * s[central + 25] as nat + 0x1_0000 * s[central + 26] as nat;
       2 <= size <= 65_536 && s[central + 27] == 0
  }

  lemma InTwoBytes(s: seq<Byte>, at: nat, n: nat)
    requires at + 2 <= |s| && ReadU16(s, at) == n
    ensures s[at..at + 2] == [(n % 0x100) as Byte, (n / 0x100) as Byte]
  {
  }

  lemma InFourBytes(s: seq<Byte>, at: nat)
    requires at + 4 <= |s|
    ensures ReadU32(s, at) == s[at] as nat + 0x100 * s[at + 1] as nat + 0x1_0000 * s[at + 2] as nat
                              + 0x100_0000 * s[at + 3] as nat
    ensures ReadU32(s, at) <= 1_000_000 ==> s[at + 3] == 0
  {
  }

  lemma WordInBytes(s: seq<Byte>, at: nat, c: Byte, d: Byte)
    requires at + 4 <= |s|
    ensures ReadU32(s, at) == 0x4b50 + 0x1_0000 * c as nat + 0x100_0000 * d as nat
      <==> s[at..at + 4] == [0x50, 0x4b, c, d]
  {
    InFourBytes(s, at);
    hide ReadU32;
    SameDigits(s[at], s[at + 1], s[at + 2], s[at + 3], 0x50, 0x4b, c, d);
    assert s[at..at + 4] == [s[at], s[at + 1], s[at + 2], s[at + 3]];
  }

  lemma SameDigits(a: Byte, b: Byte, c: Byte, d: Byte, w: Byte, x: Byte, y: Byte, z: Byte)
    ensures a as nat + 0x100 * b as nat + 0x1_0000 * c as nat + 0x100_0000 * d as nat
         == w as nat + 0x100 * x as nat + 0x1_0000 * y as nat + 0x100_0000 * z as nat
      <==> a == w && b == x && c == y && d == z
  {
  }

  lemma SignaturesInBytes(s: seq<Byte>, at: nat)
    requires at + 4 <= |s|
    ensures ReadU32(s, at) == LOCAL_SIGNATURE <==> s[at..at + 4] == [0x50, 0x4b, 0x03, 0x04]
    ensures ReadU32(s, at) == CENTRAL_SIGNATURE <==> s[at..at + 4] == [0x50, 0x4b, 0x01, 0x02]
    ensures ReadU32(s, at) == DESCRIPTOR_SIGNATURE <==> s[at..at + 4] == [0x50, 0x4b, 0x07, 0x08]
    ensures ReadU32(s, at) == END_SIGNATURE <==> s[at..at + 4] == [0x50, 0x4b, 0x05, 0x06]
  {
    hide ReadU32;
    WordInBytes(s, at, 0x03, 0x04);
    WordInBytes(s, at, 0x01, 0x02);
    WordInBytes(s, at, 0x07, 0x08);
    WordInBytes(s, at, 0x05, 0x06);
  }

  lemma EndInBytes(s: seq<Byte>, end: nat)
    requires SignatureAt(s, end) && StructureOk(s, end)
    ensures s[end..end + 12] == [0x50, 0x4b, 0x05, 0x06, 0, 0, 0, 0, 1, 0, 1, 0]
    ensures |s| == end + 22 + s[end + 20] as nat + 0x100 * s[end + 21] as nat
  {
    SignaturesInBytes(s, end);
    InTwoBytes(s, end + 4, 0);
    InTwoBytes(s, end + 6, 0);
    InTwoBytes(s, end + 8, 1);
    InTwoBytes(s, end + 10, 1);
    assert ReadU16(s, end + 20) == s[end + 20] as nat + 0x100 * s[end + 21] as nat;
    hide ReadU16, ReadU32;
    assert s[end..end + 12] == s[end..end + 4] + s[end + 4..end + 6] + s[end + 6..end + 8] + s[end + 8..end + 10]
      + s[end + 10..end + 12];
  }

  lemma FlagsInBytes(flags: nat)
    requires FlagsOk(flags)
    ensures [(flags % 0x100) as Byte, (flags / 0x100) as Byte]
      in [[0 as Byte, 0], [0x08, 0], [0, 0x08], [0x08, 0x08]]
    ensures (flags / 8) % 2 == 1 <==> flags % 0x100 == 0x08
  {
  }

  lemma CentralInBytes(s: seq<Byte>, end: nat, path: string, utf8: seq<Byte> -> string)
    requires end + 22 <= |s| && StructureOk(s, end) && EntryOk(s, end, path, utf8)
    ensures var central := ReadU32(s, end + 16);
      && s[central..central + 4] == [0x50, 0x4b, 0x01, 0x02] && s[..4] == [0x50, 0x4b, 0x03, 0x04]
      && s[central + 8..central + 10] in [[0, 0], [0x08, 0], [0, 0x08], [0x08, 0x08]]
      && s[central + 10..central + 12] in [[0, 0], [8, 0]]
      && s[central + 27] == 0
      && 2 <= s[central + 24] as nat + 0x100 * s[central + 25] as nat + 0x1_0000 * s[central + 26] as nat <= 65_536
  {
    hide ReadU16, ReadU32, Subarray, FlagsOk;
    var central := ReadU32(s, end + 16);
    SignaturesInBytes(s, 0);
    SignaturesInBytes(s, central);
    InFourBytes(s, central + 24);
    FlagsInBytes(ReadU16(s, central + 8));
    InTwoBytes(s, central + 8, ReadU16(s, central + 8));
    InTwoBytes(s, central + 10, ReadU16(s, central + 10));
  }

  lemma LocalInBytes(s: seq<Byte>, end: nat, path: string, utf8: seq<Byte> -> string)
    requires end + 22 <= |s| && StructureOk(s, end) && EntryOk(s, end, path, utf8) && LocalOk(s, end, path, utf8)
    ensures var central := ReadU32(s, end + 16);
      && s[6..8] == s[central + 8..central + 10] && s[8..10] == s[central + 10..central + 12]
      && (s[6] == 0x08 ==> central >= 46 && s[central - 16..central - 12] == [0x50, 0x4b, 0x07, 0x08])
  {
    hide ReadU16, ReadU32, Subarray, FlagsOk;
    var central := ReadU32(s, end + 16);
    var flags := ReadU16(s, central + 8);
    FlagsInBytes(flags);
    InTwoBytes(s, central + 8, flags);
    InTwoBytes(s, 6, flags);
    InTwoBytes(s, central + 10, ReadU16(s, central + 10));
    InTwoBytes(s, 8, ReadU16(s, central + 10));
    if (flags / 8) % 2 == 1 {
      SignaturesInBytes(s, central - 16);
    }
  }

  lemma ChecksInBytes(s: seq<Byte>, end: nat, path: string, utf8: seq<Byte> -> string)
    requires SignatureAt(s, end) && |s| <= 1_000_000
    requires StructureOk(s, end) && EntryOk(s, end, path, utf8) && LocalOk(s, end, path, utf8)
    ensures InBytes(s, end, ReadU32(s, end + 16))
  {
    EndInBytes(s, end);
    InFourBytes(s, end + 16);
    CentralInBytes(s, end, path, utf8);
    LocalInBytes(s, end, path, utf8);
    hide ReadU16, ReadU32, Subarray, FlagsOk, LocalOk;
  }

  /** extractSingleJsonArtifact. It accepts exactly the writer's archives, and what it returns is
      the parse of the one body such an archive holds. */
  method ExtractSingleJsonArtifact<J>(input: seq<Byte>, expectedPath: string, services: Services<J>)
    returns (r: Result<J>)
    ensures forall body :: Holds(input, expectedPath, services, body) ==>
      r == match services.parse(body) case Some(j) => Accepted(j) case None => Rejected(NotCanonicalJson)
    ensures Unacceptable(input, expectedPath, services) <==> r.Rejected? && r.reason != NotCanonicalJson
    ensures Unacceptable(input, expectedPath, services)
      || exists body :: Holds(input, expectedPath, services, body)
    ensures r.Accepted? || r.reason == NotCanonicalJson ==> exists end, central :: InBytes(input, end, central)
  {
    hide ReadU16, ReadU32, Checksum, Acceptable, Unacceptable, Holds, EntryOf, Subarray, Decompress;
    HoldsOneBody(input, expectedPath, services);
    if |input| < 22 || |input| > 1_000_000 {
      NoEndRecordUnacceptable(input, expectedPath, services);
      return Rejected(SizeInvalid);
    }
    var found := FindEndRecord(input);
    if found.None? {
      NoEndRecordUnacceptable(input, expectedPath, services);
      return Rejected(NoEndRecord);
    }
    var end := found.value;
    ChecksDecide(input, expectedPath, services, end);

    var structured := EndRecordIsCanonical(input, end);
    if !structured {
      return Rejected(StructureNotCanonical);
    }
    var central := CentralEntryIsCanonical(input, end, expectedPath, services.utf8);
    if !central {
      return Rejected(EntryInvalid);
    }
    var local := LocalEntryIsCanonical(input, end, expectedPath, services.utf8);
    if !local {
      return Rejected(LocalEntryInvalid);
    }
    var centralOffset := ReadU32(input, end + 16);
    var compression := ReadU16(input, centralOffset + 10);
    var expectedCrc := ReadU32(input, centralOffset + 16);
    var uncompressedSize := ReadU32(input, centralOffset + 24);
    var dataStart := 30 + ReadU16(input, 26) + ReadU16(input, 28);
    var dataEnd := dataStart + ReadU32(input, centralOffset + 20);

    EntryFields(input, end);
    ChecksInBytes(input, end, expectedPath, services.utf8);
    var compressed := Subarray(input, dataStart, dataEnd);
    var output := Decompress(compression, compressed, services.inflate);
    if output.None? {
      return Rejected(InflateFailed);
    }
    var crc := ComputeChecksum(output.value);
    if |output.value| != uncompressedSize || crc != expectedCrc {
      return Rejected(IntegrityCheckFailed);
    }
    var parsed := services.parse(output.value);
    r := if parsed.Some? then Accepted(parsed.value) else Rejected(NotCanonicalJson);
  }

  method ComputeChecksum(value: seq<Byte>) returns (crc: nat)
    ensures crc == Checksum(value)
  {
    var register := Crc.Crc32(seq(|value|, i requires 0 <= i < |value| => value[i] as bv8));
    crc := register as nat;
  }

  // ---- what the comment may hold ----

  /** The last field of the end record: the comment with its length in front. */
  function Trailer(comment: seq<Byte>): (t: seq<Byte>)
    requires |comment| < 0x1_0000
    ensures |t| == 2 + |comment|
  {
    U16(|comment|) + comment
  }

  /** No end signature in the trailer that the scan could take: at least 18 bytes follow it. */
  predicate CommentIsClear(comment: seq<Byte>)
    requires |comment| < 0x1_0000
  {
    forall j :: 0 <= j <= |comment| - 20 ==> ReadU32(Trailer(comment), j) != END_SIGNATURE
  }

  lemma SignatureBytes(s: seq<Byte>, at: nat)
    requires at + 4 <= |s|
    ensures ReadU32(s, at) == END_SIGNATURE
      <==> s[at] == 0x50 && s[at + 1] == 0x4b && s[at + 2] == 0x05 && s[at + 3] == 0x06
  {
  }

  /** The end record's own fields hold no second signature: an archive within the size limit has
      sizes and offsets of at most three bytes. */
  lemma EndFieldsAreClear(s: seq<Byte>, e: Entry, d: nat)
    requires EndReads(s, e.EndStart(), e) && |s| <= 1_000_000 && 1 <= d < 20
    ensures !SignatureAt(s, e.EndStart() + d)
  {
    hide ReadU32;
    var end := e.EndStart();
    SignatureBytes(s, end);
    if SignatureAt(s, end + d) {
      SignatureBytes(s, end + d);
      TopByte(s, end + 12);
      TopByte(s, end + 16);
      if d < 12 {
        SmallBytes(s, end);
      }
    }
  }

  lemma TopByte(s: seq<Byte>, at: nat)
    requires at + 4 <= |s|
    ensures ReadU32(s, at) <= 1_000_000 ==> s[at + 3] == 0
  {
  }

  lemma SmallBytes(s: seq<Byte>, end: nat)
    requires end + 22 <= |s|
    ensures ReadU16(s, end + 4) == 0 ==> s[end + 4] == 0 && s[end + 5] == 0
    ensures ReadU16(s, end + 6) == 0 ==> s[end + 6] == 0 && s[end + 7] == 0
    ensures ReadU16(s, end + 8) == 1 ==> s[end + 8] == 1 && s[end + 9] == 0
    ensures ReadU16(s, end + 10) == 1 ==> s[end + 10] == 1 && s[end + 11] == 0
  {
  }

  lemma TrailerBytes(s: seq<Byte>, e: Entry, j: nat)
    requires e.Encodable() && EndReads(s, e.EndStart(), e) && j + 4 <= 2 + |e.archiveComment|
    ensures ReadU32(s, e.EndStart() + 20 + j) == ReadU32(Trailer(e.archiveComment), j)
  {
    hide ReadU32, U16;
    var end, trailer := e.EndStart(), Trailer(e.archiveComment);
    U16AtIsRead(s, end + 20, |e.archiveComment|);
    AtConcat(s, end + 20, U16(|e.archiveComment|), e.archiveComment);
    assert s[end + 20..end + 20 + |trailer|] == trailer;
    SameBytes(s, end + 20, trailer, j);
  }

  lemma SameBytes(s: seq<Byte>, at: nat, part: seq<Byte>, j: nat)
    requires At(s, at, part) && j + 4 <= |part|
    ensures ReadU32(s, at + j) == ReadU32(part, j)
  {
    assert forall k :: 0 <= k < |part| ==> part[k] == s[at..at + |part|][k] == s[at + k];
  }

  /** The scan finds the real end record exactly when the comment is clear. */
  lemma FoundIffClear(s: seq<Byte>, e: Entry)
    requires e.Encodable() && EndReads(s, e.EndStart(), e) && |s| <= 1_000_000
    ensures LastSignature(s, e.EndStart()) <==> CommentIsClear(e.archiveComment)
  {
    hide ReadU32, ReadU16, Trailer;
    var end, comment := e.EndStart(), e.archiveComment;
    if CommentIsClear(comment) {
      forall later | end < later <= |s| - 22
        ensures !SignatureAt(s, later)
      {
        var d := later - end;
        if d < 20 {
          EndFieldsAreClear(s, e, d);
        } else {
          TrailerBytes(s, e, d - 20);
          assert ReadU32(Trailer(comment), d - 20) != END_SIGNATURE;
        }
      }
    }
    if LastSignature(s, end) {
      forall j | 0 <= j <= |comment| - 20
        ensures ReadU32(Trailer(comment), j) != END_SIGNATURE
      {
        TrailerBytes(s, e, j);
        assert !SignatureAt(s, end + 20 + j);
      }
    }
  }

  /** The three ways not to be clear: the signature in the comment, or begun by its length. */
  lemma ClearExactly(comment: seq<Byte>)
    requires |comment| < 0x1_0000
    ensures CommentIsClear(comment) <==>
      && (forall k :: 0 <= k <= |comment| - 22 ==> ReadU32(comment, k) != END_SIGNATURE)
      && !(|comment| == 0x4b50 && comment[..2] == [0x05, 0x06])
      && !(0x5000 <= |comment| < 0x5100 && comment[..3] == [0x4b, 0x05, 0x06])
  {
    hide ReadU32;
    var trailer := Trailer(comment);
    if |comment| >= 20 {
      SignatureBytes(trailer, 0);
      assert trailer[2] == comment[0] && trailer[3] == comment[1];
    }
    if |comment| >= 21 {
      SignatureBytes(trailer, 1);
      assert trailer[2] == comment[0] && trailer[3] == comment[1] && trailer[4] == comment[2];
    }
    forall k | 0 <= k <= |comment| - 22
      ensures ReadU32(trailer, k + 2) == ReadU32(comment, k)
    {
      assert trailer[2..2 + |comment|] == comment;
      SameBytes(trailer, 2, comment, k);
    }
    forall j | 2 <= j <= |comment| - 20
      ensures ReadU32(trailer, j) == ReadU32(comment, j - 2)
    {
      assert j == (j - 2) + 2;
    }
  }

  /** A comment that hides the end record without containing the signature, and one that contains it. */
  lemma CommentsThatHide()
    ensures var comment: seq<Byte> := [0x05, 0x06] + seq(0x4b4e, i => 0);
      |comment| == 0x4b50 && !CommentIsClear(comment)
      && forall k :: 0 <= k <= |comment| - 4 ==> ReadU32(comment, k) != END_SIGNATURE
    ensures !CommentIsClear([0x50, 0x4b, 0x05, 0x06] + seq(18, i => 0))
  {
    hide CommentIsClear, ReadU32;
    var short: seq<Byte> := [0x50, 0x4b, 0x05, 0x06] + seq(18, i => 0);
    SignatureBytes(short, 0);
    ClearExactly(short);
    var comment: seq<Byte> := [0x05, 0x06] + seq(0x4b4e, i => 0);
    assert comment[..2] == [0x05, 0x06];
    ClearExactly(comment);
    forall k | 0 <= k <= |comment| - 4
      ensures ReadU32(comment, k) != END_SIGNATURE
    {
      SignatureBytes(comment, k);
    }
  }

  /** An archive with an intact body is acceptable as what was written exactly when it is within the
      size limit and its comment is clear. */
  lemma WrittenIsAcceptable<J>(e: Entry, path: string, services: Services<J>, body: seq<Byte>)
    requires e.Encodable() && services.utf8(e.localName) == services.utf8(e.centralName) == path
    requires (e.compression == STORED || e.compression == DEFLATED) && FlagsOk(e.flags) && 2 <= e.size <= 65_536
    requires Decompress(e.compression, e.data, services.inflate) == Some(body)
    requires |body| == e.size && Checksum(body) == e.crc
    ensures Acceptable(Write(e), path, services, e, body)
      <==> |Write(e)| <= 1_000_000 && CommentIsClear(e.archiveComment)
  {
    hide Checksum, Write, CommentIsClear, LastSignature, Decompress;
    WrittenIffTiled(Write(e), e);
    hide LocalTiles, CentralTiles, DescriptorReads, EndReads;
    if |Write(e)| <= 1_000_000 {
      FoundIffClear(Write(e), e);
    }
  }

  /** So with method 8 an intact deflated body is acceptable, and with method 0 an intact stored one. */
  lemma BothMethods<J>(e: Entry, path: string, services: Services<J>, body: seq<Byte>)
    requires e.Encodable() && services.utf8(e.localName) == services.utf8(e.centralName) == path
    requires e.flags in [0, 0x0008, 0x0800, 0x0808] && |Write(e)| <= 1_000_000 && CommentIsClear(e.archiveComment)
    requires 2 <= |body| == e.size <= 65_536 && Checksum(body) == e.crc
    ensures e.compression == 8 ==>
      (services.inflate(e.data) == Some(body) <==> Acceptable(Write(e), path, services, e, body))
    ensures e.compression == 0 ==> (e.data == body <==> Acceptable(Write(e), path, services, e, body))
  {
    hide Checksum, Write, CommentIsClear;
    if Decompress(e.compression, e.data, services.inflate) == Some(body) && (e.compression == 8 || e.compression == 0) {
      WrittenIsAcceptable(e, path, services, body);
    }
  }

  /** Two stored entries of one length that lay out the same buffer end at the same place. */
  lemma SameLayout(s: seq<Byte>, e: Entry, f: Entry)
    requires Tiles(s, e) && Tiles(s, f) && |e.data| == |f.data|
    ensures e.EndStart() == f.EndStart()
  {
    hide ReadU16, ReadU32, At;
  }

  /** Round trip: whatever the unread bytes and the archive comment, a stored body of 2 to 65536 bytes is
      recovered from its archive, with or without a data descriptor, exactly when the comment is clear. */
  lemma RoundTrip<J>(e: Entry, path: string, services: Services<J>)
    requires |e.localVersion| == 2 && |e.localTime| == 4
    requires |e.centralVersions| == 4 && |e.centralTime| == 4 && |e.centralAttributes| == 8
    requires |e.localName| < 0x1_0000 && |e.localExtra| < 0x1_0000
    requires |e.centralName| < 0x1_0000 && |e.centralExtra| < 0x1_0000 && |e.entryComment| < 0x1_0000
    requires |e.archiveComment| < 0x1_0000
    requires services.utf8(e.localName) == services.utf8(e.centralName) == path
    requires e.compression == STORED && FlagsOk(e.flags)
    requires 2 <= |e.data| <= 65_536 && e.size == |e.data| && e.crc == Checksum(e.data)
    ensures e.Encodable() && (Holds(Write(e), path, services, e.data) <==> CommentIsClear(e.archiveComment))
  {
    hide Acceptable, Write, Checksum, CommentIsClear, Tiles;
    PartSizes(e);
    WrittenIsAcceptable(e, path, services, e.data);
    forall f, other | Acceptable(Write(e), path, services, f, other)
      ensures CommentIsClear(e.archiveComment) ==> other == e.data
      ensures other == e.data ==> CommentIsClear(e.archiveComment)
    {
      if CommentIsClear(e.archiveComment) {
        AcceptableUnique(Write(e), path, services, e, e.data, f, other);
      } else if other == e.data {
        StoredAgain(e, path, services, f);
      }
    }
  }

  /** Nothing but a clear comment lets the stored data be read back. */
  lemma StoredAgain<J>(e: Entry, path: string, services: Services<J>, f: Entry)
    requires e.Encodable() && e.compression == STORED
    requires Acceptable(Write(e), path, services, f, e.data)
    ensures CommentIsClear(e.archiveComment)
  {
    hide Write, Checksum, CommentIsClear, LastSignature, ReadU16, ReadU32, At;
    var s := Write(e);
    WrittenIffTiled(s, e);
    WrittenIffTiled(s, f);
    assert f.compression == STORED;
    SameLayout(s, e, f);
    FoundIffClear(s, e);
  }
}
