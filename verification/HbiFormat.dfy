/**
 * The HBI v1 container: a 112-byte header, a directory of 56-byte entries and
 * eight-byte aligned sections, with a checksum per section and one over all of
 * it.  `Encode` and `Open` state what the writer and the reader compute, error
 * by error and in the order the checks are made.
 */
module HbiFormat {
  import opened Prelude
  import opened Sorting
  import LE = LittleEndian

  const MAGIC: Bytes := [0x48, 0x42, 0x49, 0x00, 0x76, 0x31, 0x00, 0x00]
  const VERSION: nat := 1
  const ENDIAN_LITTLE: byte := 1
  const ALIGNMENT: byte := 8
  const HEADER_LEN: nat := 112
  const MAX_SECTIONS: nat := 4096

  type u32 = x: nat | x < 0x1_0000_0000
  type SchemaId = id: Bytes | |id| == 16 witness seq(16, _ => 0)

  datatype Error =
    | Truncated(what: string)
    | InvalidMagic
    | UnsupportedVersion(version: nat)
    | UnsupportedEndianness(marker: byte)
    | InvalidAlignment(alignment: byte)
    | NonZeroReserved
    | InvalidHeaderLength(length: nat)
    | TooManySections(count: nat)
    | LengthMismatch(declared: nat, actual: nat)
    | ArithmeticOverflow
    | MisalignedOffset(at: nat)
    | OutOfBounds(offset: nat, size: nat)
    | OverlappingSections
    | NonZeroPadding
    | DuplicateSectionKind(kind: nat)
    | ChecksumMismatch(which: string)

  datatype Section = Section(kind: u32, flags: u32, bytes: Bytes)
  datatype SectionInfo = SectionInfo(kind: u32, flags: u32, offset: nat, length: nat) {
    function End(): nat {
      offset + length
    }
  }
  datatype Metadata = Metadata(flags: u32, schemaId: SchemaId, fingerprint: Digest, totalLen: nat)
  datatype Reader = Reader(bytes: Bytes, metadata: Metadata, sections: seq<SectionInfo>)

  function KindOf(s: Section): int {
    s.kind
  }

  function OffsetOf(s: SectionInfo): int {
    s.offset
  }

  function Zeros(n: nat): (z: Bytes)
    ensures |z| == n
  {
    seq(n, _ => 0)
  }

  predicate AllZero(s: Bytes) {
    forall i :: 0 <= i < |s| ==> s[i] == 0
  }

  // ----- the pieces of a container -----

  /** The sixteen bytes every container starts with: magic, version, header length, layout, reserved. */
  function Preamble(): (r: Bytes)
    ensures |r| == 16
  {
    MAGIC + (LE.Encode(VERSION, 2) + (LE.Encode(HEADER_LEN, 2) + [ENDIAN_LITTLE, ALIGNMENT, 0, 0]))
  }

  function HeadBytes(flags: u32, count: nat, total: nat, id: SchemaId, fingerprint: Digest): (r: Bytes)
    ensures |r| == 80
  {
    Preamble()
    + (LE.Encode(flags, 4) + (LE.Encode(count, 4) + (LE.Encode(total, 8) + (id + fingerprint))))
  }

  function AggregateHead(flags: u32, count: nat, total: nat, id: SchemaId, fingerprint: Digest): Bytes {
    LE.Encode(VERSION, 2) + LE.Encode(HEADER_LEN, 2) + [ENDIAN_LITTLE, ALIGNMENT]
    + LE.Encode(flags, 4) + LE.Encode(count, 4) + LE.Encode(total, 8) + id + fingerprint
  }

  function InfoBytes(info: SectionInfo): (r: Bytes)
    ensures |r| == 24
  {
    LE.Encode(info.kind, 4) + (LE.Encode(info.flags, 4) + (LE.Encode(info.offset, 8) + LE.Encode(info.length, 8)))
  }

  function EntryBytes(info: SectionInfo, checksum: Digest): (r: Bytes)
    ensures |r| == 56
  {
    InfoBytes(info) + checksum
  }

  /** What the aggregate checksum hashes for the sections, in directory order. */
  function AggregateBody(infos: seq<SectionInfo>, contents: seq<Bytes>): Bytes
    requires |infos| == |contents|
  {
    if infos == [] then []
    else InfoBytes(infos[0]) + contents[0] + AggregateBody(infos[1..], contents[1..])
  }

  function Directory(sha: Sha256, infos: seq<SectionInfo>, contents: seq<Bytes>): (r: Bytes)
    requires |infos| == |contents|
    ensures |r| == 56 * |infos|
  {
    if infos == [] then []
    else EntryBytes(infos[0], sha(contents[0])) + Directory(sha, infos[1..], contents[1..])
  }

  // ----- the writer -----

  function Padded(value: nat): nat {
    (value + 7) / 8 * 8
  }

  function AlignUp(value: nat): (r: Result<nat, Error>)
    ensures r == if Padded(value) <= U64_MAX || value == Padded(value) then Ok(Padded(value)) else Err(ArithmeticOverflow)
  {
    var remainder := value % 8;
    if remainder == 0 then Ok(value)
    else if value + (8 - remainder) > U64_MAX then Err(ArithmeticOverflow)
    else Ok(value + (8 - remainder))
  }

  /** The total length, or the overflow the checked arithmetic runs into. */
  function Measure(sections: seq<Section>, at: nat): Result<nat, Error> {
    if sections == [] then AlignUp(at)
    else
      var start :- AlignUp(at);
      if start + |sections[0].bytes| > U64_MAX then Err(ArithmeticOverflow)
      else Measure(sections[1..], start + |sections[0].bytes|)
  }

  /** Where each section goes when the first free byte is `at`. */
  function Place(sections: seq<Section>, at: nat): (infos: seq<SectionInfo>)
    ensures |infos| == |sections|
  {
    if sections == [] then []
    else
      var s, offset := sections[0], Padded(at);
      [SectionInfo(s.kind, s.flags, offset, |s.bytes|)] + Place(sections[1..], offset + |s.bytes|)
  }

  function Contents(sections: seq<Section>): (r: seq<Bytes>)
    ensures |r| == |sections|
  {
    seq(|sections|, i requires 0 <= i < |sections| => sections[i].bytes)
  }

  /** The body: every section at its offset, zeros everywhere else up to `total`. */
  function Body(sections: seq<Section>, at: nat, total: nat): Bytes {
    if sections == [] then Zeros(if at <= total then total - at else 0)
    else
      Zeros(Padded(at) - at) + sections[0].bytes + Body(sections[1..], Padded(at) + |sections[0].bytes|, total)
  }

  /** The directory's end: a 112-byte header and `count` entries of 56 bytes. */
  function BodyStart(count: nat): nat {
    112 + 56 * count
  }

  function Checksum(sha: Sha256, meta: Metadata, infos: seq<SectionInfo>, contents: seq<Bytes>): Digest
    requires |infos| == |contents|
  {
    sha(AggregateHead(meta.flags, |infos|, meta.totalLen, meta.schemaId, meta.fingerprint)
        + AggregateBody(infos, contents))
  }

  function Image(sha: Sha256, meta: Metadata, sections: seq<Section>): Bytes {
    var start := BodyStart(|sections|);
    var infos, contents := Place(sections, start), Contents(sections);
    HeadBytes(meta.flags, |sections|, meta.totalLen, meta.schemaId, meta.fingerprint)
    + Checksum(sha, meta, infos, contents)
    + Directory(sha, infos, contents)
    + Body(sections, start, meta.totalLen)
  }

  predicate Twins(sections: seq<Section>, i: nat) {
    i + 1 < |sections| && sections[i].kind == sections[i + 1].kind
  }

  /** The kind of the first two neighbours that share one. */
  function FirstDuplicate(sections: seq<Section>): (r: Option<nat>)
    ensures r.None? <==> forall i: nat :: !Twins(sections, i)
  {
    if |sections| < 2 then None
    else if sections[0].kind == sections[1].kind then assert Twins(sections, 0); Some(sections[0].kind)
    else
      var rest := FirstDuplicate(sections[1..]);
      assert forall i: nat :: Twins(sections[1..], i) ==> Twins(sections, i + 1);
      assert forall i: nat :: Twins(sections, i) ==> i > 0 && Twins(sections[1..], i - 1);
      rest
  }

  function Encode(sha: Sha256, id: SchemaId, fingerprint: Digest, flags: u32, sections: seq<Section>)
    : Result<Bytes, Error>
  {
    if |sections| > MAX_SECTIONS then Err(TooManySections(|sections| % 0x1_0000_0000))
    else
      var sorted := SortBy(KindOf, sections);
      match FirstDuplicate(sorted)
      case Some(kind) => Err(DuplicateSectionKind(kind))
      case None =>
        var total :- Measure(sorted, BodyStart(|sorted|));
        Ok(Image(sha, Metadata(flags, id, fingerprint, total), sorted))
  }

  // ----- the reader -----

  function Get(b: Bytes, offset: nat, width: nat): (n: nat)
    requires offset + width <= |b|
    ensures n < LE.Pow256(width)
  {
    LE.Decode(b[offset..offset + width])
  }

  function EntryAt(b: Bytes, index: nat): SectionInfo
    requires BodyStart(index + 1) <= |b|
  {
    LE.Widths();
    var entry := BodyStart(index);
    SectionInfo(Get(b, entry, 4), Get(b, entry + 4, 4), Get(b, entry + 8, 8), Get(b, entry + 16, 8))
  }

  function ReadEntry(sha: Sha256, b: Bytes, directoryEnd: nat, index: nat): (r: Result<SectionInfo, Error>)
    requires BodyStart(index + 1) <= |b| <= U64_MAX
    ensures r.Ok? ==> r.value.End() <= |b|
  {
    var info := EntryAt(b, index);
    var entry := BodyStart(index);
    if info.offset % 8 != 0 then Err(MisalignedOffset(info.offset))
    else if info.End() > U64_MAX then Err(ArithmeticOverflow)
    else if info.offset < directoryEnd || info.End() > |b| then Err(OutOfBounds(info.offset, info.length))
    else if sha(b[info.offset..info.End()]) != b[entry + 24..entry + 56] then Err(ChecksumMismatch("section"))
    else Ok(info)
  }

  function ReadEntries(sha: Sha256, b: Bytes, count: nat, done: seq<SectionInfo>)
    : (r: Result<seq<SectionInfo>, Error>)
    requires |done| <= count && BodyStart(count) <= |b| <= U64_MAX
    requires forall s :: s in done ==> s.End() <= |b|
    ensures r.Ok? ==> |r.value| == count && forall s :: s in r.value ==> s.End() <= |b|
    decreases count - |done|
  {
    if |done| == count then Ok(done)
    else
      var info :- ReadEntry(sha, b, BodyStart(count), |done|);
      ReadEntries(sha, b, count, done + [info])
  }

  function CheckPadding(b: Bytes, ordered: seq<SectionInfo>, previousEnd: nat): Result<(), Error>
    requires previousEnd <= |b|
    requires forall s :: s in ordered ==> s.End() <= |b|
  {
    if ordered == [] then
      if AllZero(b[previousEnd..]) then Ok(()) else Err(NonZeroPadding)
    else
      assert ordered[0] in ordered && ordered[0].End() <= |b|;
      if ordered[0].offset < previousEnd then Err(OverlappingSections)
      else if !AllZero(b[previousEnd..ordered[0].offset]) then Err(NonZeroPadding)
      else CheckPadding(b, ordered[1..], ordered[0].End())
  }

  function Slices(b: Bytes, infos: seq<SectionInfo>): (r: seq<Bytes>)
    requires forall s :: s in infos ==> s.End() <= |b|
    ensures |r| == |infos|
    ensures forall i :: 0 <= i < |r| ==> infos[i].End() <= |b| && r[i] == b[infos[i].offset..infos[i].End()]
  {
    seq(|infos|, i requires 0 <= i < |infos| =>
        assert infos[i] in infos && infos[i].End() <= |b|;
        b[infos[i].offset..infos[i].End()])
  }

  lemma {:induction false} SortKeepsMembers(s: seq<SectionInfo>)
    ensures forall x :: x in SortBy(OffsetOf, s) <==> x in s
  {
    assert forall x :: x in s <==> x in multiset(s);
    assert forall x :: x in SortBy(OffsetOf, s) <==> x in multiset(SortBy(OffsetOf, s));
  }

  /** The checks up to the directory: everything that reads only the header. */
  function HeaderError(b: Bytes): Option<Error> {
    if |b| < HEADER_LEN then Some(Truncated("header"))
    else if b[..8] != MAGIC then Some(InvalidMagic)
    else if Get(b, 8, 2) != VERSION then Some(UnsupportedVersion(Get(b, 8, 2)))
    else if Get(b, 10, 2) != HEADER_LEN then Some(InvalidHeaderLength(Get(b, 10, 2)))
    else if b[12] != ENDIAN_LITTLE then Some(UnsupportedEndianness(b[12]))
    else if b[13] != ALIGNMENT then Some(InvalidAlignment(b[13]))
    else if b[14] != 0 || b[15] != 0 then Some(NonZeroReserved)
    else if Get(b, 20, 4) > MAX_SECTIONS then Some(TooManySections(Get(b, 20, 4)))
    else if Get(b, 24, 8) != |b| then Some(LengthMismatch(Get(b, 24, 8), |b|))
    else if BodyStart(Get(b, 20, 4)) > |b| then Some(Truncated("section directory"))
    else None
  }

  function MetadataOf(b: Bytes): Metadata
    requires |b| >= HEADER_LEN
  {
    LE.Widths();
    Metadata(Get(b, 16, 4), b[32..48], b[48..80], Get(b, 24, 8))
  }

  /** The checks that follow once the header is in order. */
  function OpenDirectory(sha: Sha256, b: Bytes): Result<Reader, Error>
    requires HeaderError(b).None?
  {
    LE.Widths();
    var count := Get(b, 20, 4);
    var sections :- ReadEntries(sha, b, count, []);
    SortKeepsMembers(sections);
    var _ :- CheckPadding(b, SortBy(OffsetOf, sections), BodyStart(count));
    if Checksum(sha, MetadataOf(b), sections, Slices(b, sections)) != b[80..112] then
      Err(ChecksumMismatch("content"))
    else
      Ok(Reader(b, MetadataOf(b), sections))
  }

  function Open(sha: Sha256, b: Bytes): Result<Reader, Error> {
    match HeaderError(b)
    case Some(e) => Err(e)
    case None => OpenDirectory(sha, b)
  }
}
