/**
 * The container read off its own bytes: where each field lies, what is hashed,
 * and which fault each error names, in literal positions and values.
 */
module HbiBytes {
  import opened Prelude
  import opened Sorting
  import opened HbiFormat
  import opened HbiTheorems
  import opened HbiCommitment
  import LE = LittleEndian

  // ----- what the reader reports -----

  lemma {:induction false} GetIsWeighted(b: Bytes, p: nat)
    ensures p + 2 <= |b| ==> Get(b, p, 2) == LE.U16At(b, p)
    ensures p + 4 <= |b| ==> Get(b, p, 4) == LE.U32At(b, p)
    ensures p + 8 <= |b| ==> Get(b, p, 8) == LE.U64At(b, p)
  {
    if p + 2 <= |b| {
      LE.DecodePair(b, p);
    }
    if p + 4 <= |b| {
      LE.DecodeQuad(b, p);
    }
    if p + 8 <= |b| {
      LE.DecodeOctet(b, p);
    }
  }

  /** Section `i` of the directory, as its entry's bytes and the content they point to. */
  ghost predicate EntryIs(sha: Sha256, b: Bytes, i: nat, info: SectionInfo) {
    var e := 112 + 56 * i;
    && e + 56 <= |b| && info.offset + info.length <= |b|
    && info.kind == LE.U32At(b, e) && info.flags == LE.U32At(b, e + 4)
    && info.offset == LE.U64At(b, e + 8) && info.length == LE.U64At(b, e + 16)
    && b[e + 24..e + 56] == sha(b[info.offset..info.offset + info.length])
  }

  lemma {:induction false} EntryRead(sha: Sha256, b: Bytes, directoryEnd: nat, i: nat, info: SectionInfo)
    requires GoodEntry(sha, b, directoryEnd, i, info) && |b| <= U64_MAX
    ensures EntryIs(sha, b, i, info)
  {
    hide EntryBytes, Get;
    var e := BodyStart(i);
    EntryFields(b, i, info, sha(b[info.offset..info.End()]));
    GetIsWeighted(b, e);
    GetIsWeighted(b, e + 4);
    GetIsWeighted(b, e + 8);
    GetIsWeighted(b, e + 16);
  }

  /** An accepted container starts with these sixteen bytes, and the reader reports what lies at these places. */
  lemma {:induction false} ReaderReports(sha: Sha256, b: Bytes, r: Reader)
    requires Open(sha, b) == Ok(r)
    ensures |b| >= 112
    ensures b[..16] == [0x48, 0x42, 0x49, 0, 0x76, 0x31, 0, 0, 1, 0, 112, 0, 1, 8, 0, 0]
    ensures r.metadata.flags == LE.U32At(b, 16) && |r.sections| == LE.U32At(b, 20) && |b| == LE.U64At(b, 24) == r.metadata.totalLen
    ensures r.metadata.schemaId == b[32..48] && r.metadata.fingerprint == b[48..80]
    ensures forall i | 0 <= i < |r.sections| :: EntryIs(sha, b, i, r.sections[i])
  {
    hide Open, Get, HeadBytes, Checksum, EntryIs, PaddedWithZeros, SortBy, Disjoint;
    OpenGivesInBounds(sha, b, r);
    HeadFields(b, r.metadata.flags, |r.sections|, r.metadata.totalLen, r.metadata.schemaId, r.metadata.fingerprint);
    GetIsWeighted(b, 16);
    GetIsWeighted(b, 20);
    GetIsWeighted(b, 24);
    PreambleIs();
    forall i | 0 <= i < |r.sections|
      ensures EntryIs(sha, b, i, r.sections[i])
    {
      EntryRead(sha, b, BodyStart(|r.sections|), i, r.sections[i]);
    }
  }

  lemma {:induction false} PreambleIs()
    ensures Preamble() == [0x48, 0x42, 0x49, 0, 0x76, 0x31, 0, 0, 1, 0, 112, 0, 1, 8, 0, 0]
  {
    assert LE.Encode(1, 2) == [1] + LE.Encode(0, 1) && LE.Encode(0, 1) == [0] + LE.Encode(0, 0);
    assert LE.Encode(112, 2) == [112] + LE.Encode(0, 1);
  }

  // ----- what the checksum is the hash of -----

  /** For each of the first `n` entries, its first 24 bytes and the content it points to. */
  ghost function Stream(b: Bytes, infos: seq<SectionInfo>, n: nat): Bytes
    requires n <= |infos| && forall i | 0 <= i < n :: 112 + 56 * i + 24 <= |b| && infos[i].offset + infos[i].length <= |b|
  {
    if n == 0 then []
    else
      Stream(b, infos, n - 1)
      + b[112 + 56 * (n - 1)..112 + 56 * (n - 1) + 24]
      + b[infos[n - 1].offset..infos[n - 1].offset + infos[n - 1].length]
  }

  lemma {:induction false} BodyPush(infos: seq<SectionInfo>, contents: seq<Bytes>)
    requires |infos| == |contents| && infos != []
    ensures var n := |infos| - 1;
            AggregateBody(infos, contents) == AggregateBody(infos[..n], contents[..n]) + InfoBytes(infos[n]) + contents[n]
    decreases |infos|
  {
    hide InfoBytes;
    var n := |infos| - 1;
    if n == 0 {
      assert infos[1..] == [] && contents[1..] == [];
    } else {
      BodyPush(infos[1..], contents[1..]);
      assert infos[1..][..n - 1] == infos[..n][1..] && contents[1..][..n - 1] == contents[..n][1..];
      var head, rest := InfoBytes(infos[0]) + contents[0], AggregateBody(infos[..n][1..], contents[..n][1..]);
      assert AggregateBody(infos[..n], contents[..n]) == head + rest;
      assert head + (rest + InfoBytes(infos[n]) + contents[n]) == head + rest + InfoBytes(infos[n]) + contents[n];
    }
  }

  /** Every entry begins with the 24 bytes that describe its section. */
  ghost predicate Described(b: Bytes, infos: seq<SectionInfo>, contents: seq<Bytes>) {
    && |infos| == |contents|
    && forall i | 0 <= i < |infos| ::
         && 112 + 56 * i + 24 <= |b| && infos[i].offset + infos[i].length <= |b|
         && b[112 + 56 * i..112 + 56 * i + 24] == InfoBytes(infos[i])
         && b[infos[i].offset..infos[i].offset + infos[i].length] == contents[i]
  }

  lemma {:induction false} BodyIsStream(b: Bytes, infos: seq<SectionInfo>, contents: seq<Bytes>, n: nat)
    requires Described(b, infos, contents) && n <= |infos|
    ensures AggregateBody(infos[..n], contents[..n]) == Stream(b, infos, n)
    decreases n
  {
    hide InfoBytes, AggregateBody;
    if n == 0 {
      EmptyBody();
    } else {
      var m := n - 1;
      BodyIsStream(b, infos, contents, m);
      BodyPush(infos[..n], contents[..n]);
      assert infos[..n][..m] == infos[..m] && contents[..n][..m] == contents[..m];
      assert infos[..n][m] == infos[m] && contents[..n][m] == contents[m];
    }
  }

  lemma {:induction false} EmptyBody()
    ensures AggregateBody([], []) == []
  {
  }

  lemma {:induction false} GoodIsDescribed(sha: Sha256, b: Bytes, infos: seq<SectionInfo>)
    requires GoodEntries(sha, b, infos) && InBounds(b, infos)
    ensures Described(b, infos, Slices(b, infos))
  {
    hide InfoBytes, GoodEntry;
    forall i | 0 <= i < |infos|
      ensures 112 + 56 * i + 24 <= |b| && b[112 + 56 * i..112 + 56 * i + 24] == InfoBytes(infos[i])
    {
      EntryIsDescribed(sha, b, BodyStart(|infos|), i, infos[i]);
    }
  }

  lemma {:induction false} EntryIsDescribed(sha: Sha256, b: Bytes, directoryEnd: nat, i: nat, info: SectionInfo)
    requires GoodEntry(sha, b, directoryEnd, i, info)
    ensures 112 + 56 * i + 24 <= |b| && b[112 + 56 * i..112 + 56 * i + 24] == InfoBytes(info)
  {
    hide InfoBytes;
    var e := BodyStart(i);
    assert BodyStart(i + 1) == e + 56;
    SplitAt(b, e, InfoBytes(info), sha(b[info.offset..info.End()]));
  }

  /** The hashed header is the container's own, without its magic, its reserved bytes and the checksum itself. */
  lemma {:induction false} HeadIsHashed(b: Bytes, flags: u32, count: nat, total: nat, id: SchemaId, fingerprint: Digest)
    requires |b| >= 112 && b[..80] == HeadBytes(flags, count, total, id, fingerprint)
    ensures AggregateHead(flags, count, total, id, fingerprint) == b[8..14] + b[16..80]
  {
    hide LE.Encode;
    var head := HeadBytes(flags, count, total, id, fingerprint);
    var lead := LE.Encode(VERSION, 2) + (LE.Encode(HEADER_LEN, 2) + [ENDIAN_LITTLE, ALIGNMENT, 0, 0]);
    assert Preamble() == MAGIC + lead;
    var rest := LE.Encode(flags, 4) + (LE.Encode(count, 4) + (LE.Encode(total, 8) + (id + fingerprint)));
    assert head == MAGIC + lead + rest;
    assert b[8..14] == head[8..14] == lead[..6] && b[16..80] == head[16..80] == rest;
    assert lead[..6] == LE.Encode(VERSION, 2) + LE.Encode(HEADER_LEN, 2) + [ENDIAN_LITTLE, ALIGNMENT];
    var six := LE.Encode(VERSION, 2) + LE.Encode(HEADER_LEN, 2) + [ENDIAN_LITTLE, ALIGNMENT];
    assert six + LE.Encode(flags, 4) + LE.Encode(count, 4) + LE.Encode(total, 8) + id + fingerprint == six + rest;
  }

  /**
   * In every accepted container bytes 80 to 112 are the hash of bytes 8 to 14 and
   * 16 to 80 and, for each entry in directory order, its first 24 bytes and the
   * content it points to.
   */
  lemma {:induction false} ChecksumOfBytes(sha: Sha256, b: Bytes, r: Reader)
    requires Open(sha, b) == Ok(r)
    ensures |b| >= 112
    ensures forall i | 0 <= i < |r.sections| :: 112 + 56 * i + 24 <= |b| && r.sections[i].offset + r.sections[i].length <= |b|
    ensures b[80..112] == sha(b[8..14] + b[16..80] + Stream(b, r.sections, |r.sections|))
  {
    hide Open, AggregateHead, AggregateBody, HeadBytes, GoodEntries, Disjoint, PaddedWithZeros, SortBy, Stream;
    OpenGivesInBounds(sha, b, r);
    var infos, meta := r.sections, r.metadata;
    GoodIsDescribed(sha, b, infos);
    BodyIsStream(b, infos, Slices(b, infos), |infos|);
    assert infos[..|infos|] == infos && Slices(b, infos)[..|infos|] == Slices(b, infos);
    HeadIsHashed(b, meta.flags, |infos|, meta.totalLen, meta.schemaId, meta.fingerprint);
  }

  /** The same of everything the writer writes, with the sections it was given at the places the directory names. */
  lemma {:induction false} WriterHashesItsBytes(
    sha: Sha256, id: SchemaId, fingerprint: Digest, flags: u32, sections: seq<Section>, b: Bytes) returns (infos: seq<SectionInfo>)
    requires Encode(sha, id, fingerprint, flags, sections) == Ok(b)
    ensures |b| >= 112 && |infos| == |sections| == LE.U32At(b, 20) && flags == LE.U32At(b, 16) && |b| == LE.U64At(b, 24)
    ensures b[..16] == [0x48, 0x42, 0x49, 0, 0x76, 0x31, 0, 0, 1, 0, 112, 0, 1, 8, 0, 0]
    ensures id == b[32..48] && fingerprint == b[48..80]
    ensures forall i | 0 <= i < |infos| :: EntryIs(sha, b, i, infos[i])
    ensures forall i | 0 <= i < |infos| :: 112 + 56 * i + 24 <= |b| && infos[i].offset + infos[i].length <= |b|
    ensures b[80..112] == sha(b[8..14] + b[16..80] + Stream(b, infos, |infos|))
  {
    hide Open, Encode, SortBy, Stream, LE.U32At, LE.U64At, EntryIs, Shows;
    assert |SortBy(KindOf, sections)| == |sections|;
    RoundTrip(sha, id, fingerprint, flags, sections, b);
    var r := Open(sha, b).value;
    infos := r.sections;
    ReaderReports(sha, b, r);
    ChecksumOfBytes(sha, b, r);
  }

  // ----- which fault an error names -----

  ghost predicate Twice(keys: seq<int>, kind: int) {
    exists i, j :: 0 <= i < j < |keys| && keys[i] == kind == keys[j]
  }

  lemma {:induction false} TwiceStep(keys: seq<int>, kind: int)
    requires keys != []
    ensures Twice(keys, kind) <==> Twice(keys[1..], kind) || (keys[0] == kind && kind in keys[1..])
  {
    var rest := keys[1..];
    if Twice(keys, kind) {
      var i, j :| 0 <= i < j < |keys| && keys[i] == kind == keys[j];
      assert rest[j - 1] == kind;
      assert i > 0 ==> rest[i - 1] == kind;
    }
    if Twice(rest, kind) {
      var i, j :| 0 <= i < j < |rest| && rest[i] == kind == rest[j];
      assert keys[i + 1] == kind == keys[j + 1];
    }
    if keys[0] == kind && kind in rest {
      var j :| 0 <= j < |rest| && rest[j] == kind;
      assert keys[0] == kind == keys[j + 1];
    }
  }

  lemma {:induction false} TwiceIsCounted(keys: seq<int>, kind: int)
    ensures Twice(keys, kind) <==> multiset(keys)[kind] >= 2
    decreases |keys|
  {
    hide Twice;
    if keys == [] {
      NeverTwice(kind);
    } else {
      TwiceIsCounted(keys[1..], kind);
      TwiceStep(keys, kind);
      assert keys == [keys[0]] + keys[1..];
      assert kind in keys[1..] <==> multiset(keys[1..])[kind] >= 1;
    }
  }

  lemma {:induction false} NeverTwice(kind: int)
    ensures !Twice([], kind)
  {
  }

  lemma {:induction false} FirstTwins(sections: seq<Section>) returns (i: nat)
    requires FirstDuplicate(sections).Some?
    ensures Twins(sections, i) && FirstDuplicate(sections).value == sections[i].kind && forall j: nat | j < i :: !Twins(sections, j)
    decreases |sections|
  {
    if sections[0].kind == sections[1].kind {
      i := 0;
    } else {
      i := FirstTwins(sections[1..]);
      i := i + 1;
      assert forall j: nat | 0 < j < i :: Twins(sections, j) ==> Twins(sections[1..], j - 1);
    }
  }

  lemma {:induction false} FirstTwinsAreLeast(sections: seq<Section>, i: nat, other: int)
    requires SortedBy(KindOf, sections) && Twins(sections, i) && forall j: nat | j < i :: !Twins(sections, j)
    requires Twice(Keys(KindOf, sections), other)
    ensures sections[i].kind <= other
  {
    var keys := Keys(KindOf, sections);
    var x, y :| 0 <= x < y < |keys| && keys[x] == other == keys[y];
    assert KindOf(sections[x]) <= KindOf(sections[x + 1]) <= KindOf(sections[y]) by {
      SortedPair(sections, x, x + 1);
      if x + 1 < y {
        SortedPair(sections, x + 1, y);
      }
    }
    assert Twins(sections, x);
    if i < x {
      SortedPair(sections, i, x);
    }
  }

  lemma {:induction false} SortedPair(sections: seq<Section>, i: nat, j: nat)
    requires SortedBy(KindOf, sections) && i < j < |sections|
    ensures sections[i].kind <= sections[j].kind
  {
    assert KindOf(sections[i]) <= KindOf(sections[j]);
  }

  /** A writer that refuses a repeated kind names the smallest kind that occurs twice in its list. */
  lemma {:induction false} DuplicateIsLeast(sha: Sha256, id: SchemaId, fingerprint: Digest, flags: u32, sections: seq<Section>, kind: nat)
    requires Encode(sha, id, fingerprint, flags, sections) == Err(DuplicateSectionKind(kind))
    ensures Twice(Keys(KindOf, sections), kind) && forall other | Twice(Keys(KindOf, sections), other) :: kind <= other
  {
    hide SortBy, FirstDuplicate, Image, Measure, Twice, Twins;
    var sorted := SortBy(KindOf, sections);
    SortByIsStableSort(KindOf, sections, 0);
    OverflowOnly(sorted);
    var i := FirstTwins(sorted);
    TwinsAreTwice(sorted, i);
    PermutedKeys(KindOf, sections, sorted);
    TwiceIsCounted(Keys(KindOf, sections), kind);
    TwiceIsCounted(Keys(KindOf, sorted), kind);
    forall other | Twice(Keys(KindOf, sections), other)
      ensures kind <= other
    {
      TwiceIsCounted(Keys(KindOf, sections), other);
      TwiceIsCounted(Keys(KindOf, sorted), other);
      FirstTwinsAreLeast(sorted, i, other);
    }
  }

  lemma {:induction false} TwinsAreTwice(sections: seq<Section>, i: nat)
    requires Twins(sections, i)
    ensures i < |sections| && Twice(Keys(KindOf, sections), sections[i].kind)
  {
    var keys := Keys(KindOf, sections);
    assert keys[i] == sections[i].kind == keys[i + 1];
  }

  lemma {:induction false} OverflowOnly(sections: seq<Section>)
    ensures Measure(sections, BodyStart(|sections|)).Err? ==> Measure(sections, BodyStart(|sections|)).error == ArithmeticOverflow
  {
    MeasureFails(sections, BodyStart(|sections|));
  }

  lemma {:induction false} MeasureFails(sections: seq<Section>, at: nat)
    ensures Measure(sections, at).Err? ==> Measure(sections, at).error == ArithmeticOverflow
    decreases |sections|
  {
    if sections != [] && AlignUp(at).Ok? {
      MeasureFails(sections[1..], AlignUp(at).value + |sections[0].bytes|);
    }
  }

  /** What is wrong with a container whose header is refused, by the error. */
  ghost predicate HeaderFault(b: Bytes, e: Error) {
    match e
    case Truncated(what) => if |b| < 112 then what == "header" else what == "section directory" && 112 + 56 * LE.U32At(b, 20) > |b|
    case InvalidMagic => |b| >= 112 && b[..8] != [0x48, 0x42, 0x49, 0, 0x76, 0x31, 0, 0]
    case UnsupportedVersion(v) => |b| >= 112 && v == LE.U16At(b, 8) != 1
    case InvalidHeaderLength(n) => |b| >= 112 && n == LE.U16At(b, 10) != 112
    case UnsupportedEndianness(m) => |b| >= 112 && m == b[12] != 1
    case InvalidAlignment(a) => |b| >= 112 && a == b[13] != 8
    case NonZeroReserved => |b| >= 112 && (b[14] != 0 || b[15] != 0)
    case TooManySections(n) => |b| >= 112 && n == LE.U32At(b, 20) > 4096
    case LengthMismatch(declared, actual) => |b| >= 112 && declared == LE.U64At(b, 24) != |b| == actual
    case _ => false
  }

  lemma {:induction false} HeaderErrorMeans(b: Bytes)
    requires HeaderError(b).Some?
    ensures HeaderFault(b, HeaderError(b).value)
  {
    hide Get, LE.U16At, LE.U32At, LE.U64At;
    GetIsWeighted(b, 8);
    GetIsWeighted(b, 10);
    GetIsWeighted(b, 20);
    GetIsWeighted(b, 24);
  }

  /** What is wrong with entry `i`, by the error. */
  ghost predicate EntryFault(sha: Sha256, b: Bytes, directoryEnd: nat, i: nat, e: Error) {
    var p := 112 + 56 * i;
    && p + 56 <= |b|
    && var offset, length := LE.U64At(b, p + 8), LE.U64At(b, p + 16);
    match e
    case MisalignedOffset(at) => at == offset && offset % 8 != 0
    case ArithmeticOverflow => offset + length > U64_MAX
    case OutOfBounds(o, n) => o == offset && n == length && (offset < directoryEnd || offset + length > |b|)
    case ChecksumMismatch(which) =>
      which == "section" && offset + length <= |b| && sha(b[offset..offset + length]) != b[p + 24..p + 56]
    case _ => false
  }

  lemma {:induction false} EntryErrorMeans(sha: Sha256, b: Bytes, directoryEnd: nat, i: nat)
    requires BodyStart(i + 1) <= |b| <= U64_MAX && ReadEntry(sha, b, directoryEnd, i).Err?
    ensures EntryFault(sha, b, directoryEnd, i, ReadEntry(sha, b, directoryEnd, i).error)
  {
    hide Get, LE.U32At, LE.U64At;
    GetIsWeighted(b, BodyStart(i) + 8);
    GetIsWeighted(b, BodyStart(i) + 16);
  }

  lemma {:induction false} EntriesErrorMeans(sha: Sha256, b: Bytes, count: nat, done: seq<SectionInfo>) returns (i: nat)
    requires |done| <= count && BodyStart(count) <= |b| <= U64_MAX && InBounds(b, done)
    requires ReadEntries(sha, b, count, done).Err?
    ensures i < count && EntryFault(sha, b, BodyStart(count), i, ReadEntries(sha, b, count, done).error)
    decreases count - |done|
  {
    hide ReadEntry, EntryFault;
    var entry := ReadEntry(sha, b, BodyStart(count), |done|);
    if entry.Err? {
      i := |done|;
      EntryErrorMeans(sha, b, BodyStart(count), i);
    } else {
      i := EntriesErrorMeans(sha, b, count, done + [entry.value]);
    }
  }

  /** Section `j` starts before what precedes it ends. */
  predicate Reaches(ordered: seq<SectionInfo>, j: nat, from: nat) {
    j < |ordered| && ordered[j].offset < if j == 0 then from else ordered[j - 1].End()
  }

  /** Two sections overlap, or one reaches back before `from`; or a byte from `from` on lies outside all and is not zero. */
  ghost predicate PaddingFault(b: Bytes, ordered: seq<SectionInfo>, from: nat, e: Error) {
    match e
    case OverlappingSections => exists j: nat :: Reaches(ordered, j, from)
    case NonZeroPadding => exists p | from <= p < |b| :: b[p] != 0 && !Covered(ordered, p)
    case _ => false
  }

  lemma {:induction false} PaddingErrorMeans(b: Bytes, ordered: seq<SectionInfo>, from: nat)
    requires from <= |b| && InBounds(b, ordered) && SortedBy(OffsetOf, ordered) && CheckPadding(b, ordered, from).Err?
    ensures PaddingFault(b, ordered, from, CheckPadding(b, ordered, from).error)
    decreases |ordered|
  {
    if ordered == [] {
      var p :| 0 <= p < |b[from..]| && b[from..][p] != 0;
      assert b[from + p] != 0 && !Covered(ordered, from + p);
    } else {
      var first, rest := ordered[0], ordered[1..];
      assert first in ordered && ordered == [first] + rest;
      if from <= first.offset && !AllZero(b[from..first.offset]) {
        var p :| 0 <= p < |b[from..first.offset]| && b[from..first.offset][p] != 0;
        assert b[from + p] != 0;
        NothingBefore(ordered, from + p);
      } else if from <= first.offset {
        PaddingErrorMeans(b, rest, first.End());
        PaddingFaultGrows(b, ordered, from, CheckPadding(b, rest, first.End()).error);
      } else {
        assert Reaches(ordered, 0, from);
      }
    }
  }

  lemma {:induction false} NothingBefore(ordered: seq<SectionInfo>, p: nat)
    requires ordered != [] && SortedBy(OffsetOf, ordered) && p < ordered[0].offset
    ensures !Covered(ordered, p)
  {
    forall s | s in ordered
      ensures p < s.offset
    {
      var j :| 0 <= j < |ordered| && ordered[j] == s;
      assert j > 0 ==> OffsetOf(ordered[0]) <= OffsetOf(ordered[j]);
    }
  }

  lemma {:induction false} PaddingFaultGrows(b: Bytes, ordered: seq<SectionInfo>, from: nat, e: Error)
    requires ordered != [] && from <= ordered[0].offset && PaddingFault(b, ordered[1..], ordered[0].End(), e)
    ensures PaddingFault(b, ordered, from, e)
  {
    var first, rest := ordered[0], ordered[1..];
    if e.OverlappingSections? {
      var j: nat :| Reaches(rest, j, first.End());
      assert ordered[j + 1] == rest[j] && (j > 0 ==> ordered[j] == rest[j - 1]);
      assert Reaches(ordered, j + 1, from);
    } else {
      var p :| first.End() <= p < |b| && b[p] != 0 && !Covered(rest, p);
      assert ordered == [first] + rest;
      assert from <= p && !Covered(ordered, p);
    }
  }

  /** What the 32 checksum bytes are compared with, once header and entries are in order. */
  lemma {:induction false} ChecksumComparedWith(sha: Sha256, b: Bytes, infos: seq<SectionInfo>)
    requires HeaderError(b).None? && Get(b, 20, 4) == |infos| && GoodEntries(sha, b, infos) && InBounds(b, infos)
    ensures forall i | 0 <= i < |infos| :: 112 + 56 * i + 24 <= |b| && infos[i].offset + infos[i].length <= |b|
    ensures Checksum(sha, MetadataOf(b), infos, Slices(b, infos)) == sha(b[8..14] + b[16..80] + Stream(b, infos, |infos|))
  {
    hide HeaderError, AggregateHead, AggregateBody, HeadBytes, GoodEntries, Stream, Get;
    HeaderIsThere(b);
    var meta := MetadataOf(b);
    HeaderAccepted(b, meta, |infos|);
    GoodIsDescribed(sha, b, infos);
    BodyIsStream(b, infos, Slices(b, infos), |infos|);
    assert infos[..|infos|] == infos && Slices(b, infos)[..|infos|] == Slices(b, infos);
    HeadIsHashed(b, meta.flags, |infos|, meta.totalLen, meta.schemaId, meta.fingerprint);
  }

  lemma {:induction false} HeaderIsThere(b: Bytes)
    ensures HeaderError(b).None? ==> |b| >= 112
  {
  }

  /** The checksum bytes are not the hash of the container's own header fields, entries and contents. */
  ghost predicate ContentFault(sha: Sha256, b: Bytes, infos: seq<SectionInfo>) {
    && |b| >= 112
    && (forall i | 0 <= i < |infos| :: 112 + 56 * i + 24 <= |b| && infos[i].offset + infos[i].length <= |b|)
    && b[80..112] != sha(b[8..14] + b[16..80] + Stream(b, infos, |infos|))
  }

  /**
   * Whatever the reader refuses, its error names a fault of the header, of an
   * entry, of the space between the sections, or of the checksum.
   */
  lemma {:induction false} ReaderErrorMeans(sha: Sha256, b: Bytes) returns (i: nat, infos: seq<SectionInfo>)
    requires Open(sha, b).Err?
    ensures var e := Open(sha, b).error;
            || HeaderFault(b, e)
            || (|b| >= 112 && i < LE.U32At(b, 20) && EntryFault(sha, b, 112 + 56 * LE.U32At(b, 20), i, e))
            || (|b| >= 112 && PaddingFault(b, SortBy(OffsetOf, infos), 112 + 56 * LE.U32At(b, 20), e))
            || (e == ChecksumMismatch("content") && ContentFault(sha, b, infos))
  {
    hide HeaderError, HeaderFault, EntryFault, PaddingFault, ReadEntries, CheckPadding, Checksum, Get, LE.U32At, SortBy, Stream,
      GoodEntries;
    i, infos := 0, [];
    if HeaderError(b).Some? {
      HeaderErrorMeans(b);
    } else {
      LE.Widths();
      HeaderIsThere(b);
      var count := Get(b, 20, 4);
      HeaderAccepted(b, MetadataOf(b), count);
      GetIsWeighted(b, 20);
      if ReadEntries(sha, b, count, []).Err? {
        i := EntriesErrorMeans(sha, b, count, []);
      } else {
        infos := ReadEntries(sha, b, count, []).value;
        AllEntriesRead(sha, b, count);
        DirectoryAccepted(sha, b, infos);
        GoodEntriesLieInTheBody(sha, b, infos);
        if CheckPadding(b, SortBy(OffsetOf, infos), BodyStart(count)).Err? {
          PaddingErrorMeans(b, SortBy(OffsetOf, infos), BodyStart(count)) by {
            SortByIsStableSort(OffsetOf, infos, 0);
          }
        } else {
          ChecksumComparedWith(sha, b, infos);
        }
      }
    }
  }

  lemma {:induction false} AllEntriesRead(sha: Sha256, b: Bytes, count: nat)
    requires BodyStart(count) <= |b| <= U64_MAX && ReadEntries(sha, b, count, []).Ok?
    ensures |ReadEntries(sha, b, count, []).value| == count
  {
    EntriesRead(sha, b, count, []);
  }

  lemma {:induction false} EntriesRead(sha: Sha256, b: Bytes, count: nat, done: seq<SectionInfo>)
    requires |done| <= count && BodyStart(count) <= |b| <= U64_MAX && InBounds(b, done) && ReadEntries(sha, b, count, done).Ok?
    ensures |ReadEntries(sha, b, count, done).value| == count
    decreases count - |done|
  {
    hide ReadEntry;
    if |done| < count {
      EntriesRead(sha, b, count, done + [ReadEntry(sha, b, BodyStart(count), |done|).value]);
    }
  }

  /** Too many sections are refused with their number, as far as it fits 32 bits. */
  lemma {:induction false} TooManyNamesCount(sha: Sha256, id: SchemaId, fingerprint: Digest, flags: u32, sections: seq<Section>)
    requires 4096 < |sections| < 0x1_0000_0000
    ensures Encode(sha, id, fingerprint, flags, sections) == Err(TooManySections(|sections|))
  {
    hide SortBy, FirstDuplicate;
  }
}
