/**
 * What the HBI reader accepts, said without running it, and what follows: the
 * reader inverts the writer, the order of the input list does not matter, and
 * an accepted container has no byte that its readable content leaves open.
 */
module HbiTheorems {
  import opened Prelude
  import opened Sorting
  import opened HbiFormat
  import LE = LittleEndian

  // ----- what "accepted" means -----

  predicate InBounds(b: Bytes, sections: seq<SectionInfo>) {
    forall s :: s in sections ==> s.End() <= |b|
  }

  predicate Covered(sections: seq<SectionInfo>, p: nat) {
    exists s :: s in sections && s.offset <= p < s.End()
  }

  predicate Disjoint(ordered: seq<SectionInfo>) {
    forall i, j :: 0 <= i < j < |ordered| ==> ordered[i].End() <= ordered[j].offset
  }

  predicate PaddedWithZeros(b: Bytes, sections: seq<SectionInfo>, from: nat) {
    forall p: nat :: from <= p < |b| ==> b[p] == 0 || Covered(sections, p)
  }

  predicate GoodEntry(sha: Sha256, b: Bytes, directoryEnd: nat, index: nat, info: SectionInfo) {
    && BodyStart(index + 1) <= |b|
    && info.offset % 8 == 0
    && directoryEnd <= info.offset && info.End() <= |b|
    && b[BodyStart(index)..BodyStart(index + 1)] == EntryBytes(info, sha(b[info.offset..info.End()]))
  }

  predicate GoodHeader(b: Bytes, meta: Metadata, count: nat) {
    && count <= 4096 && BodyStart(count) <= |b| <= U64_MAX && meta.totalLen == |b|
    && b[..80] == HeadBytes(meta.flags, count, meta.totalLen, meta.schemaId, meta.fingerprint)
  }

  predicate GoodDirectory(sha: Sha256, b: Bytes, infos: seq<SectionInfo>) {
    && GoodEntries(sha, b, infos)
    && InBounds(b, infos)
    && Disjoint(SortBy(OffsetOf, infos))
    && PaddedWithZeros(b, infos, BodyStart(|infos|))
  }

  /** The container `b` is laid out as `meta` and the directory `infos` describe. */
  predicate WellFormed(sha: Sha256, b: Bytes, meta: Metadata, infos: seq<SectionInfo>) {
    && GoodHeader(b, meta, |infos|)
    && GoodDirectory(sha, b, infos)
    && b[80..112] == Checksum(sha, meta, infos, Slices(b, infos))
  }

  // ----- the header and the entries, field by field -----

  lemma {:induction false} SplitAt(b: Bytes, at: nat, p: Bytes, q: Bytes)
    requires at + |p| + |q| <= |b|
    ensures b[at..at + |p| + |q|] == p + q
       <==> b[at..at + |p|] == p && b[at + |p|..at + |p| + |q|] == q
  {
    var s := b[at..at + |p| + |q|];
    assert s[..|p|] == b[at..at + |p|] && s[|p|..] == b[at + |p|..at + |p| + |q|];
    assert s == s[..|p|] + s[|p|..];
    assert (p + q)[..|p|] == p && (p + q)[|p|..] == q;
  }

  lemma {:induction false} GetIsField(b: Bytes, at: nat, width: nat, n: nat)
    requires at + width <= |b| && n < LE.Pow256(width)
    ensures Get(b, at, width) == n <==> b[at..at + width] == LE.Encode(n, width)
  {
    LE.EncodeDecode(b[at..at + width]);
    LE.DecodeEncode(n, width);
  }

  lemma {:induction false} PreambleFields(b: Bytes)
    requires |b| >= HEADER_LEN
    ensures b[..16] == Preamble()
       <==> && b[..8] == MAGIC && Get(b, 8, 2) == VERSION && Get(b, 10, 2) == HEADER_LEN
            && b[12] == ENDIAN_LITTLE && b[13] == ALIGNMENT && b[14] == 0 && b[15] == 0
  {
    LE.Widths();
    var p3 := [ENDIAN_LITTLE, ALIGNMENT, 0, 0];
    var p2 := LE.Encode(HEADER_LEN, 2) + p3;
    assert b[..16] == b[0..16] && b[..8] == b[0..8];
    SplitAt(b, 0, MAGIC, LE.Encode(VERSION, 2) + p2);
    SplitAt(b, 8, LE.Encode(VERSION, 2), p2);
    SplitAt(b, 10, LE.Encode(HEADER_LEN, 2), p3);
    GetIsField(b, 8, 2, VERSION);
    GetIsField(b, 10, 2, HEADER_LEN);
    assert b[12..16] == [b[12], b[13], b[14], b[15]];
  }

  lemma {:induction false} HeadFields(b: Bytes, flags: u32, count: u32, total: nat, id: SchemaId, fingerprint: Digest)
    requires |b| >= HEADER_LEN && total <= U64_MAX
    ensures b[..80] == HeadBytes(flags, count, total, id, fingerprint)
       <==> && b[..16] == Preamble()
            && Get(b, 16, 4) == flags && Get(b, 20, 4) == count && Get(b, 24, 8) == total
            && b[32..48] == id && b[48..80] == fingerprint
  {
    LE.Widths();
    var p4 := id + fingerprint;
    var p3 := LE.Encode(total, 8) + p4;
    var p2 := LE.Encode(count, 4) + p3;
    assert b[..80] == b[0..80] && b[..16] == b[0..16];
    SplitAt(b, 0, Preamble(), LE.Encode(flags, 4) + p2);
    SplitAt(b, 16, LE.Encode(flags, 4), p2);
    SplitAt(b, 20, LE.Encode(count, 4), p3);
    SplitAt(b, 24, LE.Encode(total, 8), p4);
    SplitAt(b, 32, id, fingerprint);
    GetIsField(b, 16, 4, flags);
    GetIsField(b, 20, 4, count);
    GetIsField(b, 24, 8, total);
  }

  lemma {:induction false} InfoFields(b: Bytes, e: nat, info: SectionInfo)
    requires e + 24 <= |b| && info.offset <= U64_MAX && info.length <= U64_MAX
    ensures b[e..e + 24] == InfoBytes(info)
       <==> && Get(b, e, 4) == info.kind && Get(b, e + 4, 4) == info.flags
            && Get(b, e + 8, 8) == info.offset && Get(b, e + 16, 8) == info.length
  {
    LE.Widths();
    var p3 := LE.Encode(info.offset, 8) + LE.Encode(info.length, 8);
    SplitAt(b, e, LE.Encode(info.kind, 4), LE.Encode(info.flags, 4) + p3);
    SplitAt(b, e + 4, LE.Encode(info.flags, 4), p3);
    SplitAt(b, e + 8, LE.Encode(info.offset, 8), LE.Encode(info.length, 8));
    GetIsField(b, e, 4, info.kind);
    GetIsField(b, e + 4, 4, info.flags);
    GetIsField(b, e + 8, 8, info.offset);
    GetIsField(b, e + 16, 8, info.length);
  }

  lemma {:induction false} EntryFields(b: Bytes, index: nat, info: SectionInfo, checksum: Digest)
    requires BodyStart(index + 1) <= |b| && info.offset <= U64_MAX && info.length <= U64_MAX
    ensures b[BodyStart(index)..BodyStart(index + 1)] == EntryBytes(info, checksum)
       <==> EntryAt(b, index) == info && b[BodyStart(index) + 24..BodyStart(index) + 56] == checksum
  {
    hide InfoBytes, Get;
    var at := BodyStart(index);
    assert BodyStart(index + 1) == at + 56;
    SplitAt(b, at, InfoBytes(info), checksum);
    InfoFields(b, at, info);
  }

  lemma {:induction false} EntryAccepted(sha: Sha256, b: Bytes, directoryEnd: nat, index: nat, info: SectionInfo)
    requires BodyStart(index + 1) <= |b| <= U64_MAX
    ensures ReadEntry(sha, b, directoryEnd, index) == Ok(info) <==> GoodEntry(sha, b, directoryEnd, index, info)
  {
    if info.End() <= |b| {
      EntryFields(b, index, info, sha(b[info.offset..info.End()]));
    }
  }

  lemma {:induction false} EntriesAccepted(
    sha: Sha256, b: Bytes, count: nat, done: seq<SectionInfo>, infos: seq<SectionInfo>)
    requires |done| <= count && BodyStart(count) <= |b| <= U64_MAX && InBounds(b, done)
    ensures ReadEntries(sha, b, count, done) == Ok(infos)
       <==> && |infos| == count && infos[..|done|] == done
            && forall i :: |done| <= i < count ==> GoodEntry(sha, b, BodyStart(count), i, infos[i])
    decreases count - |done|
  {
    hide ReadEntry, GoodEntry;
    var n := |done|;
    if n < count {
      var entry := ReadEntry(sha, b, BodyStart(count), n);
      if |infos| == count {
        EntryAccepted(sha, b, BodyStart(count), n, infos[n]);
      }
      if entry.Ok? {
        EntriesAccepted(sha, b, count, done + [entry.value], infos);
        if |infos| == count {
          assert infos[..n + 1] == infos[..n] + [infos[n]];
        }
      }
    } else {
      assert |infos| == count ==> infos[..n] == infos;
    }
  }

  /** Walking the gaps in offset order finds exactly overlap and stray bytes. */
  lemma {:induction false} PaddingAccepted(b: Bytes, ordered: seq<SectionInfo>, from: nat)
    requires from <= |b| && InBounds(b, ordered)
    ensures CheckPadding(b, ordered, from).Ok?
       <==> && Disjoint(ordered) && PaddedWithZeros(b, ordered, from)
            && forall s :: s in ordered ==> from <= s.offset
  {
    if ordered == [] {
      assert forall p: nat :: from <= p < |b| ==> b[p] == b[from..][p - from];
    } else {
      var first, rest := ordered[0], ordered[1..];
      assert first in ordered && first.End() <= |b|;
      assert ordered == [first] + rest;
      if from <= first.offset {
        PaddingAccepted(b, rest, first.End());
        if forall s :: s in rest ==> first.End() <= s.offset {
          PaddingSteps(b, ordered, from);
        }
      }
    }
  }

  lemma {:induction false} PaddingSteps(b: Bytes, ordered: seq<SectionInfo>, from: nat)
    requires ordered != [] && InBounds(b, ordered) && from <= ordered[0].offset <= |b|
    requires forall s :: s in ordered[1..] ==> ordered[0].End() <= s.offset
    ensures PaddedWithZeros(b, ordered, from)
       <==> AllZero(b[from..ordered[0].offset]) && PaddedWithZeros(b, ordered[1..], ordered[0].End())
  {
  }

  lemma {:induction false} HeaderAccepted(b: Bytes, meta: Metadata, count: nat)
    ensures HeaderError(b).None? && MetadataOf(b) == meta && Get(b, 20, 4) == count <==> GoodHeader(b, meta, count)
  {
    LE.Widths();
    if |b| >= HEADER_LEN && meta.totalLen <= U64_MAX && count <= MAX_SECTIONS {
      PreambleFields(b);
      HeadFields(b, meta.flags, count, meta.totalLen, meta.schemaId, meta.fingerprint);
    }
  }

  lemma {:induction false} SortKeepsPadding(b: Bytes, infos: seq<SectionInfo>, from: nat)
    ensures PaddedWithZeros(b, SortBy(OffsetOf, infos), from) <==> PaddedWithZeros(b, infos, from)
  {
    SortKeepsMembers(infos);
    assert forall p: nat :: Covered(SortBy(OffsetOf, infos), p) <==> Covered(infos, p);
  }

  predicate GoodEntries(sha: Sha256, b: Bytes, infos: seq<SectionInfo>) {
    forall i :: 0 <= i < |infos| ==> GoodEntry(sha, b, BodyStart(|infos|), i, infos[i])
  }

  lemma {:induction false} GoodEntriesLieInTheBody(sha: Sha256, b: Bytes, infos: seq<SectionInfo>)
    requires GoodEntries(sha, b, infos)
    ensures InBounds(b, infos) && InBounds(b, SortBy(OffsetOf, infos))
    ensures forall s :: s in SortBy(OffsetOf, infos) ==> BodyStart(|infos|) <= s.offset
  {
    forall s | s in infos
      ensures s.End() <= |b| && BodyStart(|infos|) <= s.offset
    {
      var i :| 0 <= i < |infos| && infos[i] == s;
      assert GoodEntry(sha, b, BodyStart(|infos|), i, infos[i]);
    }
    SortKeepsMembers(infos);
  }

  lemma {:induction false} DirectoryAccepted(sha: Sha256, b: Bytes, infos: seq<SectionInfo>)
    requires BodyStart(|infos|) <= |b| <= U64_MAX
    ensures ReadEntries(sha, b, |infos|, []) == Ok(infos) <==> GoodEntries(sha, b, infos)
    ensures GoodEntries(sha, b, infos) ==> InBounds(b, SortBy(OffsetOf, infos))
    ensures GoodEntries(sha, b, infos)
        ==> (CheckPadding(b, SortBy(OffsetOf, infos), BodyStart(|infos|)).Ok? <==> GoodDirectory(sha, b, infos))
  {
    EntriesAccepted(sha, b, |infos|, [], infos);
    if GoodEntries(sha, b, infos) {
      GoodEntriesLieInTheBody(sha, b, infos);
      SortKeepsPadding(b, infos, BodyStart(|infos|));
      PaddingAccepted(b, SortBy(OffsetOf, infos), BodyStart(|infos|));
    }
  }

  /** The reader accepts exactly the well-formed containers, and reports what they describe. */
  lemma {:induction false} OpenAcceptsWellFormed(sha: Sha256, b: Bytes, meta: Metadata, infos: seq<SectionInfo>)
    ensures Open(sha, b) == Ok(Reader(b, meta, infos)) <==> WellFormed(sha, b, meta, infos)
  {
    hide HeaderError, HeadBytes, ReadEntries, CheckPadding, GoodEntries, PaddedWithZeros, SortBy, AggregateHead, AggregateBody, Disjoint;
    HeaderAccepted(b, meta, |infos|);
    if GoodHeader(b, meta, |infos|) {
      DirectoryAccepted(sha, b, infos);
    }
  }

  // ----- an accepted container has no free byte -----

  /** What a caller can ask of an open reader for one section: its kind and its bytes. */
  function SectionOf(r: Reader, index: nat): Option<(u32, Bytes)>
    requires InBounds(r.bytes, r.sections)
  {
    if index < |r.sections| then
      assert r.sections[index] in r.sections && r.sections[index].End() <= |r.bytes|;
      Some((r.sections[index].kind, r.bytes[r.sections[index].offset..r.sections[index].End()]))
    else None
  }

  lemma {:induction false} OpenGivesInBounds(sha: Sha256, b: Bytes, r: Reader)
    requires Open(sha, b) == Ok(r)
    ensures r.bytes == b && InBounds(b, r.sections) && WellFormed(sha, b, r.metadata, r.sections)
  {
    OpenAcceptsWellFormed(sha, b, r.metadata, r.sections);
  }

  lemma {:induction false} SameDirectoryByte(sha: Sha256, b: Bytes, c: Bytes, infos: seq<SectionInfo>, p: nat)
    requires GoodEntries(sha, b, infos) && GoodEntries(sha, c, infos)
    requires InBounds(b, infos) && InBounds(c, infos) && Slices(b, infos) == Slices(c, infos)
    requires HEADER_LEN <= p < BodyStart(|infos|)
    ensures p < |b| && p < |c| && b[p] == c[p]
  {
    var i := (p - 112) / 56;
    assert BodyStart(i) <= p < BodyStart(i + 1) && i < |infos|;
    assert GoodEntry(sha, b, BodyStart(|infos|), i, infos[i]) && GoodEntry(sha, c, BodyStart(|infos|), i, infos[i]);
    assert Slices(b, infos)[i] == Slices(c, infos)[i];
    assert b[BodyStart(i)..BodyStart(i + 1)] == c[BodyStart(i)..BodyStart(i + 1)];
    assert b[BodyStart(i)..BodyStart(i + 1)][p - BodyStart(i)] == c[BodyStart(i)..BodyStart(i + 1)][p - BodyStart(i)];
  }

  lemma {:induction false} SameBodyByte(b: Bytes, c: Bytes, infos: seq<SectionInfo>, p: nat)
    requires |b| == |c| && InBounds(b, infos) && InBounds(c, infos)
    requires Slices(b, infos) == Slices(c, infos)
    requires PaddedWithZeros(b, infos, BodyStart(|infos|)) && PaddedWithZeros(c, infos, BodyStart(|infos|))
    requires BodyStart(|infos|) <= p < |b|
    ensures b[p] == c[p]
  {
    if Covered(infos, p) {
      var s :| s in infos && s.offset <= p < s.End();
      var i :| 0 <= i < |infos| && infos[i] == s;
      assert Slices(b, infos)[i][p - s.offset] == Slices(c, infos)[i][p - s.offset];
    }
  }

  lemma {:induction false} SameByte(sha: Sha256, b: Bytes, c: Bytes, meta: Metadata, infos: seq<SectionInfo>, p: nat)
    requires WellFormed(sha, b, meta, infos) && WellFormed(sha, c, meta, infos)
    requires Slices(b, infos) == Slices(c, infos)
    requires p < |b|
    ensures b[p] == c[p]
  {
    if p < 80 {
      assert b[..80][p] == c[..80][p];
    } else if p < HEADER_LEN {
      assert b[80..112][p - 80] == c[80..112][p - 80];
    } else if p < BodyStart(|infos|) {
      SameDirectoryByte(sha, b, c, infos, p);
    } else {
      SameBodyByte(b, c, infos, p);
    }
  }

  /**
   * Two accepted containers that answer every query alike are the same bytes:
   * header, reserved bytes, directory, padding and checksums are all pinned.
   */
  lemma {:induction false} ReaderPinsEveryByte(sha: Sha256, b: Bytes, c: Bytes, rb: Reader, rc: Reader)
    requires Open(sha, b) == Ok(rb) && Open(sha, c) == Ok(rc)
    requires InBounds(rb.bytes, rb.sections) && InBounds(rc.bytes, rc.sections)
    requires rb.metadata == rc.metadata && rb.sections == rc.sections
    requires forall i: nat :: SectionOf(rb, i) == SectionOf(rc, i)
    ensures b == c
  {
    OpenGivesInBounds(sha, b, rb);
    OpenGivesInBounds(sha, c, rc);
    var infos := rb.sections;
    forall i | 0 <= i < |infos|
      ensures Slices(b, infos)[i] == Slices(c, infos)[i]
    {
      assert SectionOf(rb, i) == SectionOf(rc, i);
    }
    assert Slices(b, infos) == Slices(c, infos);
    forall p | 0 <= p < |b|
      ensures b[p] == c[p]
    {
      SameByte(sha, b, c, rb.metadata, infos, p);
    }
  }

  // ----- the reader inverts the writer -----

  /** The total length of a container whose first free byte is `at`. */
  function Finish(sections: seq<Section>, at: nat): (end: nat)
    ensures at <= end
  {
    if sections == [] then Padded(at) else Finish(sections[1..], Padded(at) + |sections[0].bytes|)
  }

  lemma {:induction false} MeasureIsFinish(sections: seq<Section>, at: nat)
    requires at <= U64_MAX
    ensures Measure(sections, at) == if Finish(sections, at) <= U64_MAX then Ok(Finish(sections, at)) else Err(ArithmeticOverflow)
  {
    if sections != [] {
      var next := Padded(at) + |sections[0].bytes|;
      if next <= U64_MAX {
        MeasureIsFinish(sections[1..], next);
      }
    }
  }

  lemma {:induction false} BodyLength(sections: seq<Section>, at: nat)
    ensures |Body(sections, at, Finish(sections, at))| == Finish(sections, at) - at
  {
    if sections != [] {
      BodyLength(sections[1..], Padded(at) + |sections[0].bytes|);
    }
  }

  lemma {:induction false} PlacedInfo(sections: seq<Section>, at: nat, j: nat)
    requires j < |sections|
    ensures var info := Place(sections, at)[j];
            && info.kind == sections[j].kind && info.flags == sections[j].flags
            && info.length == |sections[j].bytes| && info.offset % 8 == 0
            && at <= info.offset && info.End() <= Finish(sections, at)
  {
    if j > 0 {
      PlacedInfo(sections[1..], Padded(at) + |sections[0].bytes|, j - 1);
    }
  }

  /** `body`, whose first byte is at `at`, holds `content` at `info`. */
  predicate HoldsAt(body: Bytes, at: nat, info: SectionInfo, content: Bytes) {
    at <= info.offset && info.End() - at <= |body| && body[info.offset - at..info.End() - at] == content
  }

  lemma {:induction false} HoldsInTail(body: Bytes, rest: Bytes, at: nat, next: nat, info: SectionInfo, content: Bytes)
    requires at <= next <= at + |body| && body[next - at..] == rest
    requires HoldsAt(rest, next, info, content)
    ensures HoldsAt(body, at, info, content)
  {
    SliceOfTail(body, next - at, info.offset - at, info.End() - at);
  }

  lemma {:induction false} PlacedBytes(sections: seq<Section>, at: nat, j: nat)
    requires j < |sections|
    ensures HoldsAt(Body(sections, at, Finish(sections, at)), at, Place(sections, at)[j], sections[j].bytes)
  {
    var first, next := Padded(at), Padded(at) + |sections[0].bytes|;
    var body, rest := Body(sections, at, Finish(sections, at)), Body(sections[1..], next, Finish(sections, at));
    assert body == Zeros(first - at) + sections[0].bytes + rest;
    if j == 0 {
      assert body[first - at..next - at] == sections[0].bytes;
    } else {
      PlacedBytes(sections[1..], next, j - 1);
      assert body[next - at..] == rest;
      HoldsInTail(body, rest, at, next, Place(sections, at)[j], sections[j].bytes);
    }
  }

  lemma {:induction false} SliceOfTail(s: Bytes, k: nat, lo: nat, hi: nat)
    requires k <= lo <= hi <= |s|
    ensures s[lo..hi] == s[k..][lo - k..hi - k]
  {
  }

  lemma {:induction false} PlacedInOrder(sections: seq<Section>, at: nat)
    ensures Disjoint(Place(sections, at))
  {
    if sections != [] {
      var next := Padded(at) + |sections[0].bytes|;
      PlacedInOrder(sections[1..], next);
      forall j | 0 < j < |sections|
        ensures next <= Place(sections, at)[j].offset
      {
        PlacedInfo(sections[1..], next, j - 1);
      }
    }
  }

  lemma {:induction false} PlacedPadding(sections: seq<Section>, at: nat, p: nat)
    requires at <= p < Finish(sections, at)
    ensures |Body(sections, at, Finish(sections, at))| == Finish(sections, at) - at
    ensures Body(sections, at, Finish(sections, at))[p - at] == 0 || Covered(Place(sections, at), p)
  {
    BodyLength(sections, at);
    if sections != [] {
      var next := Padded(at) + |sections[0].bytes|;
      var infos := Place(sections, at);
      assert infos[0] in infos;
      if p >= next {
        PlacedPadding(sections[1..], next, p);
        assert Covered(infos[1..], p) ==> Covered(infos, p);
        assert Body(sections, at, Finish(sections, at))[p - at]
            == Body(sections[1..], next, Finish(sections, at))[p - next];
      }
    }
  }

  lemma {:induction false} DirectoryEntry(sha: Sha256, infos: seq<SectionInfo>, contents: seq<Bytes>, j: nat)
    requires j < |infos| == |contents|
    ensures Directory(sha, infos, contents)[56 * j..56 * (j + 1)]
         == EntryBytes(infos[j], sha(contents[j]))
  {
    var d, rest := Directory(sha, infos, contents), Directory(sha, infos[1..], contents[1..]);
    assert d[56..] == rest;
    if j > 0 {
      DirectoryEntry(sha, infos[1..], contents[1..], j - 1);
      assert d[56 * j..56 * (j + 1)] == rest[56 * (j - 1)..56 * j];
    }
  }

  lemma {:induction false} FourParts(p: Bytes, q: Bytes, r: Bytes, s: Bytes)
    ensures var all := p + q + r + s;
            && all[..|p|] == p && all[|p|..|p| + |q|] == q
            && all[|p| + |q|..|p| + |q| + |r|] == r && all[|p| + |q| + |r|..] == s
  {
  }

  /** The pieces of an image, back at their places. */
  lemma {:induction false} ImageParts(sha: Sha256, meta: Metadata, sections: seq<Section>)
    requires meta.totalLen == Finish(sections, BodyStart(|sections|))
    ensures |Image(sha, meta, sections)| == meta.totalLen
    ensures var start, b := BodyStart(|sections|), Image(sha, meta, sections);
            var infos := Place(sections, start);
            && b[..80] == HeadBytes(meta.flags, |sections|, meta.totalLen, meta.schemaId, meta.fingerprint)
            && b[80..112] == Checksum(sha, meta, infos, Contents(sections))
            && b[112..start] == Directory(sha, infos, Contents(sections))
            && b[start..] == Body(sections, start, meta.totalLen)
  {
    var start := BodyStart(|sections|);
    BodyLength(sections, start);
    FourParts(HeadBytes(meta.flags, |sections|, meta.totalLen, meta.schemaId, meta.fingerprint),
              Checksum(sha, meta, Place(sections, start), Contents(sections)),
              Directory(sha, Place(sections, start), Contents(sections)),
              Body(sections, start, meta.totalLen));
  }

  lemma {:induction false} ImageContent(sha: Sha256, meta: Metadata, sections: seq<Section>, j: nat)
    requires meta.totalLen == Finish(sections, BodyStart(|sections|))
    requires j < |sections|
    ensures var b, info := Image(sha, meta, sections), Place(sections, BodyStart(|sections|))[j];
            && info.offset % 8 == 0
            && BodyStart(|sections|) <= info.offset && info.End() <= |b|
            && b[info.offset..info.End()] == sections[j].bytes
  {
    var start, b := BodyStart(|sections|), Image(sha, meta, sections);
    var info := Place(sections, start)[j];
    ImageParts(sha, meta, sections);
    PlacedInfo(sections, start, j);
    PlacedBytes(sections, start, j);
    SliceOfTail(b, start, info.offset, info.End());
  }

  lemma {:induction false} ImageEntry(sha: Sha256, meta: Metadata, sections: seq<Section>, j: nat)
    requires meta.totalLen == Finish(sections, BodyStart(|sections|))
    requires j < |sections|
    ensures BodyStart(j + 1) <= |Image(sha, meta, sections)|
    ensures Image(sha, meta, sections)[BodyStart(j)..BodyStart(j + 1)]
         == EntryBytes(Place(sections, BodyStart(|sections|))[j], sha(sections[j].bytes))
  {
    var start, b := BodyStart(|sections|), Image(sha, meta, sections);
    ImageParts(sha, meta, sections);
    DirectoryEntry(sha, Place(sections, start), Contents(sections), j);
    assert BodyStart(j + 1) <= start;
    SliceOfSlice(b, 112, start, 56 * j, 56 * (j + 1));
  }

  lemma {:induction false} SliceOfSlice(s: Bytes, from: nat, to: nat, lo: nat, hi: nat)
    requires from <= to <= |s| && lo <= hi <= to - from
    ensures s[from..to][lo..hi] == s[from + lo..from + hi]
  {
    assert forall i :: lo <= i < hi ==> s[from..to][i] == s[from + i];
  }

  lemma {:induction false} ImageSection(sha: Sha256, meta: Metadata, sections: seq<Section>, j: nat)
    requires meta.totalLen == Finish(sections, BodyStart(|sections|))
    requires j < |sections|
    ensures GoodEntry(sha, Image(sha, meta, sections), BodyStart(|sections|), j, Place(sections, BodyStart(|sections|))[j])
  {
    ImageContent(sha, meta, sections, j);
    ImageEntry(sha, meta, sections, j);
  }

  lemma {:induction false} ImagePadding(sha: Sha256, meta: Metadata, sections: seq<Section>)
    requires meta.totalLen == Finish(sections, BodyStart(|sections|))
    ensures PaddedWithZeros(Image(sha, meta, sections), Place(sections, BodyStart(|sections|)), BodyStart(|sections|))
  {
    var start, b := BodyStart(|sections|), Image(sha, meta, sections);
    ImageParts(sha, meta, sections);
    forall p: nat | start <= p < |b|
      ensures b[p] == 0 || Covered(Place(sections, start), p)
    {
      PlacedPadding(sections, start, p);
      assert b[p] == b[start..][p - start];
    }
  }

  lemma {:induction false} ImageIsWellFormed(sha: Sha256, meta: Metadata, sections: seq<Section>)
    requires |sections| <= MAX_SECTIONS
    requires meta.totalLen == Finish(sections, BodyStart(|sections|)) <= U64_MAX
    ensures var b, infos := Image(sha, meta, sections), Place(sections, BodyStart(|sections|));
            WellFormed(sha, b, meta, infos) && Slices(b, infos) == Contents(sections)
  {
    hide Image, Place, Finish, GoodEntry, PaddedWithZeros, HeadBytes, AggregateHead, AggregateBody, Directory, Body, SortBy, Disjoint;
    var start, b := BodyStart(|sections|), Image(sha, meta, sections);
    var infos := Place(sections, start);
    ImageParts(sha, meta, sections);
    forall j | 0 <= j < |sections|
      ensures GoodEntry(sha, b, start, j, infos[j])
    {
      ImageSection(sha, meta, sections, j);
    }
    GoodEntriesLieInTheBody(sha, b, infos);
    forall j | 0 <= j < |sections|
      ensures Slices(b, infos)[j] == Contents(sections)[j]
    {
      ImageContent(sha, meta, sections, j);
    }
    assert Slices(b, infos) == Contents(sections);
    PlacedInOrder(sections, start);
    SortBySorted(OffsetOf, infos);
    ImagePadding(sha, meta, sections);
  }

  /** The reader `r` shows the section list `sections`, in this order. */
  predicate Shows(r: Reader, sections: seq<Section>) {
    && |r.sections| == |sections| && InBounds(r.bytes, r.sections)
    && forall i: nat :: i < |sections|
         ==> && SectionOf(r, i) == Some((sections[i].kind, sections[i].bytes))
             && r.sections[i].flags == sections[i].flags
  }

  lemma {:induction false} ImageOpens(sha: Sha256, meta: Metadata, sections: seq<Section>)
    requires |sections| <= MAX_SECTIONS
    requires meta.totalLen == Finish(sections, BodyStart(|sections|)) <= U64_MAX
    ensures var b := Image(sha, meta, sections);
            && |b| == meta.totalLen && Open(sha, b).Ok? && Open(sha, b).value.bytes == b
            && Open(sha, b).value.metadata == meta && Shows(Open(sha, b).value, sections)
  {
    var start, b := BodyStart(|sections|), Image(sha, meta, sections);
    var infos := Place(sections, start);
    ImageIsWellFormed(sha, meta, sections);
    OpenAcceptsWellFormed(sha, b, meta, infos);
    forall i: nat | i < |sections|
      ensures SectionOf(Reader(b, meta, infos), i) == Some((sections[i].kind, sections[i].bytes))
      ensures infos[i].flags == sections[i].flags
    {
      PlacedInfo(sections, start, i);
      assert Slices(b, infos)[i] == Contents(sections)[i];
    }
  }

  /**
   * Whatever the writer produces, the reader accepts, and it returns the same
   * flags, identity and sections, in kind order and byte for byte.
   */
  lemma {:induction false} RoundTrip(sha: Sha256, id: SchemaId, fingerprint: Digest, flags: u32, sections: seq<Section>, b: Bytes)
    requires Encode(sha, id, fingerprint, flags, sections) == Ok(b)
    ensures Open(sha, b).Ok? && Open(sha, b).value.bytes == b
    ensures Open(sha, b).value.metadata == Metadata(flags, id, fingerprint, |b|)
    ensures Shows(Open(sha, b).value, SortBy(KindOf, sections))
  {
    var sorted := SortBy(KindOf, sections);
    MeasureIsFinish(sorted, BodyStart(|sorted|));
    ImageOpens(sha, Metadata(flags, id, fingerprint, Finish(sorted, BodyStart(|sorted|))), sorted);
  }

  // ----- the order of the input list does not matter -----

  lemma {:induction false} DuplicateDependsOnKinds(s: seq<Section>, t: seq<Section>)
    requires Keys(KindOf, s) == Keys(KindOf, t)
    ensures FirstDuplicate(s) == FirstDuplicate(t)
  {
    assert |s| == |Keys(KindOf, s)| == |t|;
    assert forall i :: 0 <= i < |s| ==> Keys(KindOf, s)[i] == s[i].kind && Keys(KindOf, t)[i] == t[i].kind;
    if |s| >= 2 {
      assert Keys(KindOf, s[1..]) == Keys(KindOf, s)[1..] && Keys(KindOf, t[1..]) == Keys(KindOf, t)[1..];
      DuplicateDependsOnKinds(s[1..], t[1..]);
    }
  }

  lemma {:induction false} NoTwinsMeansDistinct(s: seq<Section>)
    requires SortedBy(KindOf, s) && FirstDuplicate(s).None?
    ensures DistinctBy(KindOf, s)
  {
    forall i, j | 0 <= i < j < |s|
      ensures KindOf(s[i]) != KindOf(s[j])
    {
      assert !Twins(s, i);
      assert KindOf(s[i]) <= KindOf(s[i + 1]) && (i + 1 == j || KindOf(s[i + 1]) <= KindOf(s[j]));
    }
  }

  /** Every permutation of the sections gives the same bytes, or the same error. */
  lemma {:induction false} PermutationInvariance(
    sha: Sha256, id: SchemaId, fingerprint: Digest, flags: u32, s: seq<Section>, t: seq<Section>)
    requires multiset(s) == multiset(t)
    ensures Encode(sha, id, fingerprint, flags, s) == Encode(sha, id, fingerprint, flags, t)
  {
    assert |s| == |multiset(s)| == |multiset(t)| == |t|;
    SortedKeysAgree(KindOf, s, t);
    DuplicateDependsOnKinds(SortBy(KindOf, s), SortBy(KindOf, t));
    if FirstDuplicate(SortBy(KindOf, s)).None? {
      SortByIsStableSort(KindOf, s, 0);
      NoTwinsMeansDistinct(SortBy(KindOf, s));
      DistinctSortAgrees(KindOf, s, t);
    }
  }

  lemma {:induction false} DistinctKinds(s: seq<Section>)
    ensures Distinct(Keys(KindOf, s)) <==> forall i, j :: 0 <= i < j < |s| ==> s[i].kind != s[j].kind
  {
    var kinds := Keys(KindOf, s);
    assert forall i :: 0 <= i < |s| ==> kinds[i] == s[i].kind;
  }

  lemma {:induction false} NoTwinsIffDistinct(s: seq<Section>)
    requires SortedBy(KindOf, s)
    ensures FirstDuplicate(s).None? <==> Distinct(Keys(KindOf, s))
  {
    DistinctKinds(s);
    if FirstDuplicate(s).None? {
      NoTwinsMeansDistinct(s);
    } else {
      var i: nat :| Twins(s, i);
      assert s[i].kind == s[i + 1].kind;
    }
  }

  lemma {:induction false} SortedTwinsAreDuplicates(sections: seq<Section>)
    ensures FirstDuplicate(SortBy(KindOf, sections)).None?
       <==> forall i, j :: 0 <= i < j < |sections| ==> sections[i].kind != sections[j].kind
  {
    var sorted := SortBy(KindOf, sections);
    SortByIsStableSort(KindOf, sections, 0);
    NoTwinsIffDistinct(sorted);
    PermutedKeys(KindOf, sorted, sections);
    DistinctPermutation(Keys(KindOf, sorted), Keys(KindOf, sections));
    DistinctKinds(sections);
  }

  /** Encoding fails exactly for too many sections, a repeated kind, or a length beyond `u64`. */
  lemma {:induction false} EncodeSucceedsIff(sha: Sha256, id: SchemaId, fingerprint: Digest, flags: u32, sections: seq<Section>)
    ensures Encode(sha, id, fingerprint, flags, sections).Ok?
       <==> && |sections| <= 4096
            && (forall i, j :: 0 <= i < j < |sections| ==> sections[i].kind != sections[j].kind)
            && Finish(SortBy(KindOf, sections), BodyStart(|sections|)) <= U64_MAX
  {
    var sorted := SortBy(KindOf, sections);
    SortedTwinsAreDuplicates(sections);
    if |sections| <= MAX_SECTIONS {
      MeasureIsFinish(sorted, BodyStart(|sorted|));
    }
  }
}
