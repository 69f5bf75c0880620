/** The content checksum commits to every byte of a container, and which containers are written back as they were read. */
module HbiCommitment {
  import opened Prelude
  import opened Sorting
  import opened HbiFormat
  import opened HbiTheorems
  import LE = LittleEndian

  lemma {:induction false} HeadParts(flags: u32, count: nat, total: nat, id: SchemaId, fingerprint: Digest)
    ensures var a := AggregateHead(flags, count, total, id, fingerprint);
            && |a| == 70 && a[6..10] == LE.Encode(flags, 4) && a[10..14] == LE.Encode(count, 4)
            && a[14..22] == LE.Encode(total, 8) && a[22..38] == id && a[38..70] == fingerprint
  {
    hide LE.Encode;
  }

  lemma {:induction false} HeadInjective(
    flags: u32, count: nat, total: nat, id: SchemaId, fingerprint: Digest, x: Bytes,
    flags': u32, count': nat, total': nat, id': SchemaId, fingerprint': Digest, y: Bytes)
    requires count <= MAX_SECTIONS && count' <= MAX_SECTIONS && total <= U64_MAX && total' <= U64_MAX
    requires AggregateHead(flags, count, total, id, fingerprint) + x == AggregateHead(flags', count', total', id', fingerprint') + y
    ensures flags == flags' && count == count' && total == total' && id == id' && fingerprint == fingerprint' && x == y
  {
    hide AggregateHead, LE.Encode, LE.Decode;
    var a := AggregateHead(flags, count, total, id, fingerprint);
    var b := AggregateHead(flags', count', total', id', fingerprint');
    HeadParts(flags, count, total, id, fingerprint);
    HeadParts(flags', count', total', id', fingerprint');
    assert a == (a + x)[..70] && b == (b + y)[..70] && x == (a + x)[70..] && y == (b + y)[70..];
    LE.U32RoundTrip(flags);
    LE.U32RoundTrip(flags');
    LE.U32RoundTrip(count);
    LE.U32RoundTrip(count');
    LE.U64RoundTrip(total);
    LE.U64RoundTrip(total');
  }

  lemma {:induction false} InfoInjective(a: SectionInfo, b: SectionInfo)
    requires a.offset <= U64_MAX && a.length <= U64_MAX && b.offset <= U64_MAX && b.length <= U64_MAX
    requires InfoBytes(a) == InfoBytes(b)
    ensures a == b
  {
    hide InfoBytes, Get;
    var bytes := InfoBytes(a);
    assert bytes[0..0 + 24] == bytes;
    InfoFields(bytes, 0, a);
    InfoFields(bytes, 0, b);
  }

  /** Every section's content is as long as its entry says. */
  ghost predicate Sized(infos: seq<SectionInfo>, contents: seq<Bytes>) {
    && |infos| == |contents|
    && forall i | 0 <= i < |infos| ::
         infos[i].offset <= U64_MAX && infos[i].length <= U64_MAX && |contents[i]| == infos[i].length
  }

  /** The stream hashed for the sections can be read back, given their number. */
  lemma {:induction false} BodyInjective(infos: seq<SectionInfo>, xs: seq<Bytes>, others: seq<SectionInfo>, ys: seq<Bytes>)
    requires Sized(infos, xs) && Sized(others, ys) && |infos| == |others|
    requires AggregateBody(infos, xs) == AggregateBody(others, ys)
    ensures infos == others && xs == ys
    decreases |infos|
  {
    hide InfoBytes;
    if infos != [] {
      var s := AggregateBody(infos, xs);
      var p, q := AggregateBody(infos[1..], xs[1..]), AggregateBody(others[1..], ys[1..]);
      assert s == InfoBytes(infos[0]) + xs[0] + p == InfoBytes(others[0]) + ys[0] + q;
      assert s[..24] == InfoBytes(infos[0]) && s[..24] == InfoBytes(others[0]);
      InfoInjective(infos[0], others[0]);
      var n := 24 + |xs[0]|;
      assert s[24..n] == xs[0] && s[24..n] == ys[0] && s[n..] == p && s[n..] == q;
      BodyInjective(infos[1..], xs[1..], others[1..], ys[1..]);
      assert infos == [infos[0]] + infos[1..] && others == [others[0]] + others[1..];
      assert xs == [xs[0]] + xs[1..] && ys == [ys[0]] + ys[1..];
    }
  }

  /** What the content checksum of an open container, whose sections are all in bounds, is the hash of. */
  function Hashed(r: Reader): Bytes {
    var meta := r.metadata;
    AggregateHead(meta.flags, |r.sections|, meta.totalLen, meta.schemaId, meta.fingerprint)
    + if InBounds(r.bytes, r.sections) then AggregateBody(r.sections, Slices(r.bytes, r.sections)) else []
  }

  lemma {:induction false} AcceptedIsSized(sha: Sha256, r: Reader)
    requires WellFormed(sha, r.bytes, r.metadata, r.sections)
    ensures Sized(r.sections, Slices(r.bytes, r.sections))
    ensures |r.sections| <= MAX_SECTIONS && r.metadata.totalLen <= U64_MAX
    ensures r.bytes[80..112] == sha(Hashed(r))
  {
    hide GoodEntries, PaddedWithZeros, HeadBytes, AggregateHead, AggregateBody;
    forall i | 0 <= i < |r.sections|
      ensures r.sections[i].End() <= |r.bytes|
    {
      assert r.sections[i] in r.sections;
    }
  }

  /**
   * Two accepted containers with the same 32 checksum bytes are the same bytes
   * throughout, unless SHA-256 collides on the two streams hashed for them.
   */
  lemma {:induction false} ChecksumCommitsToContainer(sha: Sha256, b: Bytes, c: Bytes)
    requires Open(sha, b).Ok? && Open(sha, c).Ok? && |b| >= 112 && |c| >= 112 && b[80..112] == c[80..112]
    requires sha(Hashed(Open(sha, b).value)) == sha(Hashed(Open(sha, c).value))
         ==> Hashed(Open(sha, b).value) == Hashed(Open(sha, c).value)
    ensures b == c
  {
    hide Open, AggregateHead, AggregateBody, WellFormed, Sized;
    var rb, rc := Open(sha, b).value, Open(sha, c).value;
    OpenGivesInBounds(sha, b, rb);
    OpenGivesInBounds(sha, c, rc);
    AcceptedIsSized(sha, rb);
    AcceptedIsSized(sha, rc);
    var xs, ys := Slices(b, rb.sections), Slices(c, rc.sections);
    HeadInjective(
      rb.metadata.flags, |rb.sections|, rb.metadata.totalLen, rb.metadata.schemaId, rb.metadata.fingerprint, AggregateBody(rb.sections, xs),
      rc.metadata.flags, |rc.sections|, rc.metadata.totalLen, rc.metadata.schemaId, rc.metadata.fingerprint, AggregateBody(rc.sections, ys));
    BodyInjective(rb.sections, xs, rc.sections, ys);
    forall i: nat
      ensures SectionOf(rb, i) == SectionOf(rc, i)
    {
      if i < |rb.sections| {
        assert xs[i] == ys[i];
      }
    }
    ReaderPinsEveryByte(sha, b, c, rb, rc);
  }

  // ----- reading and writing back -----

  /** The sections of an open container, as a caller would hand them to the writer. */
  function SectionsOf(r: Reader): (sections: seq<Section>)
    requires InBounds(r.bytes, r.sections)
    ensures |sections| == |r.sections|
  {
    seq(|r.sections|, i requires 0 <= i < |r.sections| =>
        Section(r.sections[i].kind, r.sections[i].flags, Slices(r.bytes, r.sections)[i]))
  }

  ghost predicate KindsRise(sections: seq<Section>) {
    forall i, j | 0 <= i < j < |sections| :: sections[i].kind < sections[j].kind
  }

  /** The directory is in kind order, and every section lies where the writer would have put it. */
  ghost predicate AsWritten(r: Reader)
    requires InBounds(r.bytes, r.sections)
  {
    var sections := SectionsOf(r);
    && KindsRise(sections)
    && r.sections == Place(sections, BodyStart(|sections|))
    && r.metadata.totalLen == Finish(sections, BodyStart(|sections|))
  }

  function Rewritten(sha: Sha256, r: Reader): Result<Bytes, Error>
    requires InBounds(r.bytes, r.sections)
  {
    Encode(sha, r.metadata.schemaId, r.metadata.fingerprint, r.metadata.flags, SectionsOf(r))
  }

  lemma {:induction false} RisingIsSorted(sections: seq<Section>)
    ensures KindsRise(sections) <==> SortedBy(KindOf, sections) && FirstDuplicate(sections).None?
  {
    hide FirstDuplicate;
    if SortedBy(KindOf, sections) && FirstDuplicate(sections).None? {
      NoTwinsMeansDistinct(sections);
    }
    if KindsRise(sections) {
      assert forall i: nat :: !Twins(sections, i);
    }
  }

  lemma {:induction false} PlaceKinds(sections: seq<Section>, at: nat)
    ensures forall i | 0 <= i < |sections| :: Place(sections, at)[i].kind == sections[i].kind
  {
    forall i | 0 <= i < |sections|
      ensures Place(sections, at)[i].kind == sections[i].kind
    {
      PlacedInfo(sections, at, i);
    }
  }

  /** What the writer makes of rising kinds is their image, in the given order. */
  lemma {:induction false} RisingIsWritten(sha: Sha256, id: SchemaId, fingerprint: Digest, flags: u32, sections: seq<Section>)
    requires KindsRise(sections) && |sections| <= MAX_SECTIONS && Finish(sections, BodyStart(|sections|)) <= U64_MAX
    ensures Encode(sha, id, fingerprint, flags, sections)
         == Ok(Image(sha, Metadata(flags, id, fingerprint, Finish(sections, BodyStart(|sections|))), sections))
  {
    hide Image, Measure, Finish, FirstDuplicate, KindsRise;
    RisingIsSorted(sections);
    SortBySorted(KindOf, sections);
    assert BodyStart(|sections|) <= U64_MAX;
    MeasureIsFinish(sections, BodyStart(|sections|));
  }

  lemma {:induction false} WrittenBackIsSame(sha: Sha256, r: Reader)
    requires Open(sha, r.bytes) == Ok(r) && InBounds(r.bytes, r.sections) && AsWritten(r)
    ensures Rewritten(sha, r) == Ok(r.bytes)
  {
    hide Open, Image, Place, Finish, Encode, WellFormed, KindsRise, SectionsOf;
    var sections := SectionsOf(r);
    OpenGivesInBounds(sha, r.bytes, r);
    AcceptedIsSized(sha, r);
    RisingIsWritten(sha, r.metadata.schemaId, r.metadata.fingerprint, r.metadata.flags, sections);
    var image := Image(sha, r.metadata, sections);
    ImageIsWellFormed(sha, r.metadata, sections);
    OpenAcceptsWellFormed(sha, image, r.metadata, r.sections);
    SameContents(r);
    PinnedByContents(sha, r.bytes, image, r.metadata, r.sections);
  }

  lemma {:induction false} SameContents(r: Reader)
    requires InBounds(r.bytes, r.sections)
    ensures Contents(SectionsOf(r)) == Slices(r.bytes, r.sections)
  {
  }

  lemma {:induction false} PinnedByContents(sha: Sha256, b: Bytes, c: Bytes, meta: Metadata, infos: seq<SectionInfo>)
    requires WellFormed(sha, b, meta, infos) && WellFormed(sha, c, meta, infos) && Slices(b, infos) == Slices(c, infos)
    ensures b == c
  {
    hide GoodDirectory, Checksum;
    forall p | 0 <= p < |b|
      ensures b[p] == c[p]
    {
      SameByte(sha, b, c, meta, infos, p);
    }
  }

  lemma {:induction false} SameIsAsWritten(sha: Sha256, r: Reader)
    requires Open(sha, r.bytes) == Ok(r) && InBounds(r.bytes, r.sections) && Rewritten(sha, r) == Ok(r.bytes)
    ensures AsWritten(r)
  {
    hide Open, Image, Place, Finish, Measure, WellFormed, FirstDuplicate, KindsRise, SortBy;
    var sections := SectionsOf(r);
    var sorted := SortBy(KindOf, sections);
    var start := BodyStart(|sorted|);
    assert start <= U64_MAX;
    MeasureIsFinish(sorted, start);
    var meta := Metadata(r.metadata.flags, r.metadata.schemaId, r.metadata.fingerprint, Finish(sorted, start));
    assert r.bytes == Image(sha, meta, sorted);
    ImageIsWellFormed(sha, meta, sorted);
    OpenAcceptsWellFormed(sha, r.bytes, meta, Place(sorted, start));
    assert r.sections == Place(sorted, start) && r.metadata == meta;
    PlaceKinds(sorted, start);
    SortByIsStableSort(KindOf, sections, 0);
    RisingIsSorted(sorted);
    assert KindsRise(sections) by {
      SameKinds(sections, sorted);
    }
    RisingIsSorted(sections);
    SortBySorted(KindOf, sections);
  }

  lemma {:induction false} SameKinds(a: seq<Section>, b: seq<Section>)
    requires |a| == |b| && KindsRise(b) && forall i | 0 <= i < |a| :: a[i].kind == b[i].kind
    ensures KindsRise(a)
  {
  }

  /**
   * A container that was read is written back as the same bytes exactly if its
   * directory is in strict kind order and its sections lie where the writer puts
   * them; the reader itself demands neither.
   */
  lemma {:induction false} RewriteIff(sha: Sha256, r: Reader)
    requires Open(sha, r.bytes) == Ok(r) && InBounds(r.bytes, r.sections)
    ensures Rewritten(sha, r) == Ok(r.bytes) <==> AsWritten(r)
  {
    hide Open, Rewritten, AsWritten;
    if AsWritten(r) {
      WrittenBackIsSame(sha, r);
    }
    if Rewritten(sha, r) == Ok(r.bytes) {
      SameIsAsWritten(sha, r);
    }
  }

  /** A container the writer refuses to write and the reader takes: two sections of one kind. */
  lemma {:induction false} ReaderTakesTwins(sha: Sha256, id: SchemaId, fingerprint: Digest, flags: u32, kind: u32) returns (b: Bytes)
    ensures Open(sha, b).Ok? && Shows(Open(sha, b).value, [Section(kind, 0, []), Section(kind, 0, [])])
    ensures Encode(sha, id, fingerprint, flags, [Section(kind, 0, []), Section(kind, 0, [])]).Err?
  {
    hide Open, Image, Encode, Shows;
    var empty := Section(kind, 0, []);
    var twins := [empty, empty];
    assert twins[1..] == [empty] && [empty][1..] == [];
    var total := Finish(twins, BodyStart(2));
    assert BodyStart(2) == 224 && Padded(224) == 224;
    assert Finish([], 224) == 224;
    assert Finish([empty], 224) == Finish([], 224 + 0);
    assert total == Finish([empty], 224 + 0);
    b := Image(sha, Metadata(flags, id, fingerprint, total), twins);
    ImageOpens(sha, Metadata(flags, id, fingerprint, total), twins);
    EncodeSucceedsIff(sha, id, fingerprint, flags, twins);
    assert twins[0].kind == twins[1].kind;
  }
}
