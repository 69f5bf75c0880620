/**
 * The HBI writer and reader as they run: the writer fills one buffer in place
 * behind a moving cursor and feeds a running hash, the reader walks the
 * directory and then the sections in offset order.
 */
module HbiCodec {
  import opened Prelude
  import opened Sorting
  import opened HbiFormat
  import opened HbiTheorems
  import LE = LittleEndian

  function Overwrite(s: Bytes, offset: nat, value: Bytes): Bytes
    requires offset + |value| <= |s|
  {
    s[..offset] + value + s[offset + |value|..]
  }

  method PutBytes(buffer: array<byte>, offset: nat, value: Bytes)
    requires offset + |value| <= buffer.Length
    modifies buffer
    ensures buffer[..] == Overwrite(old(buffer[..]), offset, value)
  {
    var i := 0;
    while i < |value|
      invariant 0 <= i <= |value|
      invariant buffer[..] == Overwrite(old(buffer[..]), offset, value[..i])
    {
      buffer[offset + i] := value[i];
      i := i + 1;
      assert value[..i] == value[..i - 1] + [value[i - 1]];
    }
    assert value[..i] == value;
  }

  lemma {:induction false} OverwriteTwice(s: Bytes, offset: nat, v: Bytes, w: Bytes)
    requires offset + |v| + |w| <= |s|
    ensures Overwrite(Overwrite(s, offset, v), offset + |v|, w) == Overwrite(s, offset, v + w)
  {
  }

  lemma {:induction false} OverwriteZeros(left: Bytes, n: nat, right: Bytes, v: Bytes)
    requires |v| <= n
    ensures Overwrite(left + Zeros(n) + right, |left|, v) == left + v + Zeros(n - |v|) + right
  {
  }

  lemma {:induction false} OverwriteAfterGap(left: Bytes, n: nat, gap: nat, v: Bytes)
    requires gap + |v| <= n
    ensures Overwrite(left + Zeros(n), |left| + gap, v) == left + Zeros(gap) + v + Zeros(n - gap - |v|)
  {
  }

  method PutHeader(buffer: array<byte>, flags: u32, count: nat, total: nat, id: SchemaId, fingerprint: Digest)
    requires buffer.Length >= HEADER_LEN && buffer[..] == Zeros(buffer.Length)
    modifies buffer
    ensures buffer[..] == HeadBytes(flags, count, total, id, fingerprint) + Zeros(buffer.Length - 80)
  {
    ghost var blank := buffer[..];
    PutBytes(buffer, 0, MAGIC);
    PutBytes(buffer, 8, LE.Encode(VERSION, 2));
    PutBytes(buffer, 10, LE.Encode(HEADER_LEN, 2));
    PutBytes(buffer, 12, [ENDIAN_LITTLE]);
    PutBytes(buffer, 13, [ALIGNMENT]);
    PreambleWritten(blank);
    assert buffer[..] == Preamble() + Zeros(buffer.Length - 16);
    ghost var lead := buffer[..];
    PutBytes(buffer, 16, LE.Encode(flags, 4));
    PutBytes(buffer, 20, LE.Encode(count, 4));
    PutBytes(buffer, 24, LE.Encode(total, 8));
    PutBytes(buffer, 32, id);
    PutBytes(buffer, 48, fingerprint);
    FieldsWritten(lead, flags, count, total, id, fingerprint);
  }

  lemma {:induction false} PreambleWritten(blank: Bytes)
    requires |blank| >= HEADER_LEN && blank == Zeros(|blank|)
    ensures Overwrite(Overwrite(Overwrite(Overwrite(Overwrite(blank, 0, MAGIC), 8, LE.Encode(VERSION, 2)),
              10, LE.Encode(HEADER_LEN, 2)), 12, [ENDIAN_LITTLE]), 13, [ALIGNMENT])
         == Preamble() + Zeros(|blank| - 16)
  {
    var v, h := LE.Encode(VERSION, 2), LE.Encode(HEADER_LEN, 2);
    OverwriteTwice(blank, 0, MAGIC, v);
    OverwriteTwice(blank, 0, MAGIC + v, h);
    OverwriteTwice(blank, 0, MAGIC + v + h, [ENDIAN_LITTLE]);
    OverwriteTwice(blank, 0, MAGIC + v + h + [ENDIAN_LITTLE], [ALIGNMENT]);
    assert MAGIC + v + h + [ENDIAN_LITTLE] + [ALIGNMENT] + [0, 0] == Preamble();
    assert blank[14..] == [0, 0] + Zeros(|blank| - 16);
  }

  lemma {:induction false} FieldsWritten(lead: Bytes, flags: u32, count: nat, total: nat, id: SchemaId, fingerprint: Digest)
    requires |lead| >= HEADER_LEN && lead == Preamble() + Zeros(|lead| - 16)
    ensures Overwrite(Overwrite(Overwrite(Overwrite(Overwrite(lead, 16, LE.Encode(flags, 4)), 20, LE.Encode(count, 4)),
              24, LE.Encode(total, 8)), 32, id), 48, fingerprint)
         == HeadBytes(flags, count, total, id, fingerprint) + Zeros(|lead| - 80)
  {
    var f, c, t := LE.Encode(flags, 4), LE.Encode(count, 4), LE.Encode(total, 8);
    OverwriteTwice(lead, 16, f, c);
    OverwriteTwice(lead, 16, f + c, t);
    OverwriteTwice(lead, 16, f + c + t, id);
    OverwriteTwice(lead, 16, f + c + t + id, fingerprint);
    var all := f + c + t + id + fingerprint;
    assert all == f + (c + (t + (id + fingerprint)));
    OverwriteZeros(Preamble(), |lead| - 16, [], all);
    assert lead == Preamble() + Zeros(|lead| - 16) + [];
  }

  method PutEntry(buffer: array<byte>, entry: nat, info: SectionInfo, checksum: Digest)
    requires entry + 56 <= buffer.Length
    modifies buffer
    ensures buffer[..] == Overwrite(old(buffer[..]), entry, EntryBytes(info, checksum))
  {
    ghost var before := buffer[..];
    var k, f, o, l := LE.Encode(info.kind, 4), LE.Encode(info.flags, 4), LE.Encode(info.offset, 8), LE.Encode(info.length, 8);
    PutBytes(buffer, entry, k);
    PutBytes(buffer, entry + 4, f);
    PutBytes(buffer, entry + 8, o);
    PutBytes(buffer, entry + 16, l);
    PutBytes(buffer, entry + 24, checksum);
    OverwriteTwice(before, entry, k, f);
    OverwriteTwice(before, entry, k + f, o);
    OverwriteTwice(before, entry, k + f + o, l);
    OverwriteTwice(before, entry, k + f + o + l, checksum);
    assert k + f + o + l == InfoBytes(info);
  }

  method CheckKinds(sorted: seq<Section>) returns (r: Option<nat>)
    ensures r == FirstDuplicate(sorted)
  {
    var i := 0;
    while i + 1 < |sorted|
      invariant 0 <= i && (i <= |sorted| - 1 || i == 0)
      invariant FirstDuplicate(sorted) == FirstDuplicate(sorted[i..])
    {
      if sorted[i].kind == sorted[i + 1].kind {
        return Some(sorted[i].kind);
      }
      assert sorted[i..][1..] == sorted[i + 1..];
      i := i + 1;
    }
    return None;
  }

  method MeasureAll(sorted: seq<Section>) returns (r: Result<nat, Error>)
    ensures r == Measure(sorted, BodyStart(|sorted|))
  {
    var total: nat := BodyStart(|sorted|);
    var i := 0;
    while i < |sorted|
      invariant 0 <= i <= |sorted|
      invariant Measure(sorted, BodyStart(|sorted|)) == Measure(sorted[i..], total)
    {
      var start := AlignUp(total);
      if start.Err? {
        return Err(start.error);
      }
      if start.value + |sorted[i].bytes| > U64_MAX {
        return Err(ArithmeticOverflow);
      }
      total := start.value + |sorted[i].bytes|;
      assert sorted[i..][1..] == sorted[i + 1..];
      i := i + 1;
    }
    return AlignUp(total);
  }

  /** One turn of the fill loop, seen from what is still to be written. */
  lemma {:induction false} FillStep(sha: Sha256, rest: seq<Section>, cursor: nat, total: nat)
    requires rest != [] && Finish(rest, cursor) == total
    ensures var offset, content := Padded(cursor), rest[0].bytes;
            var info := SectionInfo(rest[0].kind, rest[0].flags, offset, |content|);
            var next := offset + |content|;
            && next <= total && Finish(rest[1..], next) == total
            && Body(rest, cursor, total) == Zeros(offset - cursor) + content + Body(rest[1..], next, total)
            && Directory(sha, Place(rest, cursor), Contents(rest))
               == EntryBytes(info, sha(content)) + Directory(sha, Place(rest[1..], next), Contents(rest[1..]))
            && AggregateBody(Place(rest, cursor), Contents(rest))
               == InfoBytes(info) + content + AggregateBody(Place(rest[1..], next), Contents(rest[1..]))
  {
    var next := Padded(cursor) + |rest[0].bytes|;
    assert Place(rest, cursor)[1..] == Place(rest[1..], next);
    assert Contents(rest)[1..] == Contents(rest[1..]);
  }

  /** The buffer while `i` of `n` sections are in place. */
  ghost function Partial(head: Bytes, directory: Bytes, missing: nat, body: Bytes, left: nat): Bytes {
    head + Zeros(32) + directory + Zeros(56 * missing) + body + Zeros(left)
  }

  lemma {:induction false} EntryWritten(head: Bytes, directory: Bytes, missing: nat, body: Bytes, left: nat, entry: Bytes)
    requires |entry| == 56 && missing > 0
    ensures |head| + 32 + |directory| + 56 <= |Partial(head, directory, missing, body, left)|
    ensures Overwrite(Partial(head, directory, missing, body, left), |head| + 32 + |directory|, entry)
         == Partial(head, directory + entry, missing - 1, body, left)
  {
    var front := head + Zeros(32) + directory;
    OverwriteZeros(front, 56 * missing, body + Zeros(left), entry);
    assert Partial(head, directory, missing, body, left) == front + Zeros(56 * missing) + (body + Zeros(left));
  }

  lemma {:induction false} ContentWritten(head: Bytes, directory: Bytes, missing: nat, body: Bytes, left: nat, gap: nat, content: Bytes)
    requires gap + |content| <= left
    ensures |head| + 32 + |directory| + 56 * missing + |body| + gap + |content|
         <= |Partial(head, directory, missing, body, left)|
    ensures Overwrite(Partial(head, directory, missing, body, left),
                      |head| + 32 + |directory| + 56 * missing + |body| + gap, content)
         == Partial(head, directory, missing, body + (Zeros(gap) + content), left - gap - |content|)
  {
    assert body + (Zeros(gap) + content) == body + Zeros(gap) + content;
    var front := head + Zeros(32) + directory + Zeros(56 * missing) + body;
    OverwriteAfterGap(front, left, gap, content);
  }

  lemma {:induction false} ChecksumWritten(head: Bytes, directory: Bytes, body: Bytes, sum: Digest)
    ensures Overwrite(head + Zeros(32) + directory + body, |head|, sum) == head + sum + directory + body
  {
    OverwriteZeros(head, 32, directory + body, sum);
    assert head + Zeros(32) + directory + body == head + Zeros(32) + (directory + body);
  }

  /** Writes one section: its directory entry, then its bytes at the aligned cursor. */
  method PutSection(
    buffer: array<byte>, index: nat, info: SectionInfo, checksum: Digest, content: Bytes,
    ghost head: Bytes, ghost directory: Bytes, ghost missing: nat, ghost body: Bytes, ghost left: nat, ghost gap: nat)
    requires buffer[..] == Partial(head, directory, missing, body, left)
    requires |head| == 80 && |directory| == 56 * index && missing > 0 && gap + |content| <= left
    requires info.offset == BodyStart(index + missing) + |body| + gap
    modifies buffer
    ensures buffer[..]
         == Partial(head, directory + EntryBytes(info, checksum), missing - 1, body + (Zeros(gap) + content), left - gap - |content|)
  {
    assert BodyStart(index) == |head| + 32 + |directory|;
    EntryWritten(head, directory, missing, body, left, EntryBytes(info, checksum));
    PutEntry(buffer, BodyStart(index), info, checksum);
    ghost var written := directory + EntryBytes(info, checksum);
    assert info.offset == |head| + 32 + |written| + 56 * (missing - 1) + |body| + gap;
    ContentWritten(head, written, missing - 1, body, left, gap, content);
    PutBytes(buffer, info.offset, content);
  }

  /** The three streams a container is made of: the directory, the body, and what is hashed. */
  datatype Streams = Streams(directory: Bytes, body: Bytes, hashed: Bytes) {
    function Then(next: Streams): Streams {
      Streams(directory + next.directory, body + next.body, hashed + next.hashed)
    }
  }

  ghost function Remaining(sha: Sha256, rest: seq<Section>, cursor: nat, total: nat): Streams {
    var infos, contents := Place(rest, cursor), Contents(rest);
    Streams(Directory(sha, infos, contents), Body(rest, cursor, total), AggregateBody(infos, contents))
  }

  function Emitted(sha: Sha256, info: SectionInfo, gap: nat, content: Bytes): Streams {
    Streams(EntryBytes(info, sha(content)), Zeros(gap) + content, InfoBytes(info) + content)
  }

  lemma {:induction false} ThenAssociates(p: Streams, q: Streams, r: Streams)
    ensures p.Then(q.Then(r)) == p.Then(q).Then(r)
  {
    assert p.directory + (q.directory + r.directory) == p.directory + q.directory + r.directory;
    assert p.body + (q.body + r.body) == p.body + q.body + r.body;
    assert p.hashed + (q.hashed + r.hashed) == p.hashed + q.hashed + r.hashed;
  }

  lemma {:induction false} RemainingStep(sha: Sha256, rest: seq<Section>, cursor: nat, total: nat, info: SectionInfo)
    requires rest != [] && Finish(rest, cursor) == total
    requires info == SectionInfo(rest[0].kind, rest[0].flags, Padded(cursor), |rest[0].bytes|)
    ensures cursor <= info.offset && info.End() <= total && Finish(rest[1..], info.End()) == total
    ensures Remaining(sha, rest, cursor, total)
         == Emitted(sha, info, info.offset - cursor, rest[0].bytes).Then(Remaining(sha, rest[1..], info.End(), total))
  {
    FillStep(sha, rest, cursor, total);
  }

  lemma {:induction false} ProgressStep(
    sha: Sha256, rest: seq<Section>, cursor: nat, total: nat, info: SectionInfo, done: Streams, all: Streams)
    requires rest != [] && Finish(rest, cursor) == total
    requires info == SectionInfo(rest[0].kind, rest[0].flags, Padded(cursor), |rest[0].bytes|)
    requires done.Then(Remaining(sha, rest, cursor, total)) == all
    ensures cursor <= info.offset && info.End() <= total && Finish(rest[1..], info.End()) == total
    ensures done.Then(Emitted(sha, info, info.offset - cursor, rest[0].bytes))
            .Then(Remaining(sha, rest[1..], info.End(), total)) == all
  {
    RemainingStep(sha, rest, cursor, total, info);
    ThenAssociates(done, Emitted(sha, info, info.offset - cursor, rest[0].bytes),
                   Remaining(sha, rest[1..], info.End(), total));
  }

  lemma {:induction false} RemainingDone(sha: Sha256, cursor: nat, total: nat, done: Streams)
    requires cursor <= total
    ensures done.Then(Remaining(sha, [], cursor, total)) == done.(body := done.body + Zeros(total - cursor))
  {
  }

  /** The whole container from its finished streams. */
  ghost function Assemble(sha: Sha256, meta: Metadata, count: nat, all: Streams): Bytes {
    HeadBytes(meta.flags, count, meta.totalLen, meta.schemaId, meta.fingerprint)
    + sha(AggregateHead(meta.flags, count, meta.totalLen, meta.schemaId, meta.fingerprint) + all.hashed)
    + all.directory + all.body
  }

  lemma {:induction false} ImageIsAssembled(sha: Sha256, meta: Metadata, sorted: seq<Section>)
    ensures Image(sha, meta, sorted)
         == Assemble(sha, meta, |sorted|, Remaining(sha, sorted, BodyStart(|sorted|), meta.totalLen))
  {
  }

  lemma {:induction false} BlankIsPartial(head: Bytes, n: nat, total: nat)
    requires |head| == 80 && BodyStart(n) <= total
    ensures head + Zeros(total - 80) == Partial(head, [], n, [], total - BodyStart(n))
  {
  }

  lemma {:induction false} PartialDone(head: Bytes, directory: Bytes, body: Bytes, left: nat)
    ensures Partial(head, directory, 0, body, left) == head + Zeros(32) + directory + (body + Zeros(left))
  {
    assert head + Zeros(32) + directory + Zeros(0) == head + Zeros(32) + directory;
  }

  /** `index` sections are in place, `rest` is still to come, and together they make up `all`. */
  ghost predicate Filling(
    sha: Sha256, n: nat, index: nat, rest: seq<Section>, cursor: nat, total: nat, done: Streams, all: Streams)
  {
    && index + |rest| == n && BodyStart(n) <= cursor <= total <= U64_MAX && Finish(rest, cursor) == total
    && |done.directory| == 56 * index && |done.body| == cursor - BodyStart(n)
    && done.Then(Remaining(sha, rest, cursor, total)) == all
  }

  /** One turn of the loop over the sections. */
  method FillOne(
    sha: Sha256, buffer: array<byte>, index: nat, section: Section, cursor: nat, ghost head: Bytes,
    ghost n: nat, ghost rest: seq<Section>, ghost total: nat, ghost done: Streams, ghost all: Streams)
    returns (next: nat, hashed: Bytes, ghost grown: Streams)
    requires |head| == 80 && rest != [] && section == rest[0]
    requires Filling(sha, n, index, rest, cursor, total, done, all)
    requires buffer[..] == Partial(head, done.directory, |rest|, done.body, total - cursor)
    modifies buffer
    ensures Filling(sha, n, index + 1, rest[1..], next, total, grown, all) && grown.hashed == done.hashed + hashed
    ensures buffer[..] == Partial(head, grown.directory, |rest| - 1, grown.body, total - next)
  {
    var aligned := AlignUp(cursor);
    var info := SectionInfo(section.kind, section.flags, Padded(cursor), |section.bytes|);
    ProgressStep(sha, rest, cursor, total, info, done, all);
    assert aligned == Ok(info.offset);
    PutSection(buffer, index, info, sha(section.bytes), section.bytes,
               head, done.directory, |rest|, done.body, total - cursor, info.offset - cursor);
    hashed := InfoBytes(info) + section.bytes;
    grown := done.Then(Emitted(sha, info, info.offset - cursor, section.bytes));
    next := info.End();
  }

  /** The loop over the sections. */
  method FillSections(sha: Sha256, buffer: array<byte>, sorted: seq<Section>, total: nat, ghost head: Bytes)
    returns (hashed: Bytes, ghost done: Streams)
    requires |head| == 80 && BodyStart(|sorted|) <= total && Finish(sorted, BodyStart(|sorted|)) == total <= U64_MAX
    requires buffer[..] == Partial(head, [], |sorted|, [], total - BodyStart(|sorted|))
    modifies buffer
    ensures done == Remaining(sha, sorted, BodyStart(|sorted|), total) && hashed == done.hashed
    ensures buffer[..] == head + Zeros(32) + done.directory + done.body
  {
    var n, start := |sorted|, BodyStart(|sorted|);
    var cursor: nat, i := start, 0;
    hashed, done := [], Streams([], [], []);
    ghost var all := Remaining(sha, sorted, start, total);
    assert sorted[0..] == sorted;
    NothingThen(all);
    while i < n
      invariant 0 <= i <= n && Filling(sha, n, i, sorted[i..], cursor, total, done, all)
      invariant buffer[..] == Partial(head, done.directory, n - i, done.body, total - cursor)
      invariant hashed == done.hashed
    {
      assert sorted[i..][1..] == sorted[i + 1..];
      var piece;
      cursor, piece, done := FillOne(sha, buffer, i, sorted[i], cursor, head, n, sorted[i..], total, done, all);
      hashed := hashed + piece;
      i := i + 1;
    }
    assert sorted[n..] == [];
    RemainingDone(sha, cursor, total, done);
    PartialDone(head, done.directory, done.body, total - cursor);
    done := all;
  }

  lemma {:induction false} NothingThen(all: Streams)
    ensures Streams([], [], []).Then(all) == all
  {
  }

  method Fill(sha: Sha256, meta: Metadata, sorted: seq<Section>) returns (buffer: array<byte>)
    requires Finish(sorted, BodyStart(|sorted|)) == meta.totalLen <= U64_MAX
    ensures fresh(buffer) && buffer[..] == Image(sha, meta, sorted)
  {
    var n, start, total := |sorted|, BodyStart(|sorted|), meta.totalLen;
    buffer := new byte[total](_ => 0);
    assert buffer[..] == Zeros(total);
    PutHeader(buffer, meta.flags, n, total, meta.schemaId, meta.fingerprint);
    ghost var head := HeadBytes(meta.flags, n, total, meta.schemaId, meta.fingerprint);
    BlankIsPartial(head, n, total);
    var hashed;
    ghost var done;
    hashed, done := FillSections(sha, buffer, sorted, total, head);
    var checksum := sha(AggregateHead(meta.flags, n, total, meta.schemaId, meta.fingerprint) + hashed);
    ChecksumWritten(head, done.directory, done.body, checksum);
    PutBytes(buffer, 80, checksum);
    ImageIsAssembled(sha, meta, sorted);
  }

  method EncodeWithIdentity(sha: Sha256, id: SchemaId, fingerprint: Digest, flags: u32, sections: seq<Section>)
    returns (r: Result<Bytes, Error>)
    ensures r == Encode(sha, id, fingerprint, flags, sections)
  {
    if |sections| > MAX_SECTIONS {
      return Err(TooManySections(|sections| % 0x1_0000_0000));
    }
    var sorted := SortBy(KindOf, sections);
    var duplicate := CheckKinds(sorted);
    if duplicate.Some? {
      return Err(DuplicateSectionKind(duplicate.value));
    }
    var total := MeasureAll(sorted);
    if total.Err? {
      return Err(total.error);
    }
    MeasureIsFinish(sorted, BodyStart(|sorted|));
    var buffer := Fill(sha, Metadata(flags, id, fingerprint, total.value), sorted);
    return Ok(buffer[..]);
  }

  // ----- the reader -----

  method ReadDirectory(sha: Sha256, b: Bytes, count: nat) returns (r: Result<seq<SectionInfo>, Error>)
    requires BodyStart(count) <= |b| <= U64_MAX
    ensures r == ReadEntries(sha, b, count, [])
  {
    var sections: seq<SectionInfo> := [];
    while |sections| < count
      invariant |sections| <= count && InBounds(b, sections)
      invariant ReadEntries(sha, b, count, []) == ReadEntries(sha, b, count, sections)
      decreases count - |sections|
    {
      var info := ReadEntry(sha, b, BodyStart(count), |sections|);
      if info.Err? {
        return Err(info.error);
      }
      sections := sections + [info.value];
    }
    return Ok(sections);
  }

  method WalkPadding(b: Bytes, ordered: seq<SectionInfo>, directoryEnd: nat) returns (r: Result<(), Error>)
    requires directoryEnd <= |b| && InBounds(b, ordered)
    ensures r == CheckPadding(b, ordered, directoryEnd)
  {
    var previousEnd, i := directoryEnd, 0;
    assert ordered[0..] == ordered;
    while i < |ordered|
      invariant 0 <= i <= |ordered| && 0 <= previousEnd <= |b|
      invariant CheckPadding(b, ordered, directoryEnd) == CheckPadding(b, ordered[i..], previousEnd)
    {
      assert ordered[i..][0] == ordered[i] && ordered[i..][1..] == ordered[i + 1..];
      assert ordered[i] in ordered && ordered[i].End() <= |b|;
      if ordered[i].offset < previousEnd {
        return Err(OverlappingSections);
      }
      if !AllZero(b[previousEnd..ordered[i].offset]) {
        return Err(NonZeroPadding);
      }
      previousEnd := ordered[i].End();
      i := i + 1;
    }
    if !AllZero(b[previousEnd..]) {
      return Err(NonZeroPadding);
    }
    return Ok(());
  }

  method Rehash(sha: Sha256, b: Bytes, meta: Metadata, sections: seq<SectionInfo>) returns (digest: Digest)
    requires InBounds(b, sections)
    ensures digest == Checksum(sha, meta, sections, Slices(b, sections))
  {
    var aggregate := AggregateHead(meta.flags, |sections|, meta.totalLen, meta.schemaId, meta.fingerprint);
    ghost var aggregateHead, contents := aggregate, Slices(b, sections);
    assert sections[0..] == sections && contents[0..] == contents;
    var i := 0;
    while i < |sections|
      invariant 0 <= i <= |sections|
      invariant aggregate + AggregateBody(sections[i..], contents[i..]) == aggregateHead + AggregateBody(sections, contents)
    {
      assert sections[i..][1..] == sections[i + 1..] && contents[i..][1..] == contents[i + 1..];
      assert sections[i] in sections && sections[i].End() <= |b|;
      aggregate := aggregate + (InfoBytes(sections[i]) + b[sections[i].offset..sections[i].End()]);
      i := i + 1;
    }
    assert aggregate + [] == aggregate;
    return sha(aggregate);
  }

  method OpenReader(sha: Sha256, b: Bytes) returns (r: Result<Reader, Error>)
    ensures r == Open(sha, b)
  {
    var header := HeaderError(b);
    if header.Some? {
      return Err(header.value);
    }
    assert Open(sha, b) == OpenDirectory(sha, b);
    LE.Widths();
    var sections := ReadDirectory(sha, b, Get(b, 20, 4));
    if sections.Err? {
      return Err(sections.error);
    }
    SortKeepsMembers(sections.value);
    var padding := WalkPadding(b, SortBy(OffsetOf, sections.value), BodyStart(Get(b, 20, 4)));
    if padding.Err? {
      return Err(padding.error);
    }
    var digest := Rehash(sha, b, MetadataOf(b), sections.value);
    if digest != b[80..112] {
      return Err(ChecksumMismatch("content"));
    }
    return Ok(Reader(b, MetadataOf(b), sections.value));
  }
}
