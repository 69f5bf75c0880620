/**
 * The HBP v1 ledger: a header, then length-prefixed records whose hashes chain
 * back to "genesis".  `Encode` and `DecodeRows` state what `encode_hbp` and
 * `decode_hbp` compute, error by error; text is held as its UTF-8 bytes.
 */
module HbpFormat {
  import opened Prelude
  import opened Text
  import LE = LittleEndian

  const MAGIC: Bytes := [0x48, 0x42, 0x50, 0x31]
  const VERSION: nat := 1
  const MAX_FIELD: nat := 0x40_0000
  const MAX_RECORD: nat := 0x100_0000
  const MAX_LEDGER: nat := 0x400_0000

  datatype Record = Record(sequence: nat, payload: Bytes)

  datatype Error =
    | Truncated(record: nat)
    | BadMagic
    | UnsupportedVersion(version: nat)
    | InvalidLength
    | BrokenChain(record: nat)
    | TooLarge
    | NonContiguousSequence(expected: nat, actual: nat)
    | InvalidUtf8
    | FieldTooLarge
    | InvalidTokenMarker
    | InvalidHex
    | TrailingBytes

  /** "genesis" */
  function Genesis(): (text: Bytes)
    ensures |text| == 7 && Ascii(text)
  {
    [0x67, 0x65, 0x6e, 0x65, 0x73, 0x69, 0x73]
  }

  /** "code.record" */
  function Topic(): (text: Bytes)
    ensures |text| == 11 && Ascii(text)
  {
    [0x63, 0x6f, 0x64, 0x65, 0x2e, 0x72, 0x65, 0x63, 0x6f, 0x72, 0x64]
  }

  /** "simplicio-code" */
  function Provenance(): (text: Bytes)
    ensures |text| == 14 && Ascii(text)
  {
    [0x73, 0x69, 0x6d, 0x70, 0x6c, 0x69, 0x63, 0x69, 0x6f, 0x2d, 0x63, 0x6f, 0x64, 0x65]
  }

  function Header(): (h: Bytes)
    ensures |h| == 8
  {
    MAGIC + (LE.Encode(VERSION, 2) + [0, 0])
  }

  // ----- the hash of a row -----

  function Frame(field: Bytes): Bytes {
    LE.Encode(|field|, 8) + field
  }

  /** What is hashed for a row: every field with its length, so no two rows read alike. */
  function Preimage(sequence: nat, previous: Bytes, topic: Bytes, payload: Bytes, provenance: Bytes, token: Bytes): Bytes {
    Frame(Decimal(sequence)) + (Frame(previous) + (Frame(topic) + (Frame(payload) + (Frame(provenance) + Frame(token)))))
  }

  function RowHash(sha: Sha256, sequence: nat, previous: Bytes, payload: Bytes): (hash: Bytes)
    ensures |hash| == 64
  {
    HexEncode(sha(Preimage(sequence, previous, Topic(), payload, Provenance(), [])))
  }

  // ----- the writer -----

  function Str(text: Bytes): (r: Bytes)
    ensures |r| == 4 + |text|
  {
    LE.Encode(|text|, 4) + text
  }

  function PutString(text: Bytes): Result<Bytes, Error> {
    if |text| > MAX_FIELD then Err(FieldTooLarge) else Ok(Str(text))
  }

  function EncodeBody(sequence: nat, payload: Bytes, previous: Bytes, hash: Bytes): Result<Bytes, Error> {
    var topic :- PutString(Topic());
    var text :- PutString(payload);
    var provenance :- PutString(Provenance());
    var prev :- PutString(previous);
    var own :- PutString(hash);
    Ok(LE.Encode(sequence, 8) + (LE.Encode(0, 8) + (topic + (text + (provenance + ([0] + (prev + own)))))))
  }

  /** One turn of the encoder's loop: the record's bytes and the hash the next one links to. */
  function EncodeRecord(sha: Sha256, index: nat, record: Record, previous: Bytes): Result<(Bytes, Bytes), Error> {
    if record.sequence != index then Err(NonContiguousSequence(index, record.sequence))
    else
      var payload := HexEncode(record.payload);
      var hash := RowHash(sha, index, previous, payload);
      var body :- EncodeBody(index, payload, previous, hash);
      if |body| > MAX_RECORD then Err(TooLarge)
      else Ok((LE.Encode(|body|, 4) + body, hash))
  }

  function EncodeFrom(sha: Sha256, records: seq<Record>, index: nat, previous: Bytes, output: Bytes): Result<Bytes, Error>
    requires index <= |records|
    decreases |records| - index
  {
    if index == |records| then Ok(output)
    else
      var (bytes, hash) :- EncodeRecord(sha, index, records[index], previous);
      if |output + bytes| > MAX_LEDGER then Err(TooLarge)
      else EncodeFrom(sha, records, index + 1, hash, output + bytes)
  }

  function Encode(sha: Sha256, records: seq<Record>): Result<Bytes, Error> {
    EncodeFrom(sha, records, 0, Genesis(), Header())
  }

  // ----- the reader -----

  function Take(b: Bytes, cursor: nat, count: nat): (r: Result<(Bytes, nat), Error>)
    requires cursor <= |b|
    ensures r.Ok? ==> cursor <= r.value.1 <= |b| && r.value.1 == cursor + count && |r.value.0| == count
  {
    if cursor + count > |b| then Err(Truncated(0)) else Ok((b[cursor..cursor + count], cursor + count))
  }

  function TakeU64(b: Bytes, cursor: nat): (r: Result<(nat, nat), Error>)
    requires cursor <= |b|
    ensures r.Ok? ==> r.value.1 == cursor + 8 <= |b|
  {
    var (bytes, next) :- Take(b, cursor, 8);
    Ok((LE.Decode(bytes), next))
  }

  function TakeString(b: Bytes, cursor: nat): (r: Result<(Bytes, nat), Error>)
    requires cursor <= |b|
    ensures r.Ok? ==> r.value.1 == cursor + 4 + |r.value.0| <= |b|
  {
    var (prefix, start) :- Take(b, cursor, 4);
    var length := LE.Decode(prefix);
    if length > MAX_FIELD then Err(FieldTooLarge)
    else
      var (text, next) :- Take(b, start, length);
      if ValidUtf8(text) then Ok((text, next)) else Err(InvalidUtf8)
  }

  datatype Fields = Fields(
    sequence: nat, timestamp: nat, topic: Bytes, payload: Bytes, provenance: Bytes, previous: Bytes, hash: Bytes)

  /** The topic, payload and provenance of a body, and where they end. */
  function DecodeSubject(b: Bytes, cursor: nat): (r: Result<((Bytes, Bytes, Bytes), nat), Error>)
    requires cursor <= |b|
    ensures r.Ok? ==> r.value.1 <= |b|
  {
    var (topic, c4) :- TakeString(b, cursor);
    var (payload, c5) :- TakeString(b, c4);
    var (provenance, c6) :- TakeString(b, c5);
    Ok(((topic, payload, provenance), c6))
  }

  /** The token marker and the two hashes, which must end the body. */
  function DecodeLinks(b: Bytes, cursor: nat): Result<(Bytes, Bytes), Error>
    requires cursor <= |b|
  {
    var (marker, c7) :- Take(b, cursor, 1);
    if marker[0] != 0 then Err(InvalidTokenMarker)
    else
      var (previous, c8) :- TakeString(b, c7);
      var (hash, c9) :- TakeString(b, c8);
      if c9 != |b| then Err(TrailingBytes) else Ok((previous, hash))
  }

  function DecodeBody(b: Bytes): Result<Fields, Error> {
    var (sequence, c2) :- TakeU64(b, 0);
    var (timestamp, c3) :- TakeU64(b, c2);
    var ((topic, payload, provenance), c6) :- DecodeSubject(b, c3);
    var (previous, hash) :- DecodeLinks(b, c6);
    Ok(Fields(sequence, timestamp, topic, payload, provenance, previous, hash))
  }

  /** A row as it stands in the ledger: the payload still in its hexadecimal text. */
  datatype Row = Row(timestamp: nat, payload: Bytes, previous: Bytes, hash: Bytes)

  /** One turn of the decoder's loop, at the record that starts at `cursor`. */
  function DecodeRow(sha: Sha256, b: Bytes, cursor: nat, sequence: nat, previous: Bytes): (r: Result<(Row, nat), Error>)
    requires cursor < |b|
    ensures r.Ok? ==> cursor < r.value.1 <= |b|
  {
    if |b| - cursor < 4 then Err(Truncated(sequence))
    else
      var length := LE.Decode(b[cursor..cursor + 4]);
      if length == 0 || length > MAX_RECORD then Err(InvalidLength)
      else if cursor + 4 + length > |b| then Err(Truncated(sequence))
      else
        var end := cursor + 4 + length;
        var f :- DecodeBody(b[cursor + 4..end]);
        if f.sequence != sequence then Err(NonContiguousSequence(sequence, f.sequence))
        else if f.previous != previous || f.topic != Topic() || f.provenance != Provenance() then Err(BrokenChain(sequence))
        else if RowHash(sha, sequence, f.previous, f.payload) != f.hash then Err(BrokenChain(sequence))
        else if HexDecode(f.payload).None? then Err(InvalidHex)
        else Ok((Row(f.timestamp, f.payload, f.previous, f.hash), end))
  }

  function DecodeFrom(sha: Sha256, b: Bytes, cursor: nat, previous: Bytes, rows: seq<Row>): Result<seq<Row>, Error>
    requires cursor <= |b|
    decreases |b| - cursor
  {
    if cursor == |b| then Ok(rows)
    else
      var (row, end) :- DecodeRow(sha, b, cursor, |rows|, previous);
      DecodeFrom(sha, b, end, row.hash, rows + [row])
  }

  function HeaderError(b: Bytes): Option<Error> {
    if |b| > MAX_LEDGER then Some(TooLarge)
    else if |b| < 8 then Some(Truncated(0))
    else if b[..4] != MAGIC then Some(BadMagic)
    else if LE.Decode(b[4..6]) != VERSION then Some(UnsupportedVersion(LE.Decode(b[4..6])))
    else if b[6] != 0 || b[7] != 0 then Some(UnsupportedVersion(0xFFFF))
    else None
  }

  function DecodeRows(sha: Sha256, b: Bytes): Result<seq<Row>, Error> {
    match HeaderError(b)
    case Some(e) => Err(e)
    case None => DecodeFrom(sha, b, 8, Genesis(), [])
  }

  function Payload(row: Row): Bytes {
    match HexDecode(row.payload)
    case Some(bytes) => bytes
    case None => []
  }

  function Records(rows: seq<Row>): (r: seq<Record>)
    ensures |r| == |rows|
  {
    seq(|rows|, i requires 0 <= i < |rows| => Record(i, Payload(rows[i])))
  }

  function Decode(sha: Sha256, b: Bytes): Result<seq<Record>, Error> {
    var rows :- DecodeRows(sha, b);
    Ok(Records(rows))
  }
}
