/**
 * `encode_hbp` and `decode_hbp` as they run: one buffer that grows, one cursor
 * that moves, and the previous row's hash carried along.
 */
module HbpCodec {
  import opened Prelude
  import opened Text
  import opened HbpFormat
  import LE = LittleEndian

  method HexEncodeLoop(bytes: Bytes) returns (text: Bytes)
    ensures text == HexEncode(bytes)
  {
    text := [];
    var i := 0;
    assert bytes[0..] == bytes;
    while i < |bytes|
      invariant 0 <= i <= |bytes|
      invariant text + HexEncode(bytes[i..]) == HexEncode(bytes)
    {
      assert bytes[i..][1..] == bytes[i + 1..];
      text := text + [HexDigit(bytes[i] / 16)];
      text := text + [HexDigit(bytes[i] % 16)];
      i := i + 1;
    }
    assert text + [] == text;
  }

  function Frames(fields: seq<Bytes>): Bytes {
    if fields == [] then [] else Frame(fields[0]) + Frames(fields[1..])
  }

  /** Feeds the six length-prefixed fields to the hasher, one after another. */
  method RowContentHash(
    sha: Sha256, sequence: nat, previous: Bytes, topic: Bytes, payload: Bytes, provenance: Bytes, token: Option<Bytes>)
    returns (hash: Bytes)
    ensures hash == HexEncode(sha(Preimage(sequence, previous, topic, payload, provenance,
                                           if token.Some? then token.value else [])))
  {
    hide Decimal, HexEncode, Frame;
    var fields := [Decimal(sequence), previous, topic, payload, provenance, if token.Some? then token.value else []];
    var hashed := [];
    var i := 0;
    assert fields[0..] == fields;
    while i < |fields|
      invariant 0 <= i <= |fields|
      invariant hashed + Frames(fields[i..]) == Frames(fields)
    {
      assert fields[i..][1..] == fields[i + 1..];
      hashed := hashed + Frame(fields[i]);
      i := i + 1;
    }
    assert hashed + [] == hashed;
    FramesOfSix(fields[0], fields[1], fields[2], fields[3], fields[4], fields[5]);
    hash := HexEncodeLoop(sha(hashed));
  }

  lemma {:induction false} FramesOfSix(a: Bytes, b: Bytes, c: Bytes, d: Bytes, e: Bytes, f: Bytes)
    ensures Frames([a, b, c, d, e, f])
         == Frame(a) + (Frame(b) + (Frame(c) + (Frame(d) + (Frame(e) + Frame(f)))))
  {
    hide Frame;
    assert Frames([f]) == Frame(f) + [];
    assert [e, f][1..] == [f] && [d, e, f][1..] == [e, f] && [c, d, e, f][1..] == [d, e, f];
    assert [b, c, d, e, f][1..] == [c, d, e, f] && [a, b, c, d, e, f][1..] == [b, c, d, e, f];
    assert Frames([e, f]) == Frame(e) + Frames([f]);
    assert Frames([d, e, f]) == Frame(d) + Frames([e, f]);
    assert Frames([c, d, e, f]) == Frame(c) + Frames([d, e, f]);
    assert Frames([b, c, d, e, f]) == Frame(b) + Frames([c, d, e, f]);
    assert Frames([a, b, c, d, e, f]) == Frame(a) + Frames([b, c, d, e, f]);
  }

  method EncodeHbp(sha: Sha256, records: seq<Record>) returns (r: Result<Bytes, Error>)
    ensures r == Encode(sha, records)
  {
    hide EncodeRecord, Header;
    var output := Header();
    var previous := Genesis();
    var index := 0;
    while index < |records|
      invariant 0 <= index <= |records|
      invariant Encode(sha, records) == EncodeFrom(sha, records, index, previous, output)
    {
      var step := EncodeRecord(sha, index, records[index], previous);
      if step.Err? {
        return Err(step.error);
      }
      output := output + step.value.0;
      previous := step.value.1;
      index := index + 1;
      if |output| > MAX_LEDGER {
        return Err(TooLarge);
      }
    }
    return Ok(output);
  }

  method DecodeHbp(sha: Sha256, b: Bytes) returns (r: Result<seq<Record>, Error>)
    ensures r == Decode(sha, b)
  {
    hide DecodeRow, HeaderError, Genesis;
    var header := HeaderError(b);
    if header.Some? {
      return Err(header.value);
    }
    HeaderLeavesRoom(b);
    var cursor: nat := 8;
    var previous := Genesis();
    var records: seq<Record> := [];
    ghost var rows: seq<Row> := [];
    while cursor < |b|
      invariant cursor <= |b| && records == Records(rows)
      invariant DecodeRows(sha, b) == DecodeFrom(sha, b, cursor, previous, rows)
      decreases |b| - cursor
    {
      var step := DecodeRow(sha, b, cursor, |records|, previous);
      if step.Err? {
        return Err(step.error);
      }
      var (row, end) := step.value;
      records := records + [Record(|records|, Payload(row))];
      rows := rows + [row];
      assert Records(rows) == records;
      previous := row.hash;
      cursor := end;
    }
    return Ok(records);
  }

  lemma {:induction false} HeaderLeavesRoom(b: Bytes)
    requires HeaderError(b).None?
    ensures 8 <= |b|
  {
  }
}
