/**
 * The grammar of an HBP ledger and what follows from it: which byte strings
 * the reader accepts, that it inverts the writer, what a truncated ledger
 * decodes to, and that the last hash commits to the whole history.
 */
module HbpTheorems {
  import opened Prelude
  import opened Text
  import opened HbpFormat
  import LE = LittleEndian

  // ----- the grammar -----

  function SubjectBytes(topic: Bytes, payload: Bytes, provenance: Bytes): (r: Bytes)
    ensures |r| == 12 + |topic| + |payload| + |provenance|
  {
    Str(topic) + (Str(payload) + Str(provenance))
  }

  function LinkBytes(previous: Bytes, hash: Bytes): (r: Bytes)
    ensures |r| == 9 + |previous| + |hash|
  {
    [0] + (Str(previous) + Str(hash))
  }

  function FieldsBytes(f: Fields): (r: Bytes)
    ensures |r| == 37 + |f.topic| + |f.payload| + |f.provenance| + |f.previous| + |f.hash|
  {
    LE.Encode(f.sequence, 8) + (LE.Encode(f.timestamp, 8)
    + (SubjectBytes(f.topic, f.payload, f.provenance) + LinkBytes(f.previous, f.hash)))
  }

  function RowFields(sequence: nat, row: Row): Fields {
    Fields(sequence, row.timestamp, Topic(), row.payload, Provenance(), row.previous, row.hash)
  }

  function WireRow(sequence: nat, row: Row): (r: Bytes)
    ensures |r| == 4 + |FieldsBytes(RowFields(sequence, row))|
  {
    var body := FieldsBytes(RowFields(sequence, row));
    LE.Encode(|body|, 4) + body
  }

  function Wire(rows: seq<Row>, from: nat): Bytes {
    if rows == [] then [] else WireRow(from, rows[0]) + Wire(rows[1..], from + 1)
  }

  /** The row links to `previous` and carries its own hash. */
  predicate GoodRow(sha: Sha256, sequence: nat, previous: Bytes, row: Row) {
    && sequence <= U64_MAX && row.timestamp <= U64_MAX && |row.payload| <= 0x40_0000
    && row.previous == previous && row.hash == RowHash(sha, sequence, previous, row.payload)
  }

  predicate Chain(sha: Sha256, rows: seq<Row>, from: nat, previous: Bytes) {
    rows == [] || (GoodRow(sha, from, previous, rows[0]) && Chain(sha, rows[1..], from + 1, rows[0].hash))
  }

  predicate Linked(sha: Sha256, b: Bytes, rows: seq<Row>) {
    |b| <= 0x400_0000 && b == Header() + Wire(rows, 0) && Chain(sha, rows, 0, Genesis())
  }

  predicate AllHex(rows: seq<Row>) {
    forall row :: row in rows ==> HexDecode(row.payload).Some?
  }

  function LastHash(rows: seq<Row>, previous: Bytes): Bytes {
    if rows == [] then previous else rows[|rows| - 1].hash
  }

  // ----- reading one body -----

  predicate At(b: Bytes, cursor: nat, p: Bytes) {
    cursor + |p| <= |b| && b[cursor..cursor + |p|] == p
  }

  lemma {:induction false} AtConcat(b: Bytes, cursor: nat, p: Bytes, q: Bytes)
    ensures At(b, cursor, p + q) <==> At(b, cursor, p) && At(b, cursor + |p|, q)
  {
    if cursor + |p| + |q| <= |b| {
      var s := b[cursor..cursor + |p| + |q|];
      assert s[..|p|] == b[cursor..cursor + |p|] && s[|p|..] == b[cursor + |p|..cursor + |p| + |q|];
      assert s == s[..|p|] + s[|p|..];
      assert (p + q)[..|p|] == p && (p + q)[|p|..] == q;
    }
  }

  lemma {:induction false} TakenU64(b: Bytes, cursor: nat)
    requires cursor <= |b| && TakeU64(b, cursor).Ok?
    ensures TakeU64(b, cursor).value.0 <= U64_MAX && At(b, cursor, LE.Encode(TakeU64(b, cursor).value.0, 8))
  {
    LE.Widths();
    LE.EncodeDecode(b[cursor..cursor + 8]);
  }

  lemma {:induction false} TakesU64(b: Bytes, cursor: nat, n: nat)
    requires n <= U64_MAX && At(b, cursor, LE.Encode(n, 8))
    ensures TakeU64(b, cursor) == Ok((n, cursor + 8))
  {
    LE.U64RoundTrip(n);
  }

  predicate FitsField(text: Bytes) {
    |text| <= MAX_FIELD && ValidUtf8(text)
  }

  lemma {:induction false} TakenString(b: Bytes, cursor: nat)
    requires cursor <= |b| && TakeString(b, cursor).Ok?
    ensures FitsField(TakeString(b, cursor).value.0) && At(b, cursor, Str(TakeString(b, cursor).value.0))
  {
    var text := TakeString(b, cursor).value.0;
    AtConcat(b, cursor, LE.Encode(|text|, 4), text);
    LE.EncodeDecode(b[cursor..cursor + 4]);
  }

  lemma {:induction false} TakesString(b: Bytes, cursor: nat, text: Bytes)
    requires FitsField(text) && At(b, cursor, Str(text))
    ensures TakeString(b, cursor) == Ok((text, cursor + 4 + |text|))
  {
    AtConcat(b, cursor, LE.Encode(|text|, 4), text);
    LE.U32RoundTrip(|text|);
  }

  lemma {:induction false} SubjectParsed(b: Bytes, cursor: nat)
    requires cursor <= |b| && DecodeSubject(b, cursor).Ok?
    ensures var ((topic, payload, provenance), next) := DecodeSubject(b, cursor).value;
            && FitsField(topic) && FitsField(payload) && FitsField(provenance)
            && At(b, cursor, SubjectBytes(topic, payload, provenance))
            && next == cursor + |SubjectBytes(topic, payload, provenance)|
  {
    hide LE.Encode, LE.Decode, ValidUtf8, TakeString;
    var ((topic, payload, provenance), next) := DecodeSubject(b, cursor).value;
    var c4, c5 := cursor + 4 + |topic|, cursor + 8 + |topic| + |payload|;
    TakenString(b, cursor);
    TakenString(b, c4);
    TakenString(b, c5);
    AtConcat(b, c4, Str(payload), Str(provenance));
    AtConcat(b, cursor, Str(topic), Str(payload) + Str(provenance));
  }

  lemma {:induction false} SubjectParses(b: Bytes, cursor: nat, topic: Bytes, payload: Bytes, provenance: Bytes)
    requires FitsField(topic) && FitsField(payload) && FitsField(provenance)
    requires At(b, cursor, SubjectBytes(topic, payload, provenance))
    ensures DecodeSubject(b, cursor) == Ok(((topic, payload, provenance), cursor + |SubjectBytes(topic, payload, provenance)|))
  {
    hide LE.Encode, LE.Decode, ValidUtf8, TakeString;
    var c4, c5 := cursor + 4 + |topic|, cursor + 8 + |topic| + |payload|;
    AtConcat(b, cursor, Str(topic), Str(payload) + Str(provenance));
    AtConcat(b, c4, Str(payload), Str(provenance));
    TakesString(b, cursor, topic);
    TakesString(b, c4, payload);
    TakesString(b, c5, provenance);
  }

  lemma {:induction false} LinksParsed(b: Bytes, cursor: nat)
    requires cursor <= |b| && DecodeLinks(b, cursor).Ok?
    ensures var (previous, hash) := DecodeLinks(b, cursor).value;
            && FitsField(previous) && FitsField(hash)
            && At(b, cursor, LinkBytes(previous, hash)) && |b| == cursor + |LinkBytes(previous, hash)|
  {
    hide LE.Encode, LE.Decode, ValidUtf8, TakeString;
    var (previous, hash) := DecodeLinks(b, cursor).value;
    assert b[cursor..cursor + 1] == [0];
    TakenString(b, cursor + 1);
    TakenString(b, cursor + 5 + |previous|);
    AtConcat(b, cursor + 1, Str(previous), Str(hash));
    AtConcat(b, cursor, [0], Str(previous) + Str(hash));
  }

  lemma {:induction false} LinksParse(b: Bytes, cursor: nat, previous: Bytes, hash: Bytes)
    requires FitsField(previous) && FitsField(hash)
    requires At(b, cursor, LinkBytes(previous, hash)) && |b| == cursor + |LinkBytes(previous, hash)|
    ensures DecodeLinks(b, cursor) == Ok((previous, hash))
  {
    hide LE.Encode, LE.Decode, ValidUtf8, TakeString;
    AtConcat(b, cursor, [0], Str(previous) + Str(hash));
    AtConcat(b, cursor + 1, Str(previous), Str(hash));
    assert b[cursor..cursor + 1] == [0];
    TakesString(b, cursor + 1, previous);
    TakesString(b, cursor + 5 + |previous|, hash);
  }

  predicate GoodFields(f: Fields) {
    && f.sequence <= U64_MAX && f.timestamp <= U64_MAX && FitsField(f.topic) && FitsField(f.payload)
    && FitsField(f.provenance) && FitsField(f.previous) && FitsField(f.hash)
  }

  lemma {:induction false} FieldsLaidOut(b: Bytes, f: Fields)
    ensures b == FieldsBytes(f)
       <==> && At(b, 0, LE.Encode(f.sequence, 8)) && At(b, 8, LE.Encode(f.timestamp, 8))
            && At(b, 16, SubjectBytes(f.topic, f.payload, f.provenance))
            && At(b, 28 + |f.topic| + |f.payload| + |f.provenance|, LinkBytes(f.previous, f.hash))
            && |b| == |FieldsBytes(f)|
  {
    hide LE.Encode, LE.Decode, ValidUtf8, SubjectBytes, LinkBytes;
    var subject, links := SubjectBytes(f.topic, f.payload, f.provenance), LinkBytes(f.previous, f.hash);
    AtConcat(b, 0, LE.Encode(f.sequence, 8), LE.Encode(f.timestamp, 8) + (subject + links));
    AtConcat(b, 8, LE.Encode(f.timestamp, 8), subject + links);
    AtConcat(b, 16, subject, links);
    assert b == FieldsBytes(f) <==> At(b, 0, FieldsBytes(f)) && |b| == |FieldsBytes(f)|;
  }

  lemma {:induction false} BodyParsed(b: Bytes)
    requires DecodeBody(b).Ok?
    ensures GoodFields(DecodeBody(b).value) && b == FieldsBytes(DecodeBody(b).value)
  {
    hide LE.Encode, LE.Decode, ValidUtf8, TakeU64, SubjectBytes, LinkBytes, DecodeSubject, DecodeLinks;
    var f := DecodeBody(b).value;
    TakenU64(b, 0);
    TakenU64(b, 8);
    SubjectParsed(b, 16);
    LinksParsed(b, 28 + |f.topic| + |f.payload| + |f.provenance|);
    FieldsLaidOut(b, f);
  }

  lemma {:induction false} BodyParses(f: Fields)
    requires GoodFields(f)
    ensures DecodeBody(FieldsBytes(f)) == Ok(f)
  {
    hide LE.Encode, LE.Decode, ValidUtf8, TakeU64, SubjectBytes, LinkBytes, DecodeSubject, DecodeLinks;
    var b := FieldsBytes(f);
    FieldsLaidOut(b, f);
    TakesU64(b, 0, f.sequence);
    TakesU64(b, 8, f.timestamp);
    SubjectParses(b, 16, f.topic, f.payload, f.provenance);
    LinksParse(b, 28 + |f.topic| + |f.payload| + |f.provenance|, f.previous, f.hash);
  }

  // ----- reading rows -----

  lemma {:induction false} RowHashFits(sha: Sha256, sequence: nat, previous: Bytes, payload: Bytes)
    ensures FitsField(RowHash(sha, sequence, previous, payload))
  {
    hide Preimage, HexEncode, ValidUtf8;
    HexEncodeIsAscii(sha(Preimage(sequence, previous, Topic(), payload, Provenance(), [])));
    AsciiIsUtf8(RowHash(sha, sequence, previous, payload));
  }

  lemma {:induction false} ConstantsFit()
    ensures FitsField(Topic()) && FitsField(Provenance()) && FitsField(Genesis())
  {
    hide Topic, Provenance, Genesis, ValidUtf8;
    AsciiIsUtf8(Topic());
    AsciiIsUtf8(Provenance());
    AsciiIsUtf8(Genesis());
  }

  lemma {:induction false} RowDecoded(sha: Sha256, b: Bytes, cursor: nat, sequence: nat, previous: Bytes)
    requires cursor < |b| && DecodeRow(sha, b, cursor, sequence, previous).Ok?
    ensures var (row, end) := DecodeRow(sha, b, cursor, sequence, previous).value;
            && GoodRow(sha, sequence, previous, row) && HexDecode(row.payload).Some?
            && At(b, cursor, WireRow(sequence, row)) && end == cursor + |WireRow(sequence, row)|
  {
    hide LE.Encode, LE.Decode, ValidUtf8, Topic, Provenance, Genesis, FieldsBytes, RowHash, HexDecode, DecodeBody;
    var (row, end) := DecodeRow(sha, b, cursor, sequence, previous).value;
    var body := b[cursor + 4..end];
    BodyParsed(body);
    LE.EncodeDecode(b[cursor..cursor + 4]);
    AtConcat(b, cursor, LE.Encode(|body|, 4), body);
  }

  lemma {:induction false} RowDecodes(sha: Sha256, b: Bytes, cursor: nat, sequence: nat, previous: Bytes, row: Row)
    requires GoodRow(sha, sequence, previous, row) && HexDecode(row.payload).Some? && FitsField(previous)
    requires At(b, cursor, WireRow(sequence, row))
    ensures DecodeRow(sha, b, cursor, sequence, previous) == Ok((row, cursor + |WireRow(sequence, row)|))
  {
    hide LE.Encode, LE.Decode, ValidUtf8, Topic, Provenance, Genesis, FieldsBytes, RowHash, HexDecode, DecodeBody;
    var body := FieldsBytes(RowFields(sequence, row));
    HexIsAscii(row.payload);
    AsciiIsUtf8(row.payload);
    ConstantsFit();
    RowHashFits(sha, sequence, previous, row.payload);
    BodyParses(RowFields(sequence, row));
    AtConcat(b, cursor, LE.Encode(|body|, 4), body);
    LE.U32RoundTrip(|body|);
  }

  lemma {:induction false} DecodeSkips(sha: Sha256, b: Bytes, cursor: nat, previous: Bytes, done: seq<Row>, rows: seq<Row>)
    requires Chain(sha, rows, |done|, previous) && AllHex(rows) && FitsField(previous)
    requires At(b, cursor, Wire(rows, |done|))
    ensures cursor + |Wire(rows, |done|)| <= |b|
    ensures DecodeFrom(sha, b, cursor, previous, done)
         == DecodeFrom(sha, b, cursor + |Wire(rows, |done|)|, LastHash(rows, previous), done + rows)
    decreases |rows|
  {
    hide WireRow, FieldsBytes, RowFields, DecodeRow, FitsField, HexDecode, RowHash;
    if rows == [] {
      assert done + rows == done;
    } else {
      var row, next := rows[0], cursor + |WireRow(|done|, rows[0])|;
      AtConcat(b, cursor, WireRow(|done|, row), Wire(rows[1..], |done| + 1));
      assert row in rows && AllHex(rows[1..]);
      RowDecodes(sha, b, cursor, |done|, previous, row);
      RowHashFits(sha, |done|, previous, row.payload);
      DecodeSkips(sha, b, next, row.hash, done + [row], rows[1..]);
      assert done + [row] + rows[1..] == done + rows;
    }
  }

  lemma {:induction false} DecodeFromSound(sha: Sha256, b: Bytes, cursor: nat, previous: Bytes, done: seq<Row>)
    returns (rows: seq<Row>)
    requires cursor <= |b| && DecodeFrom(sha, b, cursor, previous, done).Ok?
    ensures DecodeFrom(sha, b, cursor, previous, done).value == done + rows
    ensures b[cursor..] == Wire(rows, |done|) && Chain(sha, rows, |done|, previous) && AllHex(rows)
    decreases |b| - cursor
  {
    hide WireRow, FieldsBytes, RowFields, GoodRow, DecodeRow, HexDecode, ValidUtf8;
    if cursor == |b| {
      rows := [];
    } else {
      RowDecoded(sha, b, cursor, |done|, previous);
      var (row, end) := DecodeRow(sha, b, cursor, |done|, previous).value;
      var rest := DecodeFromSound(sha, b, end, row.hash, done + [row]);
      rows := [row] + rest;
      assert rows[1..] == rest;
      assert b[cursor..] == b[cursor..end] + b[end..];
      assert done + [row] + rest == done + rows;
    }
  }

  lemma {:induction false} HeaderAccepted(b: Bytes)
    ensures HeaderError(b).None? <==> |b| <= MAX_LEDGER && At(b, 0, Header())
  {
    AtConcat(b, 0, MAGIC, LE.Encode(VERSION, 2) + [0, 0]);
    AtConcat(b, 4, LE.Encode(VERSION, 2), [0, 0]);
    LE.Widths();
    LE.DecodeEncode(VERSION, 2);
    if |b| >= 8 {
      LE.EncodeDecode(b[4..6]);
      assert b[6..8] == [b[6], b[7]];
    }
  }

  /** The reader accepts exactly the linked ledgers whose payloads are hexadecimal. */
  lemma {:induction false} DecodeAcceptsLedgers(sha: Sha256, b: Bytes, rows: seq<Row>)
    ensures DecodeRows(sha, b) == Ok(rows) <==> Linked(sha, b, rows) && AllHex(rows)
  {
    hide Wire, Chain, Header, HeaderError, ValidUtf8, Genesis, DecodeRow;
    HeaderAccepted(b);
    if DecodeRows(sha, b) == Ok(rows) {
      var found := DecodeFromSound(sha, b, 8, Genesis(), []);
      assert [] + found == found;
      assert b == b[..8] + b[8..];
    }
    if Linked(sha, b, rows) && AllHex(rows) {
      AtConcat(b, 0, Header(), Wire(rows, 0));
      ConstantsFit();
      DecodeSkips(sha, b, 8, Genesis(), [], rows);
      assert [] + rows == rows;
    }
  }

  // ----- prefixes and truncation -----

  lemma {:induction false} WireSplits(rows: seq<Row>, from: nat, k: nat)
    requires k <= |rows|
    ensures Wire(rows, from) == Wire(rows[..k], from) + Wire(rows[k..], from + k)
  {
    hide WireRow, Wire;
    if k == 0 {
      assert rows[..0] == [] && rows[0..] == rows;
      WireNothing(from);
    } else {
      WireSplits(rows[1..], from + 1, k - 1);
      assert rows[..k][1..] == rows[1..][..k - 1] && rows[1..][k - 1..] == rows[k..];
      var first, middle, last := WireRow(from, rows[0]), Wire(rows[1..][..k - 1], from + 1), Wire(rows[k..], from + k);
      WireStep(rows, from);
      WireStep(rows[..k], from);
      assert first + (middle + last) == first + middle + last;
    }
  }

  lemma {:induction false} WireNothing(from: nat)
    ensures Wire([], from) == []
  {
  }

  lemma {:induction false} WireStep(rows: seq<Row>, from: nat)
    requires rows != []
    ensures Wire(rows, from) == WireRow(from, rows[0]) + Wire(rows[1..], from + 1)
  {
  }

  lemma {:induction false} ChainSplits(sha: Sha256, rows: seq<Row>, from: nat, previous: Bytes, k: nat)
    requires k <= |rows| && Chain(sha, rows, from, previous)
    ensures Chain(sha, rows[..k], from, previous)
    ensures Chain(sha, rows[k..], from + k, LastHash(rows[..k], previous))
  {
    hide GoodRow;
    if k == 0 {
      assert rows[..0] == [] && rows[0..] == rows;
    } else {
      ChainSplits(sha, rows[1..], from + 1, rows[0].hash, k - 1);
      assert rows[..k][1..] == rows[1..][..k - 1] && rows[1..][k - 1..] == rows[k..];
    }
  }

  /** The end of record `k - 1`, which is where record `k` starts. */
  function Boundary(rows: seq<Row>, k: nat): nat
    requires k <= |rows|
  {
    8 + |Wire(rows[..k], 0)|
  }

  lemma {:induction false} BoundaryStep(rows: seq<Row>, k: nat)
    requires k < |rows|
    ensures Boundary(rows, k + 1) == Boundary(rows, k) + |WireRow(k, rows[k])|
  {
    hide WireRow;
    var front := rows[..k + 1];
    WireSplits(front, 0, k);
    assert front[..k] == rows[..k] && front[k..] == [rows[k]];
    assert Wire([rows[k]], k) == WireRow(k, rows[k]) + [];
  }

  lemma {:induction false} DecodeReachesBoundary(sha: Sha256, b: Bytes, rows: seq<Row>, k: nat, n: nat)
    requires Linked(sha, b, rows) && AllHex(rows) && k <= |rows| && Boundary(rows, k) <= n <= |b|
    ensures DecodeRows(sha, b[..n])
         == DecodeFrom(sha, b[..n], Boundary(rows, k), LastHash(rows[..k], Genesis()), rows[..k])
  {
    hide Wire, Chain, DecodeFrom, Header, HeaderError, ValidUtf8, Genesis;
    var front := rows[..k];
    WireSplits(rows, 0, k);
    ChainSplits(sha, rows, 0, Genesis(), k);
    ConstantsFit();
    assert b == Header() + Wire(front, 0) + Wire(rows[k..], k);
    assert b[..8] == Header() && b[8..Boundary(rows, k)] == Wire(front, 0);
    assert b[..n][..8] == Header() && b[..n][8..Boundary(rows, k)] == Wire(front, 0);
    HeaderAccepted(b[..n]);
    DecodeSkips(sha, b[..n], 8, Genesis(), [], front);
    assert [] + front == front;
  }

  /** Inside record `k` of a truncated ledger the reader can only run out of bytes. */
  lemma {:induction false} CutRow(sha: Sha256, b: Bytes, cursor: nat, n: nat, k: nat, row: Row, previous: Bytes)
    requires At(b, cursor, WireRow(k, row)) && GoodRow(sha, k, previous, row) && |previous| <= 64
    requires cursor < n < cursor + |WireRow(k, row)|
    ensures DecodeRow(sha, b[..n], cursor, k, previous) == Err(Truncated(k))
  {
    hide FieldsBytes, RowHash, LE.Encode, LE.Decode, DecodeBody;
    var body := FieldsBytes(RowFields(k, row));
    AtConcat(b, cursor, LE.Encode(|body|, 4), body);
    LE.U32RoundTrip(|body|);
    if n - cursor >= 4 {
      assert b[..n][cursor..cursor + 4] == b[cursor..cursor + 4];
    }
  }

  lemma {:induction false} LedgerAt(sha: Sha256, b: Bytes, rows: seq<Row>, k: nat)
    requires Linked(sha, b, rows) && k < |rows|
    ensures At(b, Boundary(rows, k), WireRow(k, rows[k]))
    ensures GoodRow(sha, k, LastHash(rows[..k], Genesis()), rows[k]) && |LastHash(rows[..k], Genesis())| <= 64
  {
    hide WireRow, FieldsBytes, RowFields, Header, RowHash, Genesis, LastHash;
    WireSplits(rows, 0, k);
    ChainSplits(sha, rows, 0, Genesis(), k);
    assert rows[k..][0] == rows[k];
    assert At(b, 0, b);
    AtConcat(b, 0, Header(), Wire(rows, 0));
    AtConcat(b, 8, Wire(rows[..k], 0), Wire(rows[k..], k));
    AtConcat(b, Boundary(rows, k), WireRow(k, rows[k]), Wire(rows[k..][1..], k + 1));
    LastHashLength(sha, rows[..k], 0, Genesis());
  }

  lemma {:induction false} LastHashLength(sha: Sha256, rows: seq<Row>, from: nat, previous: Bytes)
    requires Chain(sha, rows, from, previous) && |previous| <= 64
    ensures |LastHash(rows, previous)| <= 64
  {
    hide RowHash;
    if rows != [] {
      LastHashLength(sha, rows[1..], from + 1, rows[0].hash);
      assert |rows| > 1 ==> rows[1..][|rows| - 2] == rows[|rows| - 1];
    }
  }

  lemma {:induction false} TruncationIsDetected(sha: Sha256, b: Bytes, rows: seq<Row>, k: nat, n: nat)
    requires DecodeRows(sha, b) == Ok(rows) && k <= |rows|
    requires Boundary(rows, k) <= n <= |b| && (k < |rows| ==> n < Boundary(rows, k + 1))
    ensures DecodeRows(sha, b[..n])
         == if n == Boundary(rows, k) then Ok(rows[..k]) else Err(Truncated(k))
  {
    hide Wire, WireRow, Chain, DecodeRow, Header, HeaderError, Genesis, AllHex;
    DecodeAcceptsLedgers(sha, b, rows);
    DecodeReachesBoundary(sha, b, rows, k, n);
    assert |b[..n]| == n;
    assert k == |rows| ==> rows[..k] == rows && n == Boundary(rows, k);
    if n > Boundary(rows, k) {
      BoundaryStep(rows, k);
      LedgerAt(sha, b, rows, k);
      CutRow(sha, b, Boundary(rows, k), n, k, rows[k], LastHash(rows[..k], Genesis()));
    }
  }

  lemma {:induction false} FirstBoundary(rows: seq<Row>)
    ensures Boundary(rows, 0) == 8
  {
    assert rows[..0] == [];
  }

  lemma {:induction false} WhichRecord(rows: seq<Row>, n: nat, from: nat) returns (k: nat)
    requires from <= |rows| && Boundary(rows, from) <= n
    ensures from <= k <= |rows| && Boundary(rows, k) <= n && (k < |rows| ==> n < Boundary(rows, k + 1))
    decreases |rows| - from
  {
    hide Boundary;
    if from < |rows| && Boundary(rows, from + 1) <= n {
      k := WhichRecord(rows, n, from + 1);
    } else {
      k := from;
    }
  }

  /**
   * Every truncation that keeps the header either falls on a record boundary and
   * decodes to the records before it, or is rejected as truncated in the next record.
   */
  lemma {:induction false} EveryTruncation(sha: Sha256, b: Bytes, records: seq<Record>, n: nat)
    returns (rows: seq<Row>, k: nat)
    requires Decode(sha, b) == Ok(records) && 8 <= n <= |b|
    ensures Linked(sha, b, rows) && k <= |rows| == |records|
    ensures Boundary(rows, k) <= n && (k < |rows| ==> n < Boundary(rows, k + 1))
    ensures Decode(sha, b[..n]) == if n == Boundary(rows, k) then Ok(records[..k]) else Err(Truncated(k))
  {
    hide Linked, DecodeRows, Wire, Payload;
    rows := DecodeRows(sha, b).value;
    DecodeAcceptsLedgers(sha, b, rows);
    FirstBoundary(rows);
    k := WhichRecord(rows, n, 0);
    TruncationIsDetected(sha, b, rows, k, n);
    assert Records(rows[..k]) == Records(rows)[..k];
  }

  // ----- the writer -----

  /** The rows the writer emits: timestamp zero, lower-case hexadecimal. */
  function WrittenRows(sha: Sha256, records: seq<Record>, from: nat, previous: Bytes): (rows: seq<Row>)
    ensures |rows| == |records|
  {
    if records == [] then []
    else
      var payload := HexEncode(records[0].payload);
      var hash := RowHash(sha, from, previous, payload);
      [Row(0, payload, previous, hash)] + WrittenRows(sha, records[1..], from + 1, hash)
  }

  predicate Writable(records: seq<Record>, from: nat) {
    forall i :: 0 <= i < |records| ==> records[i].sequence == from + i && 2 * |records[i].payload| <= 0x40_0000
  }

  lemma {:induction false} WrittenBody(sequence: nat, row: Row)
    requires row.timestamp == 0 && |row.previous| <= 64 && |row.hash| == 64
    ensures EncodeBody(sequence, row.payload, row.previous, row.hash)
         == if |row.payload| <= MAX_FIELD then Ok(FieldsBytes(RowFields(sequence, row))) else Err(FieldTooLarge)
  {
    hide LE.Encode, Str, Topic, Provenance;
    var t, p, v, l := Str(Topic()), Str(row.payload), Str(Provenance()), LinkBytes(row.previous, row.hash);
    assert t + (p + (v + l)) == t + (p + v) + l;
  }

  lemma {:induction false} WrittenRecord(sha: Sha256, index: nat, record: Record, previous: Bytes)
    requires |previous| <= 64
    ensures var payload := HexEncode(record.payload);
            var row := Row(0, payload, previous, RowHash(sha, index, previous, payload));
            EncodeRecord(sha, index, record, previous)
            == if record.sequence != index then Err(NonContiguousSequence(index, record.sequence))
               else if 2 * |record.payload| > MAX_FIELD then Err(FieldTooLarge)
               else Ok((WireRow(index, row), row.hash))
  {
    hide LE.Encode, HexEncode, RowHash, FieldsBytes, EncodeBody, Topic, Provenance;
    var payload := HexEncode(record.payload);
    WrittenBody(index, Row(0, payload, previous, RowHash(sha, index, previous, payload)));
  }

  /** Encoding succeeds exactly within the limits, and then emits header and rows. */
  lemma {:induction false} EncodeFromMeans(
    sha: Sha256, records: seq<Record>, index: nat, previous: Bytes, output: Bytes)
    requires index <= |records| && |previous| <= 64 && |output| <= MAX_LEDGER
    ensures var wire := Wire(WrittenRows(sha, records[index..], index, previous), index);
            && (EncodeFrom(sha, records, index, previous, output).Ok?
                <==> Writable(records[index..], index) && |output + wire| <= MAX_LEDGER)
            && (EncodeFrom(sha, records, index, previous, output).Ok?
                ==> EncodeFrom(sha, records, index, previous, output).value == output + wire)
    decreases |records| - index
  {
    hide WireRow, FieldsBytes, RowFields, HexEncode, RowHash, EncodeRecord;
    var rest := records[index..];
    if index < |records| {
      assert rest[1..] == records[index + 1..];
      var payload := HexEncode(records[index].payload);
      var row := Row(0, payload, previous, RowHash(sha, index, previous, payload));
      var bytes := WireRow(index, row);
      WrittenRecord(sha, index, records[index], previous);
      var later := WrittenRows(sha, rest[1..], index + 1, row.hash);
      WrittenStep(sha, rest, index, previous);
      assert output + (bytes + Wire(later, index + 1)) == output + bytes + Wire(later, index + 1);
      WritableStep(rest, index);
      if |output + bytes| <= MAX_LEDGER {
        EncodeFromMeans(sha, records, index + 1, row.hash, output + bytes);
      }
    }
  }

  lemma {:induction false} WrittenStep(sha: Sha256, records: seq<Record>, from: nat, previous: Bytes)
    requires records != []
    ensures var payload := HexEncode(records[0].payload);
            var row := Row(0, payload, previous, RowHash(sha, from, previous, payload));
            var later := WrittenRows(sha, records[1..], from + 1, row.hash);
            && WrittenRows(sha, records, from, previous) == [row] + later
            && Wire(WrittenRows(sha, records, from, previous), from) == WireRow(from, row) + Wire(later, from + 1)
  {
    hide WireRow, FieldsBytes, RowFields, HexEncode, RowHash;
    var rows := WrittenRows(sha, records, from, previous);
    assert rows[1..] == WrittenRows(sha, records[1..], from + 1, rows[0].hash);
  }

  lemma {:induction false} WritableStep(records: seq<Record>, from: nat)
    requires records != []
    ensures Writable(records, from)
       <==> && records[0].sequence == from && 2 * |records[0].payload| <= MAX_FIELD
            && Writable(records[1..], from + 1)
  {
    assert forall i :: 0 <= i < |records| - 1 ==> records[1..][i] == records[i + 1];
    if Writable(records[1..], from + 1) {
      forall i | 1 <= i < |records|
        ensures records[i].sequence == from + i && 2 * |records[i].payload| <= MAX_FIELD
      {
        assert records[i] == records[1..][i - 1];
      }
    }
  }

  lemma {:induction false} WireLength(rows: seq<Row>, from: nat)
    ensures |Wire(rows, from)| >= |rows|
  {
    hide WireRow;
    if rows != [] {
      WireLength(rows[1..], from + 1);
    }
  }

  lemma {:induction false} WrittenChain(sha: Sha256, records: seq<Record>, from: nat, previous: Bytes)
    requires Writable(records, from) && from + |records| <= U64_MAX
    ensures Chain(sha, WrittenRows(sha, records, from, previous), from, previous)
    ensures AllHex(WrittenRows(sha, records, from, previous))
  {
    hide HexEncode, HexDecode, RowHash;
    if records != [] {
      var rows := WrittenRows(sha, records, from, previous);
      WritableStep(records, from);
      HexRoundTrip(records[0].payload);
      WrittenChain(sha, records[1..], from + 1, rows[0].hash);
      assert rows[1..] == WrittenRows(sha, records[1..], from + 1, rows[0].hash);
    }
  }

  lemma {:induction false} WrittenPayload(sha: Sha256, records: seq<Record>, from: nat, previous: Bytes, i: nat)
    requires i < |records|
    ensures Payload(WrittenRows(sha, records, from, previous)[i]) == records[i].payload
  {
    hide HexEncode, HexDecode, RowHash;
    if i == 0 {
      HexRoundTrip(records[0].payload);
    } else {
      var rows := WrittenRows(sha, records, from, previous);
      WrittenPayload(sha, records[1..], from + 1, rows[0].hash, i - 1);
    }
  }

  lemma {:induction false} WrittenPrefix(sha: Sha256, records: seq<Record>, from: nat, previous: Bytes, k: nat)
    requires k <= |records|
    ensures WrittenRows(sha, records[..k], from, previous) == WrittenRows(sha, records, from, previous)[..k]
  {
    hide HexEncode, RowHash;
    if k > 0 {
      var rows := WrittenRows(sha, records, from, previous);
      WrittenPrefix(sha, records[1..], from + 1, rows[0].hash, k - 1);
      assert records[..k][1..] == records[1..][..k - 1];
      assert rows[..k] == [rows[0]] + rows[1..][..k - 1];
    }
  }

  /** What the writer accepts, and that it then produces a ledger of exactly its rows. */
  lemma {:induction false} EncodeMeans(sha: Sha256, records: seq<Record>)
    ensures var rows := WrittenRows(sha, records, 0, Genesis());
            && (Encode(sha, records).Ok? <==> Writable(records, 0) && |Header() + Wire(rows, 0)| <= 0x400_0000)
            && (Encode(sha, records).Ok? ==> Linked(sha, Encode(sha, records).value, rows) && AllHex(rows))
  {
    hide Wire, WrittenRows, Header, Chain, AllHex, EncodeFrom, Writable;
    var rows := WrittenRows(sha, records, 0, Genesis());
    assert records[0..] == records;
    EncodeFromMeans(sha, records, 0, Genesis(), Header());
    if Encode(sha, records).Ok? {
      WireLength(rows, 0);
      WrittenChain(sha, records, 0, Genesis());
    }
  }

  /** The reader inverts the writer on every list the writer accepts. */
  lemma {:induction false} RoundTrip(sha: Sha256, records: seq<Record>, b: Bytes)
    requires Encode(sha, records) == Ok(b)
    ensures Decode(sha, b) == Ok(records)
  {
    hide Wire, WrittenRows, Header, Chain, AllHex, EncodeFrom, DecodeFrom, Encode, Payload;
    var rows := WrittenRows(sha, records, 0, Genesis());
    EncodeMeans(sha, records);
    DecodeAcceptsLedgers(sha, b, rows);
    forall i | 0 <= i < |records|
      ensures Records(rows)[i] == records[i]
    {
      WrittenPayload(sha, records, 0, Genesis(), i);
    }
    assert Records(rows) == records;
  }

  /** Appending records never rewrites what is already encoded. */
  lemma {:induction false} PrefixOfEncoding(sha: Sha256, records: seq<Record>, b: Bytes, k: nat)
    requires Encode(sha, records) == Ok(b) && k <= |records|
    ensures Encode(sha, records[..k]).Ok? && Encode(sha, records[..k]).value <= b
  {
    hide Wire, WrittenRows, Header, Chain, AllHex, EncodeFrom, Encode;
    var rows := WrittenRows(sha, records, 0, Genesis());
    EncodeMeans(sha, records);
    EncodeMeans(sha, records[..k]);
    WrittenPrefix(sha, records, 0, Genesis(), k);
    WireSplits(rows, 0, k);
    assert Header() + (Wire(rows[..k], 0) + Wire(rows[k..], k)) == Header() + Wire(rows[..k], 0) + Wire(rows[k..], k);
  }

  // ----- reading and writing back -----

  /** The row as the writer would have put it: no timestamp, lower-case hexadecimal. */
  predicate AsWritten(row: Row) {
    row.timestamp == 0 && forall i | 0 <= i < |row.payload| :: LowerHex(row.payload[i])
  }

  lemma {:induction false} HexLength(text: Bytes)
    requires HexDecode(text).Some?
    ensures |text| == 2 * |HexDecode(text).value|
    decreases |text|
  {
    if text != [] {
      HexLength(text[2..]);
    }
  }

  ghost predicate Holds(records: seq<Record>, rows: seq<Row>) {
    |records| == |rows| && forall i | 0 <= i < |rows| :: records[i].payload == Payload(rows[i])
  }

  lemma {:induction false} WrittenLength(
    sha: Sha256, rows: seq<Row>, records: seq<Record>, from: nat, previous: Bytes, other: Bytes)
    requires Chain(sha, rows, from, previous) && AllHex(rows) && Holds(records, rows) && |previous| == |other|
    ensures |Wire(WrittenRows(sha, records, from, other), from)| == |Wire(rows, from)|
    ensures forall i | 0 <= i < |records| :: 2 * |records[i].payload| <= MAX_FIELD
    decreases |rows|
  {
    hide HexEncode, HexDecode, RowHash, FieldsBytes;
    if rows != [] {
      HexLength(rows[0].payload);
      WrittenStep(sha, records, from, other);
      var written := WrittenRows(sha, records, from, other);
      WrittenLength(sha, rows[1..], records[1..], from + 1, rows[0].hash, written[0].hash);
      assert forall i | 0 < i < |records| :: records[i] == records[1..][i - 1];
    }
  }

  lemma {:induction false} WrittenAsRead(sha: Sha256, rows: seq<Row>, records: seq<Record>, from: nat, previous: Bytes)
    requires Chain(sha, rows, from, previous) && AllHex(rows) && Holds(records, rows) && forall row | row in rows :: AsWritten(row)
    ensures WrittenRows(sha, records, from, previous) == rows
    decreases |rows|
  {
    hide HexEncode, HexDecode, RowHash;
    if rows != [] {
      assert AsWritten(rows[0]);
      LowerCaseIsWritten(rows[0].payload);
      WrittenAsRead(sha, rows[1..], records[1..], from + 1, rows[0].hash);
    }
  }

  lemma {:induction false} WrittenIsAsWritten(sha: Sha256, records: seq<Record>, from: nat, previous: Bytes)
    ensures forall row | row in WrittenRows(sha, records, from, previous) :: AsWritten(row)
    decreases |records|
  {
    hide HexEncode, HexDecode, RowHash;
    if records != [] {
      HexRoundTrip(records[0].payload);
      LowerCaseIsWritten(HexEncode(records[0].payload));
      WrittenIsAsWritten(sha, records[1..], from + 1, WrittenRows(sha, records, from, previous)[0].hash);
    }
  }

  /**
   * What was read can always be written back, as a ledger of the same length; it
   * is the same ledger exactly if every row is as the writer would have put it.
   */
  lemma {:induction false} ReencodeIff(sha: Sha256, b: Bytes, rows: seq<Row>)
    requires DecodeRows(sha, b) == Ok(rows)
    ensures Encode(sha, Records(rows)).Ok? && |Encode(sha, Records(rows)).value| == |b|
    ensures Encode(sha, Records(rows)).value == b <==> forall row | row in rows :: AsWritten(row)
  {
    hide Wire, WrittenRows, Chain, AllHex, EncodeFrom, Encode, DecodeRows, AsWritten, Payload, Header, Genesis;
    var records := Records(rows);
    var written := WrittenRows(sha, records, 0, Genesis());
    DecodeAcceptsLedgers(sha, b, rows);
    WrittenLength(sha, rows, records, 0, Genesis(), Genesis());
    EncodeMeans(sha, records);
    if forall row | row in rows :: AsWritten(row) {
      WrittenAsRead(sha, rows, records, 0, Genesis());
    }
    if Encode(sha, records).value == b {
      DecodeAcceptsLedgers(sha, b, written);
      WrittenIsAsWritten(sha, records, 0, Genesis());
    }
  }

  /** A ledger of one row, whatever its timestamp and payload text. */
  lemma {:induction false} OneRowLedger(sha: Sha256, timestamp: nat, payload: Bytes) returns (b: Bytes, row: Row)
    requires timestamp <= U64_MAX && |payload| <= 2 && HexDecode(payload).Some?
    ensures row.timestamp == timestamp && row.payload == payload && DecodeRows(sha, b) == Ok([row])
  {
    hide RowHash, HexDecode, DecodeRows, Header, Genesis;
    row := Row(timestamp, payload, Genesis(), RowHash(sha, 0, Genesis(), payload));
    b := Header() + WireRow(0, row);
    assert [row][1..] == [] && Wire([row], 0) == WireRow(0, row) + [];
    assert GoodRow(sha, 0, Genesis(), row) && Chain(sha, [row], 0, Genesis());
    assert AllHex([row]);
    DecodeAcceptsLedgers(sha, b, [row]);
  }

  /** An upper-case digit, or a timestamp, is lost when a ledger is read and written back. */
  lemma {:induction false} ReencodingDiffers(sha: Sha256) returns (upper: Bytes, stamped: Bytes)
    ensures Decode(sha, upper) == Ok([Record(0, [10])]) && Encode(sha, [Record(0, [10])]) != Ok(upper)
    ensures Decode(sha, stamped) == Ok([Record(0, [])]) && Encode(sha, [Record(0, [])]) != Ok(stamped)
  {
    hide DecodeRows, Encode;
    var row;
    var text: Bytes, ten: Bytes := [0x30, 0x41], [10];
    assert text[2..] == [] && HexDecode(text[2..]) == Some([]) && [0 * 16 + 10] + [] == ten;
    assert HexDecode(text) == Some(ten);
    upper, row := OneRowLedger(sha, 0, text);
    assert ten[1..] == [] && HexEncode(ten)[1] == 0x61;
    assert Records([row]) == [Record(0, ten)];
    assert row in [row] && !AsWritten(row);
    ReencodeIff(sha, upper, [row]);
    stamped, row := OneRowLedger(sha, 1, []);
    assert Records([row]) == [Record(0, [])];
    assert row in [row] && !AsWritten(row);
    ReencodeIff(sha, stamped, [row]);
  }

  // ----- the last hash commits to the history -----

  lemma {:induction false} FrameInjective(f: Bytes, x: Bytes, g: Bytes, y: Bytes)
    requires |f| <= U64_MAX && |g| <= U64_MAX && Frame(f) + x == Frame(g) + y
    ensures f == g && x == y
  {
    hide LE.Encode, LE.Decode;
    var s := Frame(f) + x;
    assert s[..8] == LE.Encode(|f|, 8) && s[..8] == LE.Encode(|g|, 8);
    LE.U64RoundTrip(|f|);
    LE.U64RoundTrip(|g|);
    assert s[8..8 + |f|] == f && s[8..8 + |f|] == g && s[8 + |f|..] == x && s[8 + |f|..] == y;
  }

  lemma {:induction false} PreimageInjective(i: nat, p: Bytes, u: Bytes, j: nat, q: Bytes, v: Bytes, t: Bytes, w: Bytes)
    requires i < U64_MAX && j < U64_MAX && |p| <= U64_MAX && |q| <= U64_MAX && |t| <= U64_MAX
    requires |u| <= U64_MAX && |v| <= U64_MAX
    requires Preimage(i, p, t, u, w, []) == Preimage(j, q, t, v, w, [])
    ensures i == j && p == q && u == v
  {
    hide Frame, Decimal;
    var tail := Frame(w) + Frame([]);
    var a3, b3 := Frame(u) + tail, Frame(v) + tail;
    var a2, b2 := Frame(t) + a3, Frame(t) + b3;
    var a1, b1 := Frame(p) + a2, Frame(q) + b2;
    FrameInjective(Decimal(i), a1, Decimal(j), b1);
    DecimalRoundTrip(i);
    DecimalRoundTrip(j);
    FrameInjective(p, a2, q, b2);
    FrameInjective(t, a3, t, b3);
    FrameInjective(u, tail, v, tail);
  }

  function RowPreimage(sequence: nat, row: Row): Bytes {
    Preimage(sequence, row.previous, Topic(), row.payload, Provenance(), [])
  }

  /** Everything that was hashed to build the rows. */
  function Hashed(rows: seq<Row>): set<Bytes> {
    set i | 0 <= i < |rows| :: RowPreimage(i, rows[i])
  }

  ghost predicate CollisionFree(sha: Sha256, inputs: set<Bytes>) {
    forall x, y :: x in inputs && y in inputs && sha(x) == sha(y) ==> x == y
  }

  lemma {:induction false} NoCollision(sha: Sha256, rows: seq<Row>, m: nat, other: seq<Row>, n: nat)
    requires m < |rows| && n < |other| && CollisionFree(sha, Hashed(rows) + Hashed(other))
    requires sha(RowPreimage(m, rows[m])) == sha(RowPreimage(n, other[n]))
    ensures RowPreimage(m, rows[m]) == RowPreimage(n, other[n])
  {
    hide RowPreimage;
    assert RowPreimage(m, rows[m]) in Hashed(rows) && RowPreimage(n, other[n]) in Hashed(other);
  }

  lemma {:induction false} CollisionFreePrefix(sha: Sha256, rows: seq<Row>, other: seq<Row>, n: nat)
    requires n <= |rows| && n <= |other| && CollisionFree(sha, Hashed(rows) + Hashed(other))
    ensures CollisionFree(sha, Hashed(rows[..n]) + Hashed(other[..n]))
  {
    hide RowPreimage;
    assert Hashed(rows[..n]) <= Hashed(rows) && Hashed(other[..n]) <= Hashed(other);
  }

  lemma {:induction false} LastRowCommits(sha: Sha256, rows: seq<Row>, other: seq<Row>)
    requires rows != [] && other != [] && |rows| < U64_MAX && |other| < U64_MAX
    requires Chain(sha, rows, 0, Genesis()) && Chain(sha, other, 0, Genesis())
    requires LastHash(rows, Genesis()) == LastHash(other, Genesis())
    requires CollisionFree(sha, Hashed(rows) + Hashed(other))
    ensures |rows| == |other| && rows[|rows| - 1].payload == other[|rows| - 1].payload
    ensures rows[|rows| - 1].hash == other[|rows| - 1].hash
    ensures LastHash(rows[..|rows| - 1], Genesis()) == LastHash(other[..|rows| - 1], Genesis())
  {
    hide Preimage, HexEncode, Topic, Provenance, Genesis, Hashed, CollisionFree;
    var m, n := |rows| - 1, |other| - 1;
    ChainSplits(sha, rows, 0, Genesis(), m);
    ChainSplits(sha, other, 0, Genesis(), n);
    var x, y := RowPreimage(m, rows[m]), RowPreimage(n, other[n]);
    LastHashLength(sha, rows[..m], 0, Genesis());
    LastHashLength(sha, other[..n], 0, Genesis());
    HexInjective(sha(x), sha(y));
    NoCollision(sha, rows, m, other, n);
    PreimageInjective(m, rows[m].previous, rows[m].payload, n, other[n].previous, other[n].payload, Topic(), Provenance());
  }

  lemma {:induction false} ChainCommits(sha: Sha256, rows: seq<Row>, other: seq<Row>)
    requires |rows| < U64_MAX && |other| < U64_MAX
    requires Chain(sha, rows, 0, Genesis()) && Chain(sha, other, 0, Genesis())
    requires LastHash(rows, Genesis()) == LastHash(other, Genesis())
    requires CollisionFree(sha, Hashed(rows) + Hashed(other))
    ensures |rows| == |other|
    ensures forall i :: 0 <= i < |rows| ==> rows[i].payload == other[i].payload && rows[i].hash == other[i].hash
    decreases |rows|
  {
    hide GoodRow, CollisionFree, Hashed, Genesis;
    if rows == [] || other == [] {
      NonEmptyEndsInHash(sha, rows);
      NonEmptyEndsInHash(sha, other);
    } else {
      LastRowCommits(sha, rows, other);
      var n := |rows| - 1;
      ChainSplits(sha, rows, 0, Genesis(), n);
      ChainSplits(sha, other, 0, Genesis(), n);
      CollisionFreePrefix(sha, rows, other, n);
      ChainCommits(sha, rows[..n], other[..n]);
      assert forall i :: 0 <= i < n ==> rows[..n][i] == rows[i] && other[..n][i] == other[i];
    }
  }

  lemma {:induction false} NonEmptyEndsInHash(sha: Sha256, rows: seq<Row>)
    requires Chain(sha, rows, 0, Genesis())
    ensures |LastHash(rows, Genesis())| == if rows == [] then 7 else 64
  {
    hide RowHash, Genesis;
    if rows != [] {
      ChainSplits(sha, rows, 0, Genesis(), |rows| - 1);
    }
  }

  lemma {:induction false} PreviousIsFixed(sha: Sha256, rows: seq<Row>, from: nat, previous: Bytes, i: nat)
    requires Chain(sha, rows, from, previous) && i < |rows|
    ensures rows[i].previous == if i == 0 then previous else rows[i - 1].hash
    decreases i
  {
    hide RowHash;
    if i > 0 {
      PreviousIsFixed(sha, rows[1..], from + 1, rows[0].hash, i - 1);
    }
  }

  ghost predicate SameTimes(rows: seq<Row>, other: seq<Row>) {
    |rows| == |other| && forall i | 0 <= i < |rows| :: rows[i].timestamp == other[i].timestamp
  }

  /** Rows that agree in payload texts and hashes are the same up to their timestamps. */
  lemma {:induction false} TimesDecide(sha: Sha256, rows: seq<Row>, other: seq<Row>)
    requires Chain(sha, rows, 0, Genesis()) && Chain(sha, other, 0, Genesis()) && |rows| == |other|
    requires forall i :: 0 <= i < |rows| ==> rows[i].payload == other[i].payload && rows[i].hash == other[i].hash
    ensures rows == other <==> SameTimes(rows, other)
  {
    hide Chain;
    if SameTimes(rows, other) {
      forall i | 0 <= i < |rows|
        ensures rows[i] == other[i]
      {
        PreviousIsFixed(sha, rows, 0, Genesis(), i);
        PreviousIsFixed(sha, other, 0, Genesis(), i);
      }
    }
  }

  /**
   * If two accepted ledgers end in the same hash, and SHA-256 does not collide
   * on what was hashed to build them, they hold the same records, payload texts
   * and hashes throughout; the timestamps are all the hash leaves open.
   */
  lemma {:induction false} LastHashCommitsToLedger(sha: Sha256, b: Bytes, c: Bytes, rows: seq<Row>, other: seq<Row>)
    requires DecodeRows(sha, b) == Ok(rows) && DecodeRows(sha, c) == Ok(other)
    requires LastHash(rows, Genesis()) == LastHash(other, Genesis())
    requires CollisionFree(sha, Hashed(rows) + Hashed(other))
    ensures Decode(sha, b) == Decode(sha, c)
    ensures |rows| == |other|
    ensures forall i :: 0 <= i < |rows| ==> rows[i].payload == other[i].payload && rows[i].hash == other[i].hash
    ensures b == c <==> SameTimes(rows, other)
  {
    hide Wire, Chain, DecodeRows, CollisionFree, Hashed, Payload, Header, SameTimes;
    DecodeAcceptsLedgers(sha, b, rows);
    DecodeAcceptsLedgers(sha, c, other);
    WireLength(rows, 0);
    WireLength(other, 0);
    ChainCommits(sha, rows, other);
    PayloadsAgree(rows, other);
    TimesDecide(sha, rows, other);
  }

  /** Two ledgers of one row, with the same hashes and different bytes. */
  lemma {:induction false} TimestampIsUncommitted(sha: Sha256) returns (b: Bytes, c: Bytes, rows: seq<Row>, other: seq<Row>)
    ensures DecodeRows(sha, b) == Ok(rows) && DecodeRows(sha, c) == Ok(other) && |rows| == |other| == 1
    ensures LastHash(rows, Genesis()) == LastHash(other, Genesis()) && b != c
  {
    hide DecodeRows, Genesis;
    var row, stamped;
    b, row := OneRowLedger(sha, 0, []);
    c, stamped := OneRowLedger(sha, 1, []);
    rows, other := [row], [stamped];
    DecodeAcceptsLedgers(sha, b, rows);
    DecodeAcceptsLedgers(sha, c, other);
    assert GoodRow(sha, 0, Genesis(), row) && GoodRow(sha, 0, Genesis(), stamped);
  }

  lemma {:induction false} PayloadsAgree(rows: seq<Row>, other: seq<Row>)
    requires |rows| == |other| && forall i :: 0 <= i < |rows| ==> rows[i].payload == other[i].payload
    ensures Records(rows) == Records(other)
  {
    forall i | 0 <= i < |rows|
      ensures Records(rows)[i] == Records(other)[i]
    {
      assert rows[i].payload == other[i].payload;
    }
  }
}
