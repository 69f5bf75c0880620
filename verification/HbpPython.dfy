/**
 * `scripts/hbp_receipt.py`, the Python twin of the HBP codec, and how far it
 * agrees with the Rust one.
 */
module HbpPython {
  import opened Prelude
  import opened Text
  import opened HbpFormat
  import LE = LittleEndian
  import Grammar = HbpTheorems

  const MAX_RECORDS: nat := 100_000

  /** One case per `ValueError` message. */
  datatype PyError =
    | FieldLimit
    | RecordLimit
    | LedgerRecordLimit
    | InvalidHeader
    | InvalidCount
    | InvalidRecordLength
    | NonContiguous
    | TruncatedField
    | InvalidFieldLength
    | InvalidUtf8Field
    | InvalidMarker
    | UnsupportedDomain
    | InvalidPayload
    | HashMismatch

  // ----- the writer -----

  function Field(text: Bytes): Result<Bytes, PyError> {
    if |text| > MAX_FIELD then Err(FieldLimit) else Ok(LE.Encode(|text|, 4) + text)
  }

  function ContentHash(sha: Sha256, sequence: nat, previous: Bytes, payload: Bytes): Bytes {
    HexEncode(sha(Frame(Decimal(sequence)) + Frame(previous) + Frame(Topic()) + Frame(payload)
                  + Frame(Provenance()) + Frame([])))
  }

  function EncodePyRecord(sha: Sha256, sequence: nat, previous: Bytes, payload: Bytes): Result<(Bytes, Bytes), PyError> {
    var text := HexEncode(payload);
    var hash := ContentHash(sha, sequence, previous, text);
    var topic :- Field(Topic());
    var hex :- Field(text);
    var provenance :- Field(Provenance());
    var prev :- Field(previous);
    var own :- Field(hash);
    var body := LE.Encode(sequence, 8) + LE.Encode(0, 8) + topic + hex + provenance + [0] + prev + own;
    if |body| > MAX_RECORD then Err(RecordLimit) else Ok((LE.Encode(|body|, 4) + body, hash))
  }

  function EncodePyFrom(sha: Sha256, payloads: seq<Bytes>, sequence: nat, previous: Bytes, output: Bytes)
    : (r: Result<Bytes, PyError>)
    requires sequence <= |payloads|
    ensures r.Ok? ==> |output| <= |r.value|
    decreases |payloads| - sequence
  {
    if sequence == |payloads| then Ok(output)
    else
      var (record, hash) :- EncodePyRecord(sha, sequence, previous, payloads[sequence]);
      EncodePyFrom(sha, payloads, sequence + 1, hash, output + record)
  }

  function EncodePy(sha: Sha256, payloads: seq<Bytes>): Result<Bytes, PyError> {
    if |payloads| > MAX_RECORDS then Err(LedgerRecordLimit)
    else EncodePyFrom(sha, payloads, 0, Genesis(), Header())
  }

  // ----- the reader -----

  function TakeField(body: Bytes, cursor: nat): (r: Result<(Bytes, nat), PyError>)
    ensures r.Ok? ==> cursor <= r.value.1 <= |body|
  {
    if cursor + 4 > |body| then Err(TruncatedField)
    else
      var size := LE.Decode(body[cursor..cursor + 4]);
      if size > MAX_FIELD || cursor + 4 + size > |body| then Err(InvalidFieldLength)
      else if !ValidUtf8(body[cursor + 4..cursor + 4 + size]) then Err(InvalidUtf8Field)
      else Ok((body[cursor + 4..cursor + 4 + size], cursor + 4 + size))
  }

  predicate Whitespace(c: byte) {
    c == 0x20 || 0x09 <= c <= 0x0D
  }

  /** `bytes.fromhex`, which skips ASCII whitespace between bytes. */
  function FromHex(text: Bytes): Option<Bytes> {
    if text == [] then Some([])
    else if Whitespace(text[0]) then FromHex(text[1..])
    else if |text| == 1 then None
    else
      match (HexValue(text[0]), HexValue(text[1]), FromHex(text[2..]))
      case (Some(high), Some(low), Some(rest)) => Some([high * 16 + low] + rest)
      case _ => None
  }

  /** The fields of a body that is long enough for its two leading integers. */
  function PyBody(body: Bytes): Result<Fields, PyError>
    requires |body| >= 16
  {
    var (topic, c1) :- TakeField(body, 16);
    var (payload, c2) :- TakeField(body, c1);
    var (provenance, c3) :- TakeField(body, c2);
    if c3 >= |body| || body[c3] != 0 then Err(InvalidMarker)
    else
      var (actual, c4) :- TakeField(body, c3 + 1);
      var (hash, c5) :- TakeField(body, c4);
      if c5 != |body| then Err(UnsupportedDomain)
      else Ok(Fields(LE.Decode(body[0..8]), LE.Decode(body[8..16]), topic, payload, provenance, actual, hash))
  }

  /** One turn of the decoder's loop; `Row` keeps the payload's text. */
  function DecodePyRow(sha: Sha256, data: Bytes, offset: nat, count: nat, previous: Bytes): (r: Result<(Row, nat), PyError>)
    requires offset < |data|
    ensures r.Ok? ==> offset < r.value.1 <= |data|
  {
    if count >= MAX_RECORDS || offset + 4 > |data| then Err(InvalidCount)
    else
      var length := LE.Decode(data[offset..offset + 4]);
      if length < 16 || length > MAX_RECORD || offset + 4 + length > |data| then Err(InvalidRecordLength)
      else
        var body := data[offset + 4..offset + 4 + length];
        if LE.Decode(body[0..8]) != count then Err(NonContiguous)
        else
          var f :- PyBody(body);
          if f.topic != Topic() || f.provenance != Provenance() then Err(UnsupportedDomain)
          else if FromHex(f.payload).None? then Err(InvalidPayload)
          else if f.previous != previous || f.hash != ContentHash(sha, count, f.previous, f.payload) then Err(HashMismatch)
          else Ok((Row(f.timestamp, f.payload, f.previous, f.hash), offset + 4 + length))
  }

  function DecodePyFrom(sha: Sha256, data: Bytes, offset: nat, previous: Bytes, rows: seq<Row>): Result<seq<Row>, PyError>
    requires offset <= |data|
    decreases |data| - offset
  {
    if offset == |data| then Ok(rows)
    else
      var (row, end) :- DecodePyRow(sha, data, offset, |rows|, previous);
      DecodePyFrom(sha, data, end, row.hash, rows + [row])
  }

  function DecodePyRows(sha: Sha256, data: Bytes): Result<seq<Row>, PyError> {
    if |data| > MAX_LEDGER || !(Header() <= data) then Err(InvalidHeader)
    else DecodePyFrom(sha, data, 8, Genesis(), [])
  }

  function PyPayload(row: Row): Bytes {
    match FromHex(row.payload)
    case Some(bytes) => bytes
    case None => []
  }

  function PyPayloads(rows: seq<Row>): (r: seq<Bytes>)
    ensures |r| == |rows|
  {
    seq(|rows|, i requires 0 <= i < |rows| => PyPayload(rows[i]))
  }

  function DecodePy(sha: Sha256, data: Bytes): Result<seq<Bytes>, PyError> {
    var rows :- DecodePyRows(sha, data);
    Ok(PyPayloads(rows))
  }

  // ----- as they run -----

  method EncodeRecords(sha: Sha256, payloads: seq<Bytes>) returns (r: Result<Bytes, PyError>)
    ensures r == EncodePy(sha, payloads)
  {
    hide EncodePyRecord, Header, Genesis;
    if |payloads| > MAX_RECORDS {
      return Err(LedgerRecordLimit);
    }
    var output := Header();
    var previous := Genesis();
    var sequence := 0;
    while sequence < |payloads|
      invariant 0 <= sequence <= |payloads|
      invariant EncodePyFrom(sha, payloads, 0, Genesis(), Header()) == EncodePyFrom(sha, payloads, sequence, previous, output)
    {
      var step := EncodePyRecord(sha, sequence, previous, payloads[sequence]);
      if step.Err? {
        return Err(step.error);
      }
      output := output + step.value.0;
      previous := step.value.1;
      sequence := sequence + 1;
    }
    return Ok(output);
  }

  method DecodeRecords(sha: Sha256, data: Bytes) returns (r: Result<seq<Bytes>, PyError>)
    ensures r == DecodePy(sha, data)
  {
    hide DecodePyRow, Header, Genesis;
    if |data| > MAX_LEDGER || !(Header() <= data) {
      return Err(InvalidHeader);
    }
    var offset: nat := 8;
    var payloads: seq<Bytes> := [];
    var previous := Genesis();
    ghost var rows: seq<Row> := [];
    while offset < |data|
      invariant offset <= |data| && payloads == PyPayloads(rows)
      invariant DecodePyRows(sha, data) == DecodePyFrom(sha, data, offset, previous, rows)
      decreases |data| - offset
    {
      var step := DecodePyRow(sha, data, offset, |payloads|, previous);
      if step.Err? {
        return Err(step.error);
      }
      var (row, end) := step.value;
      payloads := payloads + [PyPayload(row)];
      rows := rows + [row];
      assert PyPayloads(rows) == payloads;
      previous := row.hash;
      offset := end;
    }
    return Ok(payloads);
  }

  // ----- the two writers -----

  function Numbered(payloads: seq<Bytes>): (r: seq<Record>)
    ensures |r| == |payloads|
    ensures forall i :: 0 <= i < |payloads| ==> r[i] == Record(i, payloads[i])
  {
    seq(|payloads|, i requires 0 <= i < |payloads| => Record(i, payloads[i]))
  }

  lemma {:induction false} ContentHashIsRowHash(sha: Sha256, sequence: nat, previous: Bytes, payload: Bytes)
    ensures ContentHash(sha, sequence, previous, payload) == RowHash(sha, sequence, previous, payload)
  {
    hide Frame, Decimal, HexEncode, Topic, Provenance;
    var a, b, c, d, e, f := Frame(Decimal(sequence)), Frame(previous), Frame(Topic()), Frame(payload), Frame(Provenance()), Frame([]);
    assert a + b + c + d + e + f == a + (b + (c + (d + (e + f))));
  }

  lemma {:induction false} SameRecord(sha: Sha256, sequence: nat, previous: Bytes, payload: Bytes)
    ensures EncodePyRecord(sha, sequence, previous, payload).Ok?
       <==> EncodeRecord(sha, sequence, Record(sequence, payload), previous).Ok?
    ensures EncodePyRecord(sha, sequence, previous, payload).Ok?
        ==> EncodePyRecord(sha, sequence, previous, payload).value
            == EncodeRecord(sha, sequence, Record(sequence, payload), previous).value
  {
    hide HexEncode, Topic, Provenance, RowHash, ContentHash, LE.Encode;
    var text := HexEncode(payload);
    ContentHashIsRowHash(sha, sequence, previous, text);
    var hash := RowHash(sha, sequence, previous, text);
    var q, z, t, p, v, m, l, h := LE.Encode(sequence, 8), LE.Encode(0, 8), Str(Topic()), Str(text), Str(Provenance()), [0], Str(previous), Str(hash);
    RightToLeft(q, z, t, p, v, m, l, h);
  }

  lemma {:induction false} RightToLeft(a: Bytes, b: Bytes, c: Bytes, d: Bytes, e: Bytes, f: Bytes, g: Bytes, h: Bytes)
    ensures a + b + c + d + e + f + g + h == a + (b + (c + (d + (e + (f + (g + h))))))
  {
  }

  lemma {:induction false} WritersAgreeFrom(sha: Sha256, payloads: seq<Bytes>, i: nat, previous: Bytes, output: Bytes, b: Bytes)
    requires i <= |payloads| && |output| <= MAX_LEDGER
    ensures EncodeFrom(sha, Numbered(payloads), i, previous, output) == Ok(b)
       <==> EncodePyFrom(sha, payloads, i, previous, output) == Ok(b) && |b| <= MAX_LEDGER
    decreases |payloads| - i
  {
    hide EncodePyRecord, EncodeRecord;
    if i < |payloads| {
      SameRecord(sha, i, previous, payloads[i]);
      var step := EncodePyRecord(sha, i, previous, payloads[i]);
      if step.Ok? && |output + step.value.0| <= MAX_LEDGER {
        WritersAgreeFrom(sha, payloads, i + 1, step.value.1, output + step.value.0, b);
      }
    }
  }

  /**
   * Within both limits the two writers produce the same bytes: the Rust one
   * alone bounds the ledger's size, the Python one alone bounds its length.
   */
  lemma {:induction false} WritersAgree(sha: Sha256, payloads: seq<Bytes>, b: Bytes)
    requires |payloads| <= 100_000
    ensures Encode(sha, Numbered(payloads)) == Ok(b) <==> EncodePy(sha, payloads) == Ok(b) && |b| <= 0x400_0000
  {
    hide EncodePyFrom, EncodeFrom, Genesis, Header;
    WritersAgreeFrom(sha, payloads, 0, Genesis(), Header(), b);
  }

  // ----- the two readers -----

  lemma {:induction false} SameField(body: Bytes, cursor: nat)
    requires cursor <= |body|
    ensures TakeField(body, cursor).Ok? <==> TakeString(body, cursor).Ok?
    ensures TakeField(body, cursor).Ok? ==> TakeField(body, cursor).value == TakeString(body, cursor).value
  {
    hide LE.Decode, ValidUtf8;
  }

  /** What both readers demand of the record at `cursor`, payload coding apart. */
  function LinkedRow(sha: Sha256, b: Bytes, cursor: nat, sequence: nat, previous: Bytes): Option<(Row, nat)>
    requires cursor < |b|
  {
    if |b| - cursor < 4 then None
    else
      var length := LE.Decode(b[cursor..cursor + 4]);
      var end := cursor + 4 + length;
      if length == 0 || length > MAX_RECORD || end > |b| then None
      else
        match DecodeBody(b[cursor + 4..end])
        case Err(_) => None
        case Ok(f) =>
          if f.sequence == sequence && f.previous == previous && f.topic == Topic() && f.provenance == Provenance()
             && f.hash == RowHash(sha, sequence, f.previous, f.payload)
          then Some((Row(f.timestamp, f.payload, f.previous, f.hash), end))
          else None
  }

  lemma {:induction false} RustRow(sha: Sha256, b: Bytes, cursor: nat, sequence: nat, previous: Bytes, row: Row, end: nat)
    requires cursor < |b|
    ensures DecodeRow(sha, b, cursor, sequence, previous) == Ok((row, end))
       <==> LinkedRow(sha, b, cursor, sequence, previous) == Some((row, end)) && HexDecode(row.payload).Some?
  {
    hide LE.Decode, DecodeBody, RowHash, HexDecode, Topic, Provenance;
  }


  lemma {:induction false} SameLinks(body: Bytes, cursor: nat)
    requires cursor <= |body|
    ensures DecodeLinks(body, cursor).Ok?
       <==> && cursor < |body| && body[cursor] == 0 && TakeField(body, cursor + 1).Ok?
            && TakeField(body, TakeField(body, cursor + 1).value.1).Ok?
            && TakeField(body, TakeField(body, cursor + 1).value.1).value.1 == |body|
    ensures DecodeLinks(body, cursor).Ok?
        ==> DecodeLinks(body, cursor).value
            == (TakeField(body, cursor + 1).value.0, TakeField(body, TakeField(body, cursor + 1).value.1).value.0)
  {
    hide TakeField, TakeString;
    if cursor < |body| {
      SameField(body, cursor + 1);
      if TakeField(body, cursor + 1).Ok? {
        SameField(body, TakeField(body, cursor + 1).value.1);
      }
    }
  }

  lemma {:induction false} SameSubject(body: Bytes, cursor: nat)
    requires cursor <= |body|
    ensures DecodeSubject(body, cursor).Ok?
       <==> && TakeField(body, cursor).Ok?
            && TakeField(body, TakeField(body, cursor).value.1).Ok?
            && TakeField(body, TakeField(body, TakeField(body, cursor).value.1).value.1).Ok?
    ensures DecodeSubject(body, cursor).Ok?
        ==> var first := TakeField(body, cursor).value;
            var second := TakeField(body, first.1).value;
            var third := TakeField(body, second.1).value;
            DecodeSubject(body, cursor).value == ((first.0, second.0, third.0), third.1)
  {
    hide TakeField, TakeString;
    SameField(body, cursor);
    if TakeField(body, cursor).Ok? {
      var c1 := TakeField(body, cursor).value.1;
      SameField(body, c1);
      if TakeField(body, c1).Ok? {
        SameField(body, TakeField(body, c1).value.1);
      }
    }
  }

  lemma {:induction false} SameBody(body: Bytes)
    requires |body| >= 16
    ensures PyBody(body).Ok? <==> DecodeBody(body).Ok?
    ensures PyBody(body).Ok? ==> PyBody(body).value == DecodeBody(body).value
  {
    hide TakeField, TakeString, DecodeSubject, DecodeLinks, LE.Decode;
    SameSubject(body, 16);
    if DecodeSubject(body, 16).Ok? {
      SameLinks(body, DecodeSubject(body, 16).value.1);
    }
  }

  lemma {:induction false} PythonRow(sha: Sha256, b: Bytes, cursor: nat, sequence: nat, previous: Bytes, row: Row, end: nat)
    requires cursor < |b|
    ensures DecodePyRow(sha, b, cursor, sequence, previous) == Ok((row, end))
       <==> && sequence < MAX_RECORDS && LinkedRow(sha, b, cursor, sequence, previous) == Some((row, end))
            && FromHex(row.payload).Some?
  {
    hide LE.Decode, DecodeBody, PyBody, RowHash, ContentHash, FromHex, Topic, Provenance;
    if |b| - cursor >= 4 {
      var length := LE.Decode(b[cursor..cursor + 4]);
      if length <= MAX_RECORD && cursor + 4 + length <= |b| {
        var body := b[cursor + 4..cursor + 4 + length];
        if length >= 16 {
          SameBody(body);
          PyBodySequence(body);
          if PyBody(body).Ok? {
            var f := PyBody(body).value;
            ContentHashIsRowHash(sha, sequence, f.previous, f.payload);
          }
        } else {
          ShortBody(body);
        }
      }
    }
  }

  lemma {:induction false} PyBodySequence(body: Bytes)
    requires |body| >= 16
    ensures PyBody(body).Ok? ==> PyBody(body).value.sequence == LE.Decode(body[0..8])
  {
    hide TakeField, LE.Decode;
  }

  lemma {:induction false} ShortBody(body: Bytes)
    requires |body| < 16
    ensures DecodeBody(body).Err?
  {
    hide LE.Decode, DecodeSubject;
  }

  // ----- the two payload codings -----

  predicate NoWhitespace(text: Bytes) {
    forall i :: 0 <= i < |text| ==> text[i] !in {9, 10, 11, 12, 13, 32}
  }

  lemma {:induction false} HexIsFromHex(text: Bytes)
    requires HexDecode(text).Some?
    ensures FromHex(text) == HexDecode(text) && NoWhitespace(text)
  {
    if text != [] {
      HexIsFromHex(text[2..]);
      assert HexValue(text[0]).Some? && HexValue(text[1]).Some?;
      forall i | 0 <= i < |text|
        ensures !Whitespace(text[i])
      {
        assert i >= 2 ==> text[i] == text[2..][i - 2];
      }
    }
  }

  lemma {:induction false} FromHexWithoutWhitespace(text: Bytes)
    requires FromHex(text).Some? && NoWhitespace(text)
    ensures HexDecode(text) == FromHex(text)
  {
    if text != [] {
      assert !Whitespace(text[0]);
      assert forall i :: 2 <= i < |text| ==> text[2..][i - 2] == text[i];
      FromHexWithoutWhitespace(text[2..]);
    }
  }

  lemma {:induction false} RustToPythonFrom(sha: Sha256, b: Bytes, cursor: nat, previous: Bytes, done: seq<Row>, rows: seq<Row>)
    requires cursor <= |b| && DecodeFrom(sha, b, cursor, previous, done) == Ok(rows) && |rows| <= MAX_RECORDS
    ensures |done| <= |rows| && DecodePyFrom(sha, b, cursor, previous, done) == Ok(rows)
    decreases |b| - cursor
  {
    hide DecodeRow, DecodePyRow, LinkedRow, HexDecode, FromHex;
    if cursor < |b| {
      var (row, end) := DecodeRow(sha, b, cursor, |done|, previous).value;
      RustToPythonLength(sha, b, end, row.hash, done + [row], rows);
      RustRow(sha, b, cursor, |done|, previous, row, end);
      HexIsFromHex(row.payload);
      PythonRow(sha, b, cursor, |done|, previous, row, end);
      RustToPythonFrom(sha, b, end, row.hash, done + [row], rows);
    }
  }

  lemma {:induction false} RustToPythonLength(sha: Sha256, b: Bytes, cursor: nat, previous: Bytes, done: seq<Row>, rows: seq<Row>)
    requires cursor <= |b| && DecodeFrom(sha, b, cursor, previous, done) == Ok(rows)
    ensures |done| <= |rows|
    decreases |b| - cursor
  {
    hide DecodeRow;
    if cursor < |b| {
      var (row, end) := DecodeRow(sha, b, cursor, |done|, previous).value;
      RustToPythonLength(sha, b, end, row.hash, done + [row], rows);
    }
  }

  lemma {:induction false} SameHeader(b: Bytes)
    ensures HeaderError(b).None? <==> |b| <= MAX_LEDGER && Header() <= b
  {
    hide HeaderError, Header;
    Grammar.HeaderAccepted(b);
    assert |b| >= 8 ==> b[0..8] == b[..8];
  }

  lemma {:induction false} PythonCounts(sha: Sha256, b: Bytes, cursor: nat, previous: Bytes, done: seq<Row>, rows: seq<Row>)
    requires cursor <= |b| && DecodePyFrom(sha, b, cursor, previous, done) == Ok(rows) && |done| <= MAX_RECORDS
    ensures |rows| <= MAX_RECORDS
    decreases |b| - cursor
  {
    hide DecodePyRow, LinkedRow, FromHex;
    if cursor < |b| {
      var (row, end) := DecodePyRow(sha, b, cursor, |done|, previous).value;
      PythonRow(sha, b, cursor, |done|, previous, row, end);
      PythonCounts(sha, b, end, row.hash, done + [row], rows);
    }
  }

  lemma {:induction false} RustAcceptedIsPythonAccepted(sha: Sha256, b: Bytes, records: seq<Record>)
    requires Decode(sha, b) == Ok(records) && |records| <= MAX_RECORDS
    ensures DecodePy(sha, b).Ok? && Numbered(DecodePy(sha, b).value) == records
  {
    hide HeaderError, Header, DecodeFrom, DecodePyFrom, Genesis, HexDecode, FromHex;
    SameHeader(b);
    var rows := DecodeRows(sha, b).value;
    RustToPythonFrom(sha, b, 8, Genesis(), [], rows);
    AcceptedIsHex(sha, b, rows);
    forall i | 0 <= i < |rows|
      ensures PyPayload(rows[i]) == Payload(rows[i])
    {
      HexIsFromHex(rows[i].payload);
    }
    assert Numbered(PyPayloads(rows)) == Records(rows);
  }

  /** Of the ledgers Rust accepts, Python accepts exactly those of at most 100,000 records, with the same payloads. */
  lemma {:induction false} RustAcceptedByPythonIff(sha: Sha256, b: Bytes, records: seq<Record>)
    requires Decode(sha, b) == Ok(records)
    ensures DecodePy(sha, b).Ok? <==> |records| <= 100_000
    ensures DecodePy(sha, b).Ok? ==> Numbered(DecodePy(sha, b).value) == records
  {
    hide HeaderError, Header, DecodeFrom, DecodePyFrom, Genesis, DecodeRows;
    if |records| <= MAX_RECORDS {
      RustAcceptedIsPythonAccepted(sha, b, records);
    } else if DecodePy(sha, b).Ok? {
      var rows := DecodePyRows(sha, b).value;
      PythonCounts(sha, b, 8, Genesis(), [], rows);
      PythonAcceptedByRustIff(sha, b, rows);
      assert false;
    }
  }

  lemma {:induction false} NumberedInjective(a: seq<Bytes>, b: seq<Bytes>)
    requires Numbered(a) == Numbered(b)
    ensures a == b
  {
    assert |a| == |Numbered(a)| == |b|;
    forall i | 0 <= i < |a|
      ensures a[i] == b[i]
    {
      assert Numbered(a)[i] == Numbered(b)[i];
    }
  }

  /** The Python reader inverts the Python writer exactly on the ledgers within the reader's size limit. */
  lemma {:induction false} PythonRoundTripIff(sha: Sha256, payloads: seq<Bytes>, b: Bytes)
    requires EncodePy(sha, payloads) == Ok(b)
    ensures DecodePy(sha, b) == Ok(payloads) <==> |b| <= 0x400_0000
    ensures |b| > 0x400_0000 ==> DecodePy(sha, b).Err?
  {
    hide EncodePyFrom, DecodePyFrom, Encode, Decode, Header;
    if |b| <= MAX_LEDGER {
      WritersAgree(sha, payloads, b);
      Grammar.RoundTrip(sha, Numbered(payloads), b);
      RustAcceptedByPythonIff(sha, b, Numbered(payloads));
      NumberedInjective(DecodePy(sha, b).value, payloads);
    }
  }

  lemma {:induction false} PythonRecordFits(sha: Sha256, sequence: nat, previous: Bytes, payload: Bytes)
    requires |previous| <= 64 && 2 * |payload| <= MAX_FIELD
    ensures var r := EncodePyRecord(sha, sequence, previous, payload);
            r.Ok? && |r.value.0| >= 2 * |payload| && |r.value.1| == 64
  {
    hide HexEncode, LE.Encode, Genesis;
  }

  lemma {:induction false} PythonWrites(sha: Sha256, payloads: seq<Bytes>, i: nat, previous: Bytes, output: Bytes, n: nat)
    requires i <= |payloads| && |previous| <= 64 && 2 * n <= MAX_FIELD && forall p | p in payloads :: |p| == n
    ensures var r := EncodePyFrom(sha, payloads, i, previous, output);
            r.Ok? && |r.value| >= |output| + (|payloads| - i) * (2 * n)
    decreases |payloads| - i
  {
    hide EncodePyRecord;
    if i < |payloads| {
      assert payloads[i] in payloads;
      PythonRecordFits(sha, i, previous, payloads[i]);
      var (record, hash) := EncodePyRecord(sha, i, previous, payloads[i]).value;
      PythonWrites(sha, payloads, i + 1, hash, output + record, n);
      assert (|payloads| - i) * (2 * n) == 2 * n + (|payloads| - i - 1) * (2 * n);
    }
  }

  /** Sixteen payloads of two megabytes make a ledger that the Python writer emits and the Python reader refuses. */
  lemma {:induction false} PythonRefusesItself(sha: Sha256) returns (payloads: seq<Bytes>, b: Bytes)
    ensures EncodePy(sha, payloads) == Ok(b) && DecodePy(sha, b).Err?
  {
    hide EncodePyFrom, DecodePyFrom;
    var payload: Bytes := seq(0x20_0000, _ => 0);
    payloads := seq(16, _ => payload);
    PythonWrites(sha, payloads, 0, Genesis(), Header(), 0x20_0000);
    b := EncodePy(sha, payloads).value;
    assert |b| >= 8 + 16 * 0x40_0000;
    PythonRoundTripIff(sha, payloads, b);
  }

  lemma {:induction false} AcceptedIsHex(sha: Sha256, b: Bytes, rows: seq<Row>)
    requires DecodeRows(sha, b) == Ok(rows)
    ensures forall i :: 0 <= i < |rows| ==> HexDecode(rows[i].payload).Some?
  {
    hide DecodeRows, Grammar.Linked, HexDecode;
    Grammar.DecodeAcceptsLedgers(sha, b, rows);
    assert forall i :: 0 <= i < |rows| ==> rows[i] in rows;
  }

  /** From `from` on, no payload text holds whitespace. */
  predicate Clean(rows: seq<Row>, from: nat) {
    forall i :: from <= i < |rows| ==> NoWhitespace(rows[i].payload)
  }

  lemma {:induction false} NothingToClean(rows: seq<Row>)
    ensures Clean(rows, |rows|)
  {
  }

  lemma {:induction false} CleanStep(rows: seq<Row>, k: nat)
    requires k < |rows|
    ensures Clean(rows, k) <==> NoWhitespace(rows[k].payload) && Clean(rows, k + 1)
  {
    hide NoWhitespace;
  }

  lemma {:induction false} PythonToRustFrom(sha: Sha256, b: Bytes, cursor: nat, previous: Bytes, done: seq<Row>, rows: seq<Row>)
    requires cursor <= |b| && DecodePyFrom(sha, b, cursor, previous, done) == Ok(rows)
    ensures |done| <= |rows| && rows[..|done|] == done
    ensures Clean(rows, |done|) ==> DecodeFrom(sha, b, cursor, previous, done) == Ok(rows)
    ensures !Clean(rows, |done|) ==> DecodeFrom(sha, b, cursor, previous, done) == Err(InvalidHex)
    decreases |b| - cursor
  {
    hide DecodeRow, DecodePyRow, LinkedRow, HexDecode, FromHex, NoWhitespace, Clean;
    if cursor == |b| {
      assert Clean(rows, |rows|) by {
        NothingToClean(rows);
      }
    } else {
      var (row, end) := DecodePyRow(sha, b, cursor, |done|, previous).value;
      PythonToRustFrom(sha, b, end, row.hash, done + [row], rows);
      PythonRow(sha, b, cursor, |done|, previous, row, end);
      assert rows[|done|] == (done + [row])[|done|] == row;
      assert rows[..|done|] == done;
      CleanStep(rows, |done|);
      if NoWhitespace(row.payload) {
        FromHexWithoutWhitespace(row.payload);
        RustRow(sha, b, cursor, |done|, previous, row, end);
      } else {
        RustRejectsWhitespace(sha, b, cursor, |done|, previous, row, end);
      }
    }
  }

  lemma {:induction false} RustRejectsWhitespace(
    sha: Sha256, b: Bytes, cursor: nat, sequence: nat, previous: Bytes, row: Row, end: nat)
    requires cursor < |b| && LinkedRow(sha, b, cursor, sequence, previous) == Some((row, end))
    requires !NoWhitespace(row.payload)
    ensures DecodeRow(sha, b, cursor, sequence, previous) == Err(InvalidHex)
  {
    hide LE.Decode, DecodeBody, RowHash, HexDecode, Topic, Provenance, NoWhitespace;
    if HexDecode(row.payload).Some? {
      HexIsFromHex(row.payload);
    }
  }

  /**
   * The other direction fails, and this is exactly when: of the ledgers Python
   * accepts, Rust accepts those whose payload texts hold no whitespace, and
   * rejects the rest as invalid hexadecimal.
   */
  lemma {:induction false} PythonAcceptedByRustIff(sha: Sha256, b: Bytes, rows: seq<Row>)
    requires DecodePyRows(sha, b) == Ok(rows)
    ensures DecodeRows(sha, b) == if Clean(rows, 0) then Ok(rows) else Err(InvalidHex)
  {
    hide HeaderError, Header, DecodeFrom, DecodePyFrom, Genesis, Clean;
    SameHeader(b);
    PythonToRustFrom(sha, b, 8, Genesis(), [], rows);
  }

  /** A one-record ledger whose payload text is a single space tells the readers apart. */
  lemma {:induction false} ReadersDiffer(sha: Sha256) returns (b: Bytes)
    ensures DecodePy(sha, b) == Ok([[]]) && Decode(sha, b) == Err(InvalidHex)
  {
    hide Header, Grammar.FieldsBytes, RowHash, DecodePyRow, DecodeBody;
    var row := Row(0, [0x20], Genesis(), RowHash(sha, 0, Genesis(), [0x20]));
    var wire := Grammar.WireRow(0, row);
    b := Header() + wire;
    WireLinks(sha, b, row);
    assert FromHex([0x20]) == FromHex([0x20][1..]);
    PythonRow(sha, b, 8, 0, Genesis(), row, |b|);
    assert [] + [row] == [row] && b[..8] == Header();
    assert DecodePyFrom(sha, b, |b|, row.hash, [row]) == Ok([row]);
    assert Whitespace(row.payload[0]);
    CleanStep([row], 0);
    PythonAcceptedByRustIff(sha, b, [row]);
    assert PyPayloads([row]) == [[]];
  }

  lemma {:induction false} WireLinks(sha: Sha256, b: Bytes, row: Row)
    requires b == Header() + Grammar.WireRow(0, row)
    requires row == Row(0, [0x20], Genesis(), RowHash(sha, 0, Genesis(), [0x20]))
    ensures |b| <= MAX_LEDGER && LinkedRow(sha, b, 8, 0, Genesis()) == Some((row, |b|))
  {
    hide Header, Grammar.FieldsBytes, RowHash, DecodeBody, LE.Encode, LE.Decode, ValidUtf8, Genesis;
    var fields := Grammar.RowFields(0, row);
    var body := Grammar.FieldsBytes(fields);
    Grammar.ConstantsFit();
    Grammar.RowHashFits(sha, 0, Genesis(), [0x20]);
    AsciiIsUtf8([0x20]);
    Grammar.BodyParses(fields);
    LE.U32RoundTrip(|body|);
    assert b[8..12] == LE.Encode(|body|, 4) && b[12..|b|] == body;
    assert |b| == 12 + |body|;
  }
}
