/**
 * The ledger read off its own bytes: where each field of a record lies, what is
 * hashed for it, and which fault each error names, in literal positions and text.
 */
module HbpBytes {
  import opened Prelude
  import opened Text
  import opened HbpFormat
  import opened HbpTheorems
  import LE = LittleEndian

  /** The bytes of a text of ASCII characters. */
  function Chars(text: string): (bytes: Bytes)
    ensures |bytes| == |text|
  {
    seq(|text|, i requires 0 <= i < |text| => text[i] as int % 0x80)
  }

  lemma {:induction false} ConstantsAre()
    ensures Genesis() == Chars("genesis") && Topic() == Chars("code.record") && Provenance() == Chars("simplicio-code")
    ensures Header() == Chars("HBP1") + [1, 0, 0, 0]
  {
    assert LE.Encode(1, 2) == [1] + LE.Encode(0, 1) && LE.Encode(0, 1) == [0] + LE.Encode(0, 0);
  }

  // ----- a record, byte by byte -----

  /** At `p` lies the length of `text` in four bytes, and then `text`. */
  predicate TextAt(b: Bytes, p: nat, text: Bytes) {
    p + 4 + |text| <= |b| && LE.U32At(b, p) == |text| && b[p + 4..p + 4 + |text|] == text
  }

  /** The record at `p` is that of row `k`: its length, number, timestamp and six texts, one after another. */
  predicate RecordAt(b: Bytes, p: nat, k: nat, row: Row) {
    var n, m := |row.payload|, |row.previous|;
    && p + 66 + n + m + |row.hash| <= |b|
    && LE.U32At(b, p) == 62 + n + m + |row.hash| && LE.U64At(b, p + 4) == k && LE.U64At(b, p + 12) == row.timestamp
    && TextAt(b, p + 20, Chars("code.record")) && TextAt(b, p + 35, row.payload)
    && TextAt(b, p + 39 + n, Chars("simplicio-code"))
    && b[p + 57 + n] == 0
    && TextAt(b, p + 58 + n, row.previous) && TextAt(b, p + 62 + n + m, row.hash)
  }

  lemma {:induction false} StrAt(b: Bytes, p: nat, text: Bytes)
    requires At(b, p, Str(text)) && |text| < 0x1_0000_0000
    ensures TextAt(b, p, text)
  {
    hide LE.Encode, LE.Decode, LE.U32At;
    AtConcat(b, p, LE.Encode(|text|, 4), text);
    LE.U32RoundTrip(|text|);
    LE.DecodeQuad(b, p);
  }

  lemma {:induction false} NumberAt(b: Bytes, p: nat, n: nat)
    requires At(b, p, LE.Encode(n, 8)) && n <= U64_MAX
    ensures p + 8 <= |b| && LE.U64At(b, p) == n
  {
    hide LE.Encode, LE.Decode, LE.U64At;
    LE.U64RoundTrip(n);
    LE.DecodeOctet(b, p);
  }

  lemma {:induction false} SubjectAt(b: Bytes, p: nat, payload: Bytes)
    requires At(b, p, SubjectBytes(Topic(), payload, Provenance())) && |payload| <= MAX_FIELD
    ensures TextAt(b, p, Chars("code.record")) && TextAt(b, p + 15, payload) && TextAt(b, p + 19 + |payload|, Chars("simplicio-code"))
  {
    hide Str, TextAt, Topic, Provenance;
    ConstantsAre();
    AtConcat(b, p, Str(Topic()), Str(payload) + Str(Provenance()));
    AtConcat(b, p + 15, Str(payload), Str(Provenance()));
    StrAt(b, p, Topic());
    StrAt(b, p + 15, payload);
    StrAt(b, p + 19 + |payload|, Provenance());
  }

  lemma {:induction false} LinksAt(b: Bytes, p: nat, previous: Bytes, hash: Bytes)
    requires At(b, p, LinkBytes(previous, hash)) && |previous| <= 64 && |hash| <= 64
    ensures p < |b| && b[p] == 0 && TextAt(b, p + 1, previous) && TextAt(b, p + 5 + |previous|, hash)
  {
    hide Str, TextAt;
    AtConcat(b, p, [0], Str(previous) + Str(hash));
    assert b[p..p + 1][0] == 0;
    AtConcat(b, p + 1, Str(previous), Str(hash));
    StrAt(b, p + 1, previous);
    StrAt(b, p + 5 + |previous|, hash);
  }

  /** The parts of a record's bytes, each at its place. */
  lemma {:induction false} WireParts(b: Bytes, p: nat, k: nat, row: Row)
    requires At(b, p, WireRow(k, row))
    ensures At(b, p, LE.Encode(62 + |row.payload| + |row.previous| + |row.hash|, 4))
    ensures At(b, p + 4, LE.Encode(k, 8)) && At(b, p + 12, LE.Encode(row.timestamp, 8))
    ensures At(b, p + 20, SubjectBytes(Topic(), row.payload, Provenance()))
    ensures At(b, p + 57 + |row.payload|, LinkBytes(row.previous, row.hash))
  {
    hide LE.Encode, SubjectBytes, LinkBytes, At, Topic, Provenance;
    var body := FieldsBytes(RowFields(k, row));
    AtConcat(b, p, LE.Encode(|body|, 4), body);
    var subject, links := SubjectBytes(Topic(), row.payload, Provenance()), LinkBytes(row.previous, row.hash);
    AtConcat(b, p + 4, LE.Encode(k, 8), LE.Encode(row.timestamp, 8) + (subject + links));
    AtConcat(b, p + 12, LE.Encode(row.timestamp, 8), subject + links);
    AtConcat(b, p + 20, subject, links);
  }

  lemma {:induction false} WireRowAt(sha: Sha256, b: Bytes, p: nat, k: nat, previous: Bytes, row: Row)
    requires At(b, p, WireRow(k, row)) && GoodRow(sha, k, previous, row) && |previous| <= 64
    ensures RecordAt(b, p, k, row)
  {
    hide LE.Encode, SubjectBytes, TextAt, LE.U32At, LE.U64At, RowHash, Topic, Provenance, WireRow, LinkBytes, Chars;
    WireParts(b, p, k, row);
    var n := 62 + |row.payload| + |row.previous| + |row.hash|;
    assert n < 0x1_0000_0000;
    LE.U32RoundTrip(n);
    LE.DecodeQuad(b, p);
    NumberAt(b, p + 4, k);
    NumberAt(b, p + 12, row.timestamp);
    SubjectAt(b, p + 20, row.payload);
    LinksAt(b, p + 57 + |row.payload|, row.previous, row.hash);
  }

  // ----- what is hashed -----

  /** A text with its length before it in eight bytes. */
  function Framed(text: Bytes): Bytes {
    LE.EightBytes(|text|) + text
  }

  /** The hash text of row `k`, spelled out: sequence, previous hash, topic, payload text, provenance and no token. */
  ghost predicate HashIs(sha: Sha256, k: nat, row: Row) {
    row.hash == HexEncode(sha(
      Framed(Decimal(k)) + Framed(row.previous) + Framed(Chars("code.record")) + Framed(row.payload)
      + Framed(Chars("simplicio-code")) + Framed([])))
  }

  lemma {:induction false} HashIsRowHash(sha: Sha256, k: nat, row: Row)
    ensures HashIs(sha, k, row) <==> row.hash == RowHash(sha, k, row.previous, row.payload)
  {
    hide LE.Encode, LE.EightBytes, HexEncode, Decimal, Topic, Provenance;
    ConstantsAre();
    LE.EncodeIsEightBytes(|Decimal(k)|);
    LE.EncodeIsEightBytes(|row.previous|);
    LE.EncodeIsEightBytes(|Topic()|);
    LE.EncodeIsEightBytes(|row.payload|);
    LE.EncodeIsEightBytes(|Provenance()|);
    LE.EncodeIsEightBytes(0);
    var a, c, d := Framed(Decimal(k)), Framed(row.previous), Framed(Topic());
    var e, f, g := Framed(row.payload), Framed(Provenance()), Framed([]);
    assert a + (c + (d + (e + (f + g)))) == a + c + d + e + f + g;
  }

  /**
   * Every accepted ledger starts with these eight bytes, and holds at each record
   * boundary the record of that row, linked to the row before it or to "genesis",
   * with the hash of exactly these fields.
   */
  lemma {:induction false} LedgerBytes(sha: Sha256, b: Bytes, rows: seq<Row>, k: nat)
    requires DecodeRows(sha, b) == Ok(rows) && k < |rows|
    ensures |b| >= 8 && b[..8] == Chars("HBP1") + [1, 0, 0, 0]
    ensures RecordAt(b, Boundary(rows, k), k, rows[k]) && HashIs(sha, k, rows[k])
    ensures rows[k].previous == if k == 0 then Chars("genesis") else rows[k - 1].hash
  {
    hide DecodeRows, Header, WireRow, RecordAt, HashIs, Boundary, RowHash, Genesis, Wire, Chain;
    ConstantsAre();
    DecodeAcceptsLedgers(sha, b, rows);
    LedgerAt(sha, b, rows, k);
    var previous := LastHash(rows[..k], Genesis());
    WireRowAt(sha, b, Boundary(rows, k), k, previous, rows[k]);
    HashIsRowHash(sha, k, rows[k]);
    PreviousIsFixed(sha, rows, 0, Genesis(), k);
  }

  // ----- which fault an error names -----

  lemma {:induction false} HeaderErrorMeans(b: Bytes)
    requires HeaderError(b).Some?
    ensures match HeaderError(b).value
            case TooLarge => |b| > 0x400_0000
            case Truncated(k) => k == 0 && |b| < 8
            case BadMagic => |b| >= 8 && b[..4] != Chars("HBP1")
            case UnsupportedVersion(v) =>
              |b| >= 8 && (if LE.U16At(b, 4) != 1 then v == LE.U16At(b, 4) else v == 0xFFFF && (b[6] != 0 || b[7] != 0))
            case _ => false
  {
    hide LE.U16At, LE.Decode;
    if |b| >= 8 {
      LE.DecodePair(b, 4);
    }
    assert MAGIC == Chars("HBP1");
  }

  /** What is wrong with record `k` at `cursor`, whose predecessor has the hash `previous`, once its body is read. */
  ghost predicate RecordFault(sha: Sha256, b: Bytes, cursor: nat, k: nat, previous: Bytes, f: Fields, e: Error) {
    match e
    case NonContiguousSequence(expected, actual) => expected == k && actual == f.sequence != k
    case BrokenChain(at) =>
      && at == k
      && (|| f.previous != previous || f.topic != Chars("code.record") || f.provenance != Chars("simplicio-code")
          || !HashIs(sha, k, Row(f.timestamp, f.payload, f.previous, f.hash)))
    case InvalidHex => |f.payload| % 2 != 0 || exists i | 0 <= i < |f.payload| :: !AnyHex(f.payload[i])
    case _ => false
  }

  lemma {:induction false} RecordErrorMeans(sha: Sha256, b: Bytes, cursor: nat, k: nat, previous: Bytes)
    requires cursor < |b| && DecodeRow(sha, b, cursor, k, previous).Err?
    ensures var e := DecodeRow(sha, b, cursor, k, previous).error;
            if |b| - cursor < 4 then e == Truncated(k)
            else
              var n := LE.U32At(b, cursor);
              if n == 0 || n > 0x100_0000 then e == InvalidLength
              else if cursor + 4 + n > |b| then e == Truncated(k)
              else match DecodeBody(b[cursor + 4..cursor + 4 + n])
                   case Err(inner) => e == inner
                   case Ok(f) => RecordFault(sha, b, cursor, k, previous, f, e)
  {
    hide LE.Decode, LE.U32At, DecodeBody, HexDecode, RowHash, Topic, Provenance, HashIs;
    ConstantsAre();
    if |b| - cursor >= 4 {
      LE.DecodeQuad(b, cursor);
      var n := LE.U32At(b, cursor);
      if 0 < n <= MAX_RECORD && cursor + 4 + n <= |b| && DecodeBody(b[cursor + 4..cursor + 4 + n]).Ok? {
        var f := DecodeBody(b[cursor + 4..cursor + 4 + n]).value;
        HexDecodeIff(f.payload);
        HashIsRowHash(sha, k, Row(f.timestamp, f.payload, f.previous, f.hash));
      }
    }
  }

  /** Why a text field cannot be read, by the error. */
  lemma {:induction false} TextErrorMeans(b: Bytes, cursor: nat)
    requires cursor <= |b| && TakeString(b, cursor).Err?
    ensures match TakeString(b, cursor).error
            case FieldTooLarge => cursor + 4 <= |b| && LE.U32At(b, cursor) > 0x40_0000
            case InvalidUtf8 =>
              && cursor + 4 <= |b| && cursor + 4 + LE.U32At(b, cursor) <= |b|
              && !ValidUtf8(b[cursor + 4..cursor + 4 + LE.U32At(b, cursor)])
            case Truncated(k) => k == 0 && (cursor + 4 > |b| || cursor + 4 + LE.U32At(b, cursor) > |b|)
            case _ => false
  {
    hide LE.Decode, LE.U32At, ValidUtf8;
    if cursor + 4 <= |b| {
      LE.DecodeQuad(b, cursor);
    }
  }

  /** Why the end of a body cannot be read, beyond its texts. */
  lemma {:induction false} LinksErrorMeans(b: Bytes, cursor: nat)
    requires cursor <= |b| && DecodeLinks(b, cursor).Err?
    ensures DecodeLinks(b, cursor).error.InvalidTokenMarker? <==> cursor < |b| && b[cursor] != 0
    ensures DecodeLinks(b, cursor).error.TrailingBytes? ==>
      && cursor < |b| && b[cursor] == 0 && TakeString(b, cursor + 1).Ok?
      && var next := TakeString(b, cursor + 1).value.1;
      TakeString(b, next).Ok? && TakeString(b, next).value.1 < |b|
  {
    hide LE.Decode, ValidUtf8, TakeString;
    if cursor < |b| {
      if TakeString(b, cursor + 1).Err? {
        TextErrorKinds(b, cursor + 1);
      } else if TakeString(b, TakeString(b, cursor + 1).value.1).Err? {
        TextErrorKinds(b, TakeString(b, cursor + 1).value.1);
      }
    }
  }

  lemma {:induction false} TextErrorKinds(b: Bytes, cursor: nat)
    requires cursor <= |b| && TakeString(b, cursor).Err?
    ensures !TakeString(b, cursor).error.InvalidTokenMarker? && !TakeString(b, cursor).error.TrailingBytes?
  {
    hide LE.Decode, ValidUtf8;
  }
}
