/** What the Python codec reads as hexadecimal, and which fault each of its errors names. */
module HbpPythonErrors {
  import opened Prelude
  import opened Text
  import opened HbpFormat
  import opened HbpPython
  import opened HbpBytes
  import LE = LittleEndian

  // ----- hexadecimal with whitespace -----

  /** One ASCII whitespace character, or one pair of digits. */
  predicate Piece(p: Bytes) {
    || (|p| == 1 && p[0] in {9, 10, 11, 12, 13, 32})
    || (|p| == 2 && AnyHex(p[0]) && AnyHex(p[1]))
  }

  function Joined(pieces: seq<Bytes>): Bytes {
    if pieces == [] then [] else pieces[0] + Joined(pieces[1..])
  }

  /** The pairs among the pieces, joined. */
  function Pairs(pieces: seq<Bytes>): Bytes {
    if pieces == [] then [] else (if |pieces[0]| == 2 then pieces[0] else []) + Pairs(pieces[1..])
  }

  predicate Pieces(pieces: seq<Bytes>) {
    forall p | p in pieces :: Piece(p)
  }

  lemma {:induction false} PiecesCons(first: Bytes, rest: seq<Bytes>)
    ensures Pieces([first] + rest) <==> Piece(first) && Pieces(rest)
    ensures Joined([first] + rest) == first + Joined(rest)
    ensures Pairs([first] + rest) == (if |first| == 2 then first else []) + Pairs(rest)
  {
    hide Piece;
    var all := [first] + rest;
    assert all[0] == first && all[1..] == rest;
    assert Pieces(all) ==> first in all && forall p | p in rest :: p in all;
  }

  lemma {:induction false} PairValue(a: byte, b: byte, rest: Bytes)
    ensures AnyHex(a) <==> HexValue(a).Some?
    ensures HexValue(a).Some? && HexValue(b).Some? ==>
      HexDecode([a, b] + rest) == match HexDecode(rest)
                                  case None => None
                                  case Some(more) => Some([HexValue(a).value * 16 + HexValue(b).value] + more)
  {
    assert ([a, b] + rest)[2..] == rest;
  }

  /** What is read as hexadecimal consists of such pieces, and means what its pairs mean. */
  lemma {:induction false} FromHexPieces(text: Bytes) returns (pieces: seq<Bytes>)
    requires FromHex(text).Some?
    ensures Pieces(pieces) && Joined(pieces) == text && FromHex(text) == HexDecode(Pairs(pieces))
    decreases |text|
  {
    if text == [] {
      pieces := [];
      HexOfNothing();
    } else {
      var n := if Whitespace(text[0]) then 1 else 2;
      var rest := FromHexPieces(text[n..]);
      hide HexDecode, HexValue, FromHex;
      var first := text[..n];
      pieces := [first] + rest;
      PiecesCons(first, rest);
      assert first + text[n..] == text;
      if n == 1 {
        assert Piece(first) && FromHex(text) == FromHex(text[1..]) by {
          FromHexStep(text);
        }
        assert [] + Pairs(rest) == Pairs(rest);
      } else {
        FromHexStep(text);
        PairValue(text[0], text[1], Pairs(rest));
        PairValue(text[1], text[0], Pairs(rest));
        assert first == [text[0], text[1]];
      }
    }
  }

  lemma {:induction false} FromHexStep(text: Bytes)
    requires text != []
    ensures Whitespace(text[0]) <==> text[0] in {9, 10, 11, 12, 13, 32}
    ensures Whitespace(text[0]) ==> FromHex(text) == FromHex(text[1..])
    ensures !Whitespace(text[0]) && FromHex(text).Some? ==>
      && |text| >= 2 && HexValue(text[0]).Some? && HexValue(text[1]).Some? && FromHex(text[2..]).Some?
      && FromHex(text).value == [HexValue(text[0]).value * 16 + HexValue(text[1]).value] + FromHex(text[2..]).value
  {
    hide HexValue;
  }

  /** And all that consists of such pieces is read. */
  lemma {:induction false} PiecesAreRead(pieces: seq<Bytes>)
    requires Pieces(pieces)
    ensures FromHex(Joined(pieces)).Some?
    decreases |pieces|
  {
    if pieces != [] {
      var first, rest := pieces[0], pieces[1..];
      assert pieces == [first] + rest;
      PiecesCons(first, rest);
      PiecesAreRead(rest);
      var text := first + Joined(rest);
      assert text[|first|..] == Joined(rest);
      PieceIsRead(first, Joined(rest));
    }
  }

  lemma {:induction false} PieceIsRead(first: Bytes, rest: Bytes)
    requires Piece(first) && FromHex(rest).Some?
    ensures FromHex(first + rest).Some?
  {
    var text := first + rest;
    assert text[|first|..] == rest && text[0] == first[0];
    if |first| == 2 {
      assert text[1] == first[1];
      PairValue(first[0], first[1], rest);
      PairValue(first[1], first[0], rest);
    }
  }

  /** Exactly the texts made of digit pairs with whitespace around them are read. */
  lemma {:induction false} FromHexIff(text: Bytes)
    ensures FromHex(text).Some? <==> exists pieces | Pieces(pieces) :: Joined(pieces) == text
  {
    hide FromHex, Pieces, Joined;
    if FromHex(text).Some? {
      var pieces := FromHexPieces(text);
      assert Joined(pieces) == text;
    }
    forall pieces: seq<Bytes> | Pieces(pieces) && Joined(pieces) == text
      ensures FromHex(text).Some?
    {
      PiecesAreRead(pieces);
    }
  }

  // ----- the errors -----

  /** The writer refuses more than 100,000 payloads, and else only a payload whose text passes the field limit. */
  lemma {:induction false} WriterErrorMeans(sha: Sha256, payloads: seq<Bytes>)
    ensures EncodePy(sha, payloads) == Err(LedgerRecordLimit) <==> |payloads| > 100_000
    ensures EncodePy(sha, payloads).Err? && |payloads| <= 100_000 ==>
      EncodePy(sha, payloads).error == FieldLimit && exists p | p in payloads :: 2 * |p| > 0x40_0000
  {
    hide EncodePyFrom, Header, Genesis;
    assert |Genesis()| <= 64 by {
      ConstantsAre();
    }
    WriterErrorFrom(sha, payloads, 0, Genesis(), Header());
  }

  lemma {:induction false} WriterErrorFrom(sha: Sha256, payloads: seq<Bytes>, i: nat, previous: Bytes, output: Bytes)
    requires i <= |payloads| && |previous| <= 64
    ensures EncodePyFrom(sha, payloads, i, previous, output).Err? ==>
      EncodePyFrom(sha, payloads, i, previous, output).error == FieldLimit && exists p | p in payloads :: 2 * |p| > 0x40_0000
    decreases |payloads| - i
  {
    hide EncodePyRecord;
    if i < |payloads| {
      RecordIsWritten(sha, i, previous, payloads[i]);
      var step := EncodePyRecord(sha, i, previous, payloads[i]);
      assert payloads[i] in payloads;
      if step.Ok? {
        WriterErrorFrom(sha, payloads, i + 1, step.value.1, output + step.value.0);
      }
    }
  }

  lemma {:induction false} RecordIsWritten(sha: Sha256, sequence: nat, previous: Bytes, payload: Bytes)
    requires |previous| <= 64
    ensures EncodePyRecord(sha, sequence, previous, payload).Err? ==>
      EncodePyRecord(sha, sequence, previous, payload).error == FieldLimit && 2 * |payload| > 0x40_0000
    ensures EncodePyRecord(sha, sequence, previous, payload).Ok? ==> |EncodePyRecord(sha, sequence, previous, payload).value.1| <= 64
  {
    hide HexEncode, Topic, Provenance, LE.Encode;
    ConstantsAre();
  }

  /** Why a field cannot be read. */
  ghost predicate FieldFault(body: Bytes, cursor: nat, e: PyError) {
    match e
    case TruncatedField => cursor + 4 > |body|
    case InvalidFieldLength =>
      cursor + 4 <= |body| && (LE.U32At(body, cursor) > 0x40_0000 || cursor + 4 + LE.U32At(body, cursor) > |body|)
    case InvalidUtf8Field =>
      && cursor + 4 <= |body| && cursor + 4 + LE.U32At(body, cursor) <= |body|
      && !ValidUtf8(body[cursor + 4..cursor + 4 + LE.U32At(body, cursor)])
    case _ => false
  }

  lemma {:induction false} FieldErrorMeans(body: Bytes, cursor: nat)
    requires TakeField(body, cursor).Err?
    ensures FieldFault(body, cursor, TakeField(body, cursor).error)
  {
    hide LE.Decode, LE.U32At, ValidUtf8;
    if cursor + 4 <= |body| {
      LE.DecodeQuad(body, cursor);
    }
  }

  /** Why a body cannot be read: at some place a field is at fault, the marker is not zero, or bytes are left over. */
  lemma {:induction false} BodyErrorMeans(body: Bytes) returns (at: nat)
    requires |body| >= 16 && PyBody(body).Err?
    ensures var e := PyBody(body).error;
            || FieldFault(body, at, e)
            || (e == InvalidMarker && (at >= |body| || body[at] != 0))
            || (e == UnsupportedDomain && at < |body|)
    ensures at >= 16
  {
    hide TakeField, FieldFault, LE.Decode;
    at := 16;
    var first := TakeField(body, 16);
    if first.Err? {
      FieldErrorMeans(body, 16);
      return;
    }
    at := first.value.1;
    var second := TakeField(body, at);
    if second.Err? {
      FieldErrorMeans(body, at);
      return;
    }
    at := second.value.1;
    var third := TakeField(body, at);
    if third.Err? {
      FieldErrorMeans(body, at);
      return;
    }
    at := third.value.1;
    if at < |body| && body[at] == 0 {
      at := at + 1;
      var fourth := TakeField(body, at);
      if fourth.Err? {
        FieldErrorMeans(body, at);
        return;
      }
      at := fourth.value.1;
      var fifth := TakeField(body, at);
      if fifth.Err? {
        FieldErrorMeans(body, at);
        return;
      }
      at := fifth.value.1;
    }
  }

  /** What is wrong with record `count` at `offset`, once its body is read. */
  ghost predicate RowFault(sha: Sha256, count: nat, previous: Bytes, f: Fields, e: PyError) {
    match e
    case UnsupportedDomain => f.topic != Chars("code.record") || f.provenance != Chars("simplicio-code")
    case InvalidPayload => FromHex(f.payload).None?
    case HashMismatch => f.previous != previous || !HashIs(sha, count, Row(f.timestamp, f.payload, f.previous, f.hash))
    case _ => false
  }

  lemma {:induction false} RowErrorMeans(sha: Sha256, data: Bytes, offset: nat, count: nat, previous: Bytes)
    requires offset < |data| && DecodePyRow(sha, data, offset, count, previous).Err?
    ensures var e := DecodePyRow(sha, data, offset, count, previous).error;
            if count >= 100_000 || offset + 4 > |data| then e == InvalidCount
            else
              var n := LE.U32At(data, offset);
              if n < 16 || n > 0x100_0000 || offset + 4 + n > |data| then e == InvalidRecordLength
              else if LE.U64At(data, offset + 4) != count then e == NonContiguous
              else match PyBody(data[offset + 4..offset + 4 + n])
                   case Err(inner) => e == inner
                   case Ok(f) => RowFault(sha, count, previous, f, e)
  {
    hide LE.Decode, LE.U32At, LE.U64At, PyBody, FromHex, ContentHash, Topic, Provenance, HashIs;
    ConstantsAre();
    if offset + 4 <= |data| {
      LE.DecodeQuad(data, offset);
      var n := LE.U32At(data, offset);
      if 16 <= n && offset + 4 + n <= |data| {
        var body := data[offset + 4..offset + 4 + n];
        assert body[0..8] == data[offset + 4..offset + 12];
        LE.DecodeOctet(data, offset + 4);
        if PyBody(body).Ok? {
          var f := PyBody(body).value;
          ContentHashIsRowHash(sha, count, f.previous, f.payload);
          HashIsRowHash(sha, count, Row(f.timestamp, f.payload, f.previous, f.hash));
        }
      }
    }
  }

  /** A ledger that is too large or does not start with these eight bytes is refused for its header. */
  lemma {:induction false} HeaderIsRefused(sha: Sha256, data: Bytes)
    requires |data| > 0x400_0000 || !(Chars("HBP1") + [1, 0, 0, 0] <= data)
    ensures DecodePy(sha, data) == Err(InvalidHeader)
  {
    ConstantsAre();
  }
}
