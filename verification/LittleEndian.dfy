/** Fixed-width little-endian integers, as `to_le_bytes` and `from_le_bytes`. */
module LittleEndian {
  import opened Prelude

  function Pow256(k: nat): (p: nat)
    ensures p > 0
  {
    if k == 0 then 1 else 256 * Pow256(k - 1)
  }

  /** The low `width` bytes of `n`: a larger `n` is truncated, as an `as` cast does. */
  function Encode(n: nat, width: nat): (bytes: Bytes)
    ensures |bytes| == width
  {
    if width == 0 then [] else [n % 256] + Encode(n / 256, width - 1)
  }

  function Decode(bytes: Bytes): (n: nat)
    ensures n < Pow256(|bytes|)
  {
    if bytes == [] then 0 else bytes[0] + 256 * Decode(bytes[1..])
  }

  lemma {:induction false} DecodeEncode(n: nat, width: nat)
    requires n < Pow256(width)
    ensures Decode(Encode(n, width)) == n
  {
    if width > 0 {
      assert Encode(n, width)[1..] == Encode(n / 256, width - 1);
      DecodeEncode(n / 256, width - 1);
    }
  }

  lemma {:induction false} EncodeDecode(bytes: Bytes)
    ensures Encode(Decode(bytes), |bytes|) == bytes
  {
    if bytes != [] {
      var n := Decode(bytes);
      EncodeDecode(bytes[1..]);
      assert n % 256 == bytes[0] && n / 256 == Decode(bytes[1..]);
    }
  }

  lemma {:induction false} Widths()
    ensures Pow256(2) == 0x1_0000
    ensures Pow256(4) == 0x1_0000_0000
    ensures Pow256(8) == U64_MAX + 1
  {
    assert Pow256(1) == 256;
    assert Pow256(2) == 256 * Pow256(1);
    assert Pow256(3) == 256 * Pow256(2);
    assert Pow256(4) == 256 * Pow256(3);
    assert Pow256(5) == 256 * Pow256(4);
    assert Pow256(6) == 256 * Pow256(5);
    assert Pow256(7) == 256 * Pow256(6);
  }

  lemma {:induction false} U32RoundTrip(n: nat)
    requires n < 0x1_0000_0000
    ensures Decode(Encode(n, 4)) == n
  {
    Widths();
    DecodeEncode(n, 4);
  }

  lemma {:induction false} U64RoundTrip(n: nat)
    requires n <= U64_MAX
    ensures Decode(Encode(n, 8)) == n
  {
    Widths();
    DecodeEncode(n, 8);
  }

  // ----- numbers at a place, by the weight of each byte -----

  function U16At(b: Bytes, p: nat): nat
    requires p + 2 <= |b|
  {
    b[p] as int + 0x100 * b[p + 1] as int
  }

  function U32At(b: Bytes, p: nat): nat
    requires p + 4 <= |b|
  {
    b[p] as int + 0x100 * b[p + 1] as int + 0x1_0000 * b[p + 2] as int + 0x100_0000 * b[p + 3] as int
  }

  function U64At(b: Bytes, p: nat): nat
    requires p + 8 <= |b|
  {
    U32At(b, p) + 0x1_0000_0000 * U32At(b, p + 4)
  }

  lemma {:induction false} DecodeStep(b: Bytes, p: nat, width: nat)
    requires p + width + 1 <= |b|
    ensures Decode(b[p..p + width + 1]) == b[p] + 256 * Decode(b[p + 1..p + 1 + width])
  {
    var s := b[p..p + width + 1];
    assert s[0] == b[p] && s[1..] == b[p + 1..p + 1 + width];
  }

  lemma {:induction false} DecodePair(b: Bytes, p: nat)
    requires p + 2 <= |b|
    ensures Decode(b[p..p + 2]) == U16At(b, p)
  {
    DecodeStep(b, p, 1);
    DecodeStep(b, p + 1, 0);
    assert b[p + 2..p + 2] == [];
  }

  lemma {:induction false} DecodeQuad(b: Bytes, p: nat)
    requires p + 4 <= |b|
    ensures Decode(b[p..p + 4]) == U32At(b, p)
  {
    DecodeStep(b, p, 3);
    DecodeStep(b, p + 1, 2);
    DecodePair(b, p + 2);
  }

  lemma {:induction false} DecodeOctet(b: Bytes, p: nat)
    requires p + 8 <= |b|
    ensures Decode(b[p..p + 8]) == U64At(b, p)
  {
    DecodeStep(b, p, 7);
    DecodeStep(b, p + 1, 6);
    DecodeStep(b, p + 2, 5);
    DecodeStep(b, p + 3, 4);
    DecodeQuad(b, p + 4);
  }

  /** The eight bytes of a number, lowest first. */
  function EightBytes(n: nat): Bytes {
    [n % 256, n / 256 % 256, n / 256 / 256 % 256, n / 256 / 256 / 256 % 256,
     n / 256 / 256 / 256 / 256 % 256, n / 256 / 256 / 256 / 256 / 256 % 256,
     n / 256 / 256 / 256 / 256 / 256 / 256 % 256, n / 256 / 256 / 256 / 256 / 256 / 256 / 256 % 256]
  }

  lemma {:induction false} EncodeIsEightBytes(n: nat)
    ensures Encode(n, 8) == EightBytes(n)
  {
    var a := n / 256 / 256 / 256 / 256;
    assert Encode(a, 4) == [a % 256] + Encode(a / 256, 3);
    assert Encode(a / 256, 3) == [a / 256 % 256] + Encode(a / 256 / 256, 2);
    assert Encode(a / 256 / 256, 2) == [a / 256 / 256 % 256] + Encode(a / 256 / 256 / 256, 1);
    assert Encode(a / 256 / 256 / 256, 1) == [a / 256 / 256 / 256 % 256] + [];
    assert Encode(n, 8) == [n % 256] + Encode(n / 256, 7);
    assert Encode(n / 256, 7) == [n / 256 % 256] + Encode(n / 256 / 256, 6);
    assert Encode(n / 256 / 256, 6) == [n / 256 / 256 % 256] + Encode(n / 256 / 256 / 256, 5);
    assert Encode(n / 256 / 256 / 256, 5) == [n / 256 / 256 / 256 % 256] + Encode(a, 4);
  }
}
