/** The character classes and the UTF-8 length that Rust's `str` methods use. */
module Unicode {

  function Utf8Len(s: string): (n: nat)
    ensures n >= |s|
  {
    if s == [] then 0 else CharLen(s[0]) + Utf8Len(s[1..])
  }

  function CharLen(c: char): (n: nat)
    ensures 1 <= n <= 4
  {
    var code := c as int;
    if code < 0x80 then 1 else if code < 0x800 then 2 else if code < 0x1_0000 then 3 else 4
  }

  /** `char::is_control`: the category Cc. */
  predicate Control(c: char) {
    var code := c as int;
    code < 0x20 || 0x7F <= code < 0xA0
  }

  /** A byte for which `u8::is_ascii_control` holds; no other byte of a character's encoding is one. */
  predicate AsciiControl(c: char) {
    var code := c as int;
    code < 0x20 || code == 0x7F
  }

  /** `char::is_whitespace`: the property White_Space. */
  predicate Whitespace(c: char) {
    var code := c as int;
    || 0x09 <= code <= 0x0D || code == 0x20 || code == 0x85 || code == 0xA0 || code == 0x1680
    || 0x2000 <= code <= 0x200A || code == 0x2028 || code == 0x2029 || code == 0x202F
    || code == 0x205F || code == 0x3000
  }

  /** `s.trim().is_empty()` */
  predicate Blank(s: string) {
    forall i :: 0 <= i < |s| ==> Whitespace(s[i])
  }
}
