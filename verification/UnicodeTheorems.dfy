/** The UTF-8 length of a string is that of its encoding. */
module UnicodeTheorems {
  import opened Text
  import Unicode

  function Codes(s: string): seq<int> {
    seq(|s|, i requires 0 <= i < |s| => s[i] as int)
  }

  lemma {:induction false} Utf8LenIsEncoded(s: string)
    ensures Unicode.Utf8Len(s) == |EncodeScalars(Codes(s))|
    decreases |s|
  {
    if s != "" {
      Utf8LenIsEncoded(s[1..]);
      assert Codes(s)[0] == s[0] as int && Codes(s)[1..] == Codes(s[1..]);
    }
  }
}
