/** Types shared by every module of the model. */
module Prelude {

  datatype Option<+T> = None | Some(value: T)

  datatype Result<+T, +E> = Ok(value: T) | Err(error: E) {
    predicate IsFailure() {
      Err?
    }

    function PropagateFailure<U>(): Result<U, E>
      requires Err?
    {
      Err(error)
    }

    function Extract(): T
      requires Ok?
    {
      value
    }
  }

  type byte = x: int | 0 <= x < 256
  type Bytes = seq<byte>

  /** The largest `u64`, and the largest `usize` of a 64-bit target. */
  const U64_MAX: nat := 0xFFFF_FFFF_FFFF_FFFF

  /** SHA-256 is only ever used as some function from bytes to 32 bytes. */
  type Digest = d: Bytes | |d| == 32 witness seq(32, _ => 0)
  type Sha256 = Bytes -> Digest

  /** The last `n` elements of `s`, or all of it when it is shorter. */
  function Suffix<T>(s: seq<T>, n: nat): (r: seq<T>)
    ensures |r| == if |s| <= n then |s| else n
    ensures forall i :: 0 <= i < |r| ==> r[i] == s[|s| - |r| + i]
  {
    if |s| <= n then s else s[|s| - n..]
  }

  /** A bounded window needs nothing but itself and the new elements. */
  lemma {:induction false} SuffixOfSuffix<T>(s: seq<T>, t: seq<T>, n: nat)
    ensures Suffix(Suffix(s, n) + t, n) == Suffix(s + t, n)
  {
    var left, right := Suffix(Suffix(s, n) + t, n), Suffix(s + t, n);
    assert |left| == |right|;
    forall i | 0 <= i < |left|
      ensures left[i] == right[i]
    {
    }
  }
}
