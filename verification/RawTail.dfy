/** The bounded tail of raw output that a timed-out wait reports. */
module RawTail {
  import opened Prelude

  const CAPACITY: nat := 2048

  class Tail {
    var bytes: Bytes

    constructor ()
      ensures bytes == []
    {
      bytes := [];
    }

    /** `push_raw_tail`: evict from the front until the new bytes fit, then append them. */
    method Push(chunk: Bytes)
      modifies this
      ensures bytes == Suffix(old(bytes) + chunk, 2048)
    {
      ghost var all := bytes + chunk;
      if |chunk| >= CAPACITY {
        bytes := [];
        bytes := bytes + chunk[|chunk| - CAPACITY..];
        assert bytes == Suffix(all, CAPACITY);
        return;
      }
      while |bytes| + |chunk| > CAPACITY
        invariant |bytes| <= |old(bytes)| && bytes == old(bytes)[|old(bytes)| - |bytes|..]
        invariant |bytes| + |chunk| >= CAPACITY || bytes == old(bytes)
        decreases |bytes|
      {
        bytes := bytes[1..];
      }
      bytes := bytes + chunk;
      assert bytes == Suffix(all, CAPACITY);
    }
  }

  function Joined(chunks: seq<Bytes>): Bytes {
    if chunks == [] then [] else chunks[0] + Joined(chunks[1..])
  }

  /** What the tail holds after the chunks are pushed one after another. */
  function AfterAll(tail: Bytes, chunks: seq<Bytes>): Bytes
    decreases |chunks|
  {
    if chunks == [] then tail else AfterAll(Suffix(tail + chunks[0], CAPACITY), chunks[1..])
  }

  /** However the output is cut into chunks, the tail is its last 2048 bytes. */
  lemma {:induction false} TailIsSuffixOfOutput(before: Bytes, chunks: seq<Bytes>)
    ensures AfterAll(Suffix(before, 2048), chunks) == Suffix(before + Joined(chunks), 2048)
    decreases |chunks|
  {
    if chunks == [] {
      assert before + [] == before;
    } else {
      SuffixOfSuffix(before, chunks[0], CAPACITY);
      TailIsSuffixOfOutput(before + chunks[0], chunks[1..]);
      assert before + chunks[0] + Joined(chunks[1..]) == before + (chunks[0] + Joined(chunks[1..]));
    }
  }
}
