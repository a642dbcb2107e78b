/**
 * `std::io::Cursor<&[u8]>`: a read position into a fixed byte slice, and the
 * one `BufRead` operation the codecs use, `read_until`.
 */
module Cursors {
  import opened Bytes
  import opened Wrappers

  /** What a read leaves behind: its result and the cursor position after it. */
  datatype Step<+T, +E> = Step(result: Result<T, E>, pos: nat)

  /**
   * The bytes `read_until(c)` takes from position `pos`: everything up to and
   * including the first `c`, or everything that is left when there is none.
   */
  function ReadUntil(data: seq<u8>, pos: nat, c: u8): (chunk: seq<u8>)
    requires pos <= |data|
    ensures pos + |chunk| <= |data|
    ensures chunk == data[pos..pos + |chunk|]
    ensures pos < |data| ==> chunk != []
    ensures forall i :: 0 <= i < |chunk| - 1 ==> chunk[i] != c
    ensures (chunk == [] || chunk[|chunk| - 1] != c) ==> pos + |chunk| == |data|
    decreases |data| - pos
  {
    if pos == |data| then []
    else if data[pos] == c then [c]
    else [data[pos]] + ReadUntil(data, pos + 1, c)
  }

  /** `read_until` stops at the first `c`. */
  lemma {:induction false} ReadUntilAt(data: seq<u8>, pos: nat, k: nat, c: u8)
    requires pos <= k < |data| && data[k] == c && c !in data[pos..k]
    ensures ReadUntil(data, pos, c) == data[pos..k + 1]
    decreases k - pos
  {
    if pos < k {
      assert data[pos] == data[pos..k][0];
      assert data[pos + 1..k] == data[pos..k][1..];
      ReadUntilAt(data, pos + 1, k, c);
    }
  }

  class Cursor {
    const data: seq<u8>
    var pos: nat

    ghost predicate Valid()
      reads this
    {
      pos <= |data|
    }

    constructor (data: seq<u8>)
      ensures Valid() && this.data == data && pos == 0
    {
      this.data := data;
      pos := 0;
    }

    function Remaining(): (n: nat)
      reads this
      requires Valid()
      ensures pos + n == |data|
    {
      |data| - pos
    }

    method ReadUntilByte(c: u8) returns (chunk: seq<u8>)
      requires Valid()
      modifies this
      ensures Valid()
      ensures chunk == ReadUntil(data, old(pos), c) && pos == old(pos) + |chunk|
    {
      chunk := ReadUntil(data, pos, c);
      pos := pos + |chunk|;
    }
  }
}
