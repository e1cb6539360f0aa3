/**
 Hex values as the storage adapter handles them. A `0x…` hex string of the
 source is modelled as the byte sequence it denotes, and viem's `size(hex)`
 is the length of that sequence.
 */
module Hex {

  type Byte = bv8
  type Hex = seq<Byte>

  /** `n` zero bytes. */
  function Zeros(n: nat): (r: Hex)
    ensures |r| == n
    ensures forall k :: 0 <= k < n ==> r[k] == 0
  {
    seq(n, _ => 0)
  }

  /**
   The bytes of `s` from `start` up to `end`, right-padded with zero bytes when
   `s` ends before `end` (the padding `readHex` applies to a bounded read).
   */
  function ReadHex(s: Hex, start: nat, end: nat): (r: Hex)
    requires start <= end
    ensures |r| == end - start
    ensures forall k :: 0 <= k < |r| ==> r[k] == if start + k < |s| then s[start + k] else 0
  {
    if end <= |s| then s[start..end]
    else if start <= |s| then s[start..] + Zeros(end - |s|)
    else Zeros(end - start)
  }

  /** The bytes of `s` from `start` to its end; empty when `start` is past the end. */
  function ReadHexFrom(s: Hex, start: nat): (r: Hex)
    ensures |r| == if start <= |s| then |s| - start else 0
    ensures forall k :: 0 <= k < |r| ==> r[k] == s[start + k]
  {
    if start <= |s| then s[start..] else []
  }

  /**
   `spliceHex(s, start, deleteCount, data)`: the prefix of `s` before `start`,
   then `data`, then what follows the `deleteCount` replaced bytes.
   */
  function Splice(s: Hex, start: nat, deleteCount: nat, data: Hex): (r: Hex)
    ensures start + deleteCount <= |s| ==> r == s[..start] + data + s[start + deleteCount..]
    ensures |r| == start + |data| + (if start + deleteCount <= |s| then |s| - start - deleteCount else 0)
    ensures r[..start] == ReadHex(s, 0, start) && r[start..start + |data|] == data
  {
    ReadHex(s, 0, start) + data + ReadHexFrom(s, start + deleteCount)
  }

  /** A splice inside the buffer changes its length by `|data| - deleteCount`. */
  lemma SpliceLength(s: Hex, start: nat, deleteCount: nat, data: Hex)
    requires start + deleteCount <= |s|
    ensures |Splice(s, start, deleteCount, data)| == |s| - deleteCount + |data|
  {
  }

  /** An overwrite (delete count equal to the replacement length) inside the buffer keeps its length. */
  lemma OverwriteKeepsLength(s: Hex, start: nat, data: Hex)
    requires start + |data| <= |s|
    ensures |Splice(s, start, |data|, data)| == |s|
  {
  }

  /** An overwrite inside the buffer leaves every byte outside the written range as it was. */
  lemma OverwriteFrame(s: Hex, start: nat, data: Hex, k: nat)
    requires start + |data| <= |s| && k < |s|
    ensures Splice(s, start, |data|, data)[k] == if start <= k < start + |data| then data[k - start] else s[k]
  {
    var r := Splice(s, start, |data|, data);
    if k < start {
      assert r[k] == r[..start][k];
    } else if k < start + |data| {
      assert r[k] == r[start..start + |data|][k - start];
    } else {
      assert r[k] == (s[..start] + data + s[start + |data|..])[k];
    }
  }

  /** Splicing into the empty buffer at offset zero yields the replacement itself. */
  lemma SpliceIntoEmpty(data: Hex, deleteCount: nat)
    ensures Splice([], 0, deleteCount, data) == data
  {
  }
}
