/**
 Bytes, chunks and frames. A chunk is what the writers put into one buffer; a frame is the
 chunk followed by the zeros that bring it to a length the DMA engine accepts.
 */
module Frames {
  newtype byte = x: int | 0 <= x < 256

  const BUF_SIZE: nat := 16384

  datatype Option<+T> = None | Some(value: T)

  /** The transfer length for `count` bytes, as the driver computes it by shifting. */
  function AlignedLength(count: nat): nat {
    var aligned := count / 64 * 64;
    if count != aligned && aligned < BUF_SIZE then aligned + 64 else aligned
  }

  function Zeros(n: nat): (z: seq<byte>)
    ensures |z| == n && forall i :: 0 <= i < n ==> z[i] == 0
  {
    seq(n, _ => 0)
  }

  ghost predicate IsChunk(c: seq<byte>) {
    0 < |c| <= 16384
  }

  /** The least zero padding that makes the length a multiple of 64, within the buffer. */
  lemma AlignedLeast(count: nat)
    requires count <= 16384
    ensures var a := AlignedLength(count);
            a % 64 == 0 && count <= a < count + 64 && a <= 16384
            && forall k: nat :: k % 64 == 0 && count <= k ==> a <= k
  {
  }

  function Padded(c: seq<byte>): (f: seq<byte>)
    requires |c| <= BUF_SIZE
    ensures |f| == AlignedLength(|c|) && f[..|c|] == c
  {
    AlignedLeast(|c|);
    c + Zeros(AlignedLength(|c|) - |c|)
  }

  function Flatten(ss: seq<seq<byte>>): seq<byte> {
    if ss == [] then [] else Flatten(ss[..|ss| - 1]) + ss[|ss| - 1]
  }

  lemma FlattenAppend(ss: seq<seq<byte>>, s: seq<byte>)
    ensures Flatten(ss + [s]) == Flatten(ss) + s
  {
  }

  lemma {:induction false} FlattenConcat(a: seq<seq<byte>>, b: seq<seq<byte>>)
    ensures Flatten(a + b) == Flatten(a) + Flatten(b)
  {
    if b == [] {
      assert a + b == a;
    } else {
      var b', s := b[..|b| - 1], b[|b| - 1];
      FlattenConcat(a, b');
      assert a + b == (a + b') + [s];
      FlattenAppend(a + b', s);
    }
  }
}
