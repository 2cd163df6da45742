/**
 The two byte loops both drivers contain: copying from user space into a buffer, and padding a
 buffer with zeros to the transfer length.
 */
module TransferSetup {
  import opened Frames
  import opened DmaSections

  /** One call of dmaengine_submit: which buffer, how many bytes. */
  datatype Submission = Submission(buf: int, length: int)

  /** Buffer `s` with zeros in place of its bytes from `count` up to `k`. */
  function ZeroFilled(s: seq<byte>, count: nat, k: nat): seq<byte>
    requires count <= k <= |s|
  {
    s[..count] + Zeros(k - count) + s[k..]
  }

  lemma ZeroFilledStep(s: seq<byte>, count: nat, k: nat)
    requires count <= k < |s|
    ensures ZeroFilled(s, count, k)[k := 0] == ZeroFilled(s, count, k + 1)
  {
  }

  lemma ZeroFilledFrame(s: seq<byte>, count: nat, aligned: nat)
    requires count <= aligned == AlignedLength(count) <= BUF_SIZE == |s|
    ensures ZeroFilled(s, count, aligned) == Padded(s[..count]) + s[aligned..]
    ensures ZeroFilled(s, count, count) == s
  {
  }

  /** The buffer then starts with the frame of its first `count` bytes; the rest stays. */
  method PadBuffer(txBuf: array<byte>, count: nat) returns (alignedCount: nat)
    requires txBuf.Length == BUF_SIZE && count <= BUF_SIZE
    modifies txBuf
    ensures alignedCount == AlignedLength(count) <= BUF_SIZE
    ensures txBuf[..] == Padded(old(txBuf[..count])) + old(txBuf[alignedCount..])
  {
    ghost var was := txBuf[..];
    AlignedLeast(count);
    alignedCount := count / 64 * 64;
    if count != alignedCount && alignedCount < BUF_SIZE {
      alignedCount := alignedCount + 64;
      var k := count;
      while k < alignedCount
        invariant count <= k <= alignedCount <= BUF_SIZE
        invariant txBuf[..] == ZeroFilled(was, count, k)
      {
        ghost var before := txBuf[..];
        txBuf[k] := 0;
        assert txBuf[..] == before[k := 0];
        ZeroFilledStep(was, count, k);
        k := k + 1;
      }
    }
    ZeroFilledFrame(was, count, alignedCount);
    assert was[..count] == old(txBuf[..count]) && was[alignedCount..] == old(txBuf[alignedCount..]);
  }

  lemma CopiedStep(s: seq<byte>, at: nat, user: seq<byte>, i: nat)
    requires i < |user| && at + i < |s|
    ensures (s[..at] + user[..i] + s[at + i..])[at + i := user[i]] == s[..at] + user[..i + 1] + s[at + i + 1..]
  {
  }

  /**
   copy_from_user: `copied` bytes arrive; fewer than `n` is a fault, and then the rest of the `n`
   bytes is cleared.
   */
  method CopyFromUser(b: array<byte>, at: nat, user: seq<byte>, n: nat, copied: nat) returns (fault: bool)
    requires n <= |user| && at + n <= b.Length
    modifies b
    ensures fault <==> copied < n
    ensures b[..] == old(b[..at]) + Arrived(user, n, copied) + old(b[at + n..])
  {
    ghost var was := b[..];
    ghost var bytes := Arrived(user, n, copied);
    var i := 0;
    while i < n
      invariant 0 <= i <= n
      invariant b[..] == was[..at] + bytes[..i] + was[at + i..]
    {
      ghost var before := b[..];
      b[at + i] := if i < copied then user[i] else 0;
      assert b[..] == before[at + i := bytes[i]];
      CopiedStep(was, at, bytes, i);
      i := i + 1;
    }
    fault := copied < n;
    assert was[..at] == old(b[..at]) && was[at + n..] == old(b[at + n..]) && bytes[..n] == bytes;
  }
}
