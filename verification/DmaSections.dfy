/**
 What each locked section of the built driver does to the device data: the specification the
 device class is proved against and the steps of the protocol are made of.
 */
module DmaSections {
  import opened Frames

  const EAGAIN := 11
  const ENOMEM := 12
  const EFAULT := 14
  const EINVAL := 22

  /** The driver's device data; `active` is DMA_active_buffer, `fill` is Fill_buffer. */
  datatype Dev = Dev(buffers: seq<seq<byte>>, pos: int, nextBuffCount: int, active: int, fill: int)

  /** A buffer the caller has claimed and must hand to the DMA engine. */
  datatype Claim = Claim(buf: int, count: int)

  /** The other buffer: one up, wrapping at two. */
  function NextBuffer(b: int): int {
    if b + 1 > 1 then 0 else b + 1
  }

  predicate CanWrite(d: Dev) {
    d.fill != d.active
  }

  /** How many of `count` bytes still fit. */
  function WriteCount(pos: int, count: int): (n: int)
    ensures n <= count
  {
    if pos + count > BUF_SIZE then BUF_SIZE - pos else count
  }

  /** One byte stored into a buffer; a store out of bounds does not happen (see `StoresInBounds`). */
  function Store(buffers: seq<seq<byte>>, b: int, i: int, x: byte): (r: seq<seq<byte>>)
    ensures |r| == |buffers| && forall k :: 0 <= k < |r| ==> |r[k]| == |buffers[k]|
  {
    if 0 <= b < |buffers| && 0 <= i < |buffers[b]| then buffers[b := buffers[b][i := x]] else buffers
  }

  /** dma_write after a complete copy of `n` bytes: advance, and close the buffer if it is full. */
  function CommitWrite(d: Dev, buf: int, n: int): (Dev, Option<Claim>) {
    if d.pos + n >= BUF_SIZE then
      var idle := d.active == -1;
      (d.(active := if idle then buf else d.active, nextBuffCount := BUF_SIZE,
          fill := NextBuffer(d.fill), pos := 0),
       if idle then Some(Claim(buf, BUF_SIZE)) else None)
    else
      (d.(pos := d.pos + n), None)
  }

  /** write_dma_store: close the partly filled buffer. The third component is the return value. */
  function CommitFlush(d: Dev): (Dev, Option<Claim>, int) {
    if d.pos == 0 then (d, None, -EINVAL)
    else if d.fill == d.active then (d, None, -EAGAIN)
    else
      var idle := d.active == -1;
      (d.(active := if idle then d.fill else d.active, nextBuffCount := d.pos,
          fill := NextBuffer(d.fill), pos := 0),
       if idle then Some(Claim(d.fill, d.pos)) else None, d.pos)
  }

  /** tx_transfer_complete after a good completion: take the waiting buffer or go idle. */
  function Complete(d: Dev): (Dev, Option<Claim>) {
    if d.fill == d.active then
      var next := NextBuffer(d.active);
      (d.(active := next), Some(Claim(next, d.nextBuffCount)))
    else
      (d.(active := -1), None)
  }

  function InitialDev(b0: seq<byte>, b1: seq<byte>): Dev {
    Dev([b0, b1], 0, 0, -1, 0)
  }

  // ---------------------------------------------------------------- the byte loops

  /** The copy loop: `bytes` stored from index `i` of buffer `b`, first byte first. */
  function StoreBytes(buffers: seq<seq<byte>>, b: int, i: int, bytes: seq<byte>): (r: seq<seq<byte>>)
    ensures |r| == |buffers| && forall k :: 0 <= k < |r| ==> |r[k]| == |buffers[k]|
  {
    if bytes == [] then buffers
    else
      var k := |bytes| - 1;
      Store(StoreBytes(buffers, b, i, bytes[..k]), b, i + k, bytes[k])
  }

  lemma {:induction false} StoredBytes(buffers: seq<seq<byte>>, b: int, i: int, bytes: seq<byte>)
    requires 0 <= b < |buffers| && 0 <= i && i + |bytes| <= |buffers[b]|
    ensures StoreBytes(buffers, b, i, bytes)
            == buffers[b := buffers[b][..i] + bytes + buffers[b][i + |bytes|..]]
  {
    if bytes == [] {
      assert buffers[b] == buffers[b][..i] + [] + buffers[b][i..];
    } else {
      var k := |bytes| - 1;
      StoredBytes(buffers, b, i, bytes[..k]);
      var s := buffers[b];
      assert (s[..i] + bytes[..k] + s[i + k..])[i + k := bytes[k]] == s[..i] + bytes + s[i + k + 1..];
    }
  }

  lemma {:induction false} StoreConcat(buffers: seq<seq<byte>>, b: int, i: int, x: seq<byte>, y: seq<byte>)
    ensures StoreBytes(StoreBytes(buffers, b, i, x), b, i + |x|, y) == StoreBytes(buffers, b, i, x + y)
  {
    if y == [] {
      assert x + y == x;
    } else {
      var y' := y[..|y| - 1];
      StoreConcat(buffers, b, i, x, y');
      assert (x + y)[..|x + y| - 1] == x + y';
    }
  }

  /** Stores stay in their own buffer and at or above their first index. */
  lemma {:induction false} StoredElsewhere(buffers: seq<seq<byte>>, b: int, i: int, bytes: seq<byte>, pos: int)
    requires |buffers| == 2 && b in {0, 1} && 0 <= pos <= i && i + |bytes| <= |buffers[b]|
    ensures var r := StoreBytes(buffers, b, i, bytes);
            r[1 - b] == buffers[1 - b] && r[b][..pos] == buffers[b][..pos]
  {
    if bytes != [] {
      StoredElsewhere(buffers, b, i, bytes[..|bytes| - 1], pos);
    }
  }

  /** What `n` bytes of a buffer hold after a copy of which `copied` bytes arrive. */
  function Arrived(user: seq<byte>, n: nat, copied: nat): (bytes: seq<byte>)
    requires n <= |user|
    ensures |bytes| == n
  {
    if copied < n then user[..copied] + Zeros(n - copied) else user[..n]
  }

  /** The open buffer after copy_from_user: a faulting one clears the bytes that did not arrive. */
  function CopiedIn(buffers: seq<seq<byte>>, b: int, pos: int, user: seq<byte>, n: nat, copied: nat): seq<seq<byte>>
    requires n <= |user|
  {
    StoreBytes(buffers, b, pos, Arrived(user, n, copied))
  }

  /** Copying the bytes that arrive and then clearing the others is what a faulting copy leaves. */
  lemma FaultedCopy(buffers: seq<seq<byte>>, b: int, pos: int, user: seq<byte>, n: nat, copied: nat)
    requires copied < n <= |user|
    ensures StoreBytes(StoreBytes(buffers, b, pos, user[..copied]), b, pos + copied, Zeros(n - copied))
            == CopiedIn(buffers, b, pos, user, n, copied)
  {
    StoreConcat(buffers, b, pos, user[..copied], Zeros(n - copied));
  }

  /** dma_write as one uninterrupted call: `copied` bytes arrive before the copy faults, if it does. */
  function WriteCall(d: Dev, user: seq<byte>, copied: nat): (Dev, Option<Claim>, int) {
    if !CanWrite(d) then (d, None, 0)
    else
      var n := WriteCount(d.pos, |user|);
      if n <= 0 then (d, None, -ENOMEM)
      else
        var d' := d.(buffers := CopiedIn(d.buffers, d.fill, d.pos, user, n, copied));
        if copied < n then (d', None, -EFAULT)
        else
          var (d2, claim) := CommitWrite(d', d.fill, n);
          (d2, claim, n)
  }

  /** What a write takes: nothing while both buffers are closed, else what fits into 16384 bytes. */
  function Taken(busy: bool, pos: int, user: seq<byte>, copied: nat): int {
    if busy then 0
    else if user == [] then -12
    else
      var fits := if |user| <= 16384 - pos then |user| else 16384 - pos;
      if copied < fits then -14 else fits
  }

  /** In numbers: the result, and when the buffer is closed and claimed. */
  lemma WriteResult(d: Dev, user: seq<byte>, copied: nat)
    requires 0 <= d.pos < 16384 && d.fill in {0, 1}
    ensures var (d', claim, ret) := WriteCall(d, user, copied);
            && ret == Taken(d.fill == d.active, d.pos, user, copied)
            && (ret > 0 ==>
                  (d'.pos, d'.fill) == if d.pos + ret == 16384 then (0, 1 - d.fill) else (d.pos + ret, d.fill))
            && claim == (if ret > 0 && d.pos + ret == 16384 && d.active == -1 then Some(Claim(d.fill, 16384)) else None)
  {
  }

  /** A flush in numbers. */
  lemma FlushResult(d: Dev)
    requires d.pos >= 0 && d.fill in {0, 1}
    ensures var (d', claim, ret) := CommitFlush(d);
            && ret == (if d.pos == 0 then -22 else if d.fill == d.active then -11 else d.pos)
            && (ret < 0 ==> d' == d)
            && (ret > 0 ==> (d'.pos, d'.fill) == (0, 1 - d.fill))
            && claim == (if ret > 0 && d.active == -1 then Some(Claim(d.fill, d.pos)) else None)
  {
  }
}
