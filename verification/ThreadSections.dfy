/**
 The kernel-thread design of the driver: what each of its locked sections does to the device
 data. A worker thread consumes an event counter and starts the transfers.
 */
module ThreadSections {
  import opened Frames
  import D = DmaSections

  const THREAD_STOP := 1000
  const SET_THREAD_STOP := 1001

  /** `waiting` is buffer_waiting_DMA, `counts` buff_count_to_DMA, `nextUp` next_buff_up. */
  datatype Dev = Dev(buffers: seq<seq<byte>>, pos: int, counts: seq<int>, waiting: seq<bool>,
                     nextUp: int, fill: int, running: bool, finished: bool)

  /** Array accesses; an index out of range does not happen (see `ThreadInvariant.ShapeOk`). */
  predicate IsSet(s: seq<bool>, i: int) {
    0 <= i < |s| && s[i]
  }

  function Put<T>(s: seq<T>, i: int, x: T): (r: seq<T>)
    ensures |r| == |s|
  {
    if 0 <= i < |s| then s[i := x] else s
  }

  predicate CanWrite(d: Dev) {
    !IsSet(d.waiting, d.fill)
  }

  /** dma_write after a complete copy: a full buffer is marked waiting; the flag says to raise an event. */
  function CommitWrite(d: Dev, buf: int, n: int): (Dev, bool) {
    if d.pos + n >= BUF_SIZE then
      (d.(waiting := Put(d.waiting, buf, true), counts := Put(d.counts, buf, BUF_SIZE),
          fill := D.NextBuffer(d.fill), pos := 0), true)
    else
      (d.(pos := d.pos + n), false)
  }

  /** dma_write as one uninterrupted call, with the same faults as in the built driver. */
  function WriteCall(d: Dev, user: seq<byte>, copied: nat): (Dev, bool, int) {
    if !CanWrite(d) then (d, false, 0)
    else
      var n := D.WriteCount(d.pos, |user|);
      if n <= 0 then (d, false, -D.ENOMEM)
      else
        var d' := d.(buffers := D.CopiedIn(d.buffers, d.fill, d.pos, user, n, copied));
        if copied < n then (d', false, -D.EFAULT)
        else
          var (d2, full) := CommitWrite(d', d.fill, n);
          (d2, full, n)
  }

  /** In numbers: the result, and when the buffer is full and an event is due. */
  lemma WriteResult(d: Dev, user: seq<byte>, copied: nat)
    requires 0 <= d.pos < 16384 && d.fill in {0, 1}
    ensures var (d', full, ret) := WriteCall(d, user, copied);
            && ret == D.Taken(IsSet(d.waiting, d.fill), d.pos, user, copied)
            && (ret > 0 ==>
                  (d'.pos, d'.fill) == if d.pos + ret == 16384 then (0, 1 - d.fill) else (d.pos + ret, d.fill))
            && (full <==> ret > 0 && d.pos + ret == 16384)
  {
  }

  /** tx_transfer_complete's locked section. */
  function Complete(d: Dev): Dev {
    d.(running := false, finished := true)
  }

  /** The worker's first section: read both flags, clear `finished`. */
  function Sample(d: Dev): (Dev, bool, bool) {
    (d.(finished := false), d.running, d.finished)
  }

  /** The worker under the mutex: free a finished buffer, then start the next one if it waits. */
  function Decide(d: Dev, busy: bool, finished: bool): (Dev, Option<int>) {
    var d1 := if finished then d.(waiting := Put(d.waiting, d.nextUp, false), nextUp := D.NextBuffer(d.nextUp)) else d;
    if !busy && IsSet(d1.waiting, d1.nextUp) then (d1.(running := true), Some(d1.nextUp)) else (d1, None)
  }

  function InitialDev(b0: seq<byte>, b1: seq<byte>): Dev {
    Dev([b0, b1], 0, [0, 0], [false, false], 0, 0, false, false)
  }
}
