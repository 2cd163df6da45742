/**
 The kernel-thread design's functions over its device structure, with calls run uninterrupted.
 */
module ThreadDevice {
  import opened Frames
  import D = DmaSections
  import opened TransferSetup
  import opened ThreadSections
  import I = ThreadInvariant

  /** The sequential part of the protocol's invariant. */
  predicate DevOk(d: Dev) {
    && I.ShapeOk(d) && I.SlotsOk(d)
    && (forall i :: 0 <= i < 2 && d.waiting[i] ==> d.counts[i] == BUF_SIZE)
    && (d.finished || d.running ==> d.waiting[d.nextUp])
  }

  lemma CommitOk(d: Dev, n: nat)
    requires DevOk(d) && CanWrite(d) && d.pos + n <= BUF_SIZE
    ensures DevOk(CommitWrite(d, d.fill, n).0)
  {
  }

  lemma DecideOk(d: Dev)
    requires DevOk(d)
    ensures var (d1, busy, finished) := Sample(d);
            var (d', start) := Decide(d1, busy, finished);
            DevOk(d') && (start.Some? ==> start.value in {0, 1} && d'.counts[start.value] == BUF_SIZE)
            && (!busy ==> !I.Work(d')) && (busy ==> d' == d)
  {
  }

  class Device {
    const buffer0: array<byte>
    const buffer1: array<byte>
    var pos: int
    var buffCountToDma: seq<int>
    var bufferWaitingDma: seq<bool>
    var nextBuffUp: int
    var fillBuffer: int
    var dmaRunning: bool
    var dmaFinished: bool
    var waitFlag: int
    var submitted: seq<Submission>

    ghost function Model(): Dev
      reads this, buffer0, buffer1
    {
      Dev([buffer0[..], buffer1[..]], pos, buffCountToDma, bufferWaitingDma, nextBuffUp, fillBuffer,
          dmaRunning, dmaFinished)
    }

    ghost predicate Valid()
      reads this, buffer0, buffer1
    {
      buffer0 != buffer1 && DevOk(Model())
    }

    /** The state after probe. */
    constructor ()
      ensures Valid() && waitFlag == 0 && submitted == []
      ensures fillBuffer == 0 && nextBuffUp == 0 && pos == 0 && !dmaRunning && !dmaFinished
      ensures buffCountToDma == [0, 0] && bufferWaitingDma == [false, false]
      ensures Model() == InitialDev(buffer0[..], buffer1[..])
      ensures fresh(buffer0) && fresh(buffer1)
    {
      buffer0 := new byte[BUF_SIZE];
      buffer1 := new byte[BUF_SIZE];
      dmaRunning, dmaFinished := false, false;
      buffCountToDma, bufferWaitingDma := [0, 0], [false, false];
      nextBuffUp, fillBuffer, pos, waitFlag := 0, 0, 0, 0;
      submitted := [];
    }

    /** Pad the buffer with zeros to the transfer length and submit it, as in the built driver. */
    method SetupDmaTransfer(buffNumber: int, count: int)
      requires Valid() && buffNumber in {0, 1} && 0 <= count <= BUF_SIZE
      modifies `submitted, if buffNumber == 0 then buffer0 else buffer1
      ensures Valid()
      ensures var b := old(Model().buffers[buffNumber]);
              Model() == old(Model()).(buffers :=
                old(Model().buffers)[buffNumber := Padded(b[..count]) + b[AlignedLength(count)..]])
      ensures count == BUF_SIZE ==> Model() == old(Model())
      ensures submitted == old(submitted) + [Submission(buffNumber, AlignedLength(count))]
    {
      var txBuf := if buffNumber == 0 then buffer0 else buffer1;
      var alignedCount := PadBuffer(txBuf, count);
      submitted := submitted + [Submission(buffNumber, alignedCount)];
      assert Model().buffers == old(Model().buffers)[buffNumber := txBuf[..]];
      assert old(Model().buffers[buffNumber])[..count] == old(txBuf[..count]);
      assert count == BUF_SIZE ==> txBuf[..] == old(txBuf[..]);
    }

    method CopyIn(bufNumber: int, user: seq<byte>, n: nat, copied: nat) returns (fault: bool)
      requires Valid() && bufNumber == fillBuffer && !bufferWaitingDma[bufNumber]
      requires n <= |user| && pos + n <= BUF_SIZE
      modifies if bufNumber == 0 then buffer0 else buffer1
      ensures Valid()
      ensures fault <==> copied < n
      ensures Model() == old(Model()).(buffers :=
                D.CopiedIn(old(Model().buffers), bufNumber, pos, user, n, copied))
    {
      var b := if bufNumber == 0 then buffer0 else buffer1;
      fault := CopyFromUser(b, pos, user, n, copied);
      D.StoredBytes(old(Model().buffers), bufNumber, pos, D.Arrived(user, n, copied));
      assert Model().buffers == old(Model().buffers)[bufNumber := b[..]];
      assert old(Model().buffers[bufNumber])[..pos] == old(b[..pos]);
    }

    /** The end of dma_write under the mutex: advance `pos`, and mark the buffer waiting if that fills it. */
    method CommitCopied(bufNumber: int, count: nat) returns (dmaData: bool)
      requires Valid() && bufNumber == fillBuffer && CanWrite(Model()) && pos + count <= BUF_SIZE
      modifies `pos, `bufferWaitingDma, `buffCountToDma, `fillBuffer
      ensures Valid() && (Model(), dmaData) == CommitWrite(old(Model()), bufNumber, count)
    {
      CommitOk(Model(), count);
      dmaData := false;
      pos := pos + count;
      if pos >= BUF_SIZE {
        bufferWaitingDma := bufferWaitingDma[bufNumber := true];
        buffCountToDma := buffCountToDma[bufNumber := BUF_SIZE];
        dmaData := true;
        fillBuffer := fillBuffer + 1;
        if fillBuffer > 1 {
          fillBuffer := 0;
        }
        pos := 0;
      }
    }

    /** dma_write under the mutex: everything but raising the event. */
    method WriteLocked(user: seq<byte>, copied: nat) returns (count: int, dmaData: bool)
      requires Valid()
      modifies this, buffer0, buffer1
      ensures Valid() && submitted == old(submitted) && waitFlag == old(waitFlag)
      ensures (Model(), dmaData, count) == WriteCall(old(Model()), user, copied)
    {
      var bufNumber := fillBuffer;
      var buffAlreadyFull := bufferWaitingDma[bufNumber];
      dmaData := false;
      count := |user|;
      if !buffAlreadyFull {
        if pos + count > BUF_SIZE {
          count := BUF_SIZE - pos;
        }
        if count == 0 {
          return -D.ENOMEM, false;
        }
        var fault := CopyIn(bufNumber, user, count, copied);
        if fault {
          return -D.EFAULT, false;
        }
        dmaData := CommitCopied(bufNumber, count);
      } else {
        count := 0;
      }
    }

    /** dma_write: like the built driver's, but a full buffer only raises an event. */
    method DmaWrite(user: seq<byte>, copied: nat) returns (count: int)
      requires Valid()
      modifies this, buffer0, buffer1
      ensures Valid() && submitted == old(submitted)
      ensures var (d, full, ret) := WriteCall(old(Model()), user, copied);
              count == ret && Model() == d && waitFlag == old(waitFlag) + if full then 1 else 0
      ensures count == D.Taken(old(bufferWaitingDma[fillBuffer]), old(pos), user, copied)
      ensures count > 0 ==>
                (pos, fillBuffer) == if old(pos) + count == 16384 then (0, 1 - old(fillBuffer))
                                     else (old(pos) + count, old(fillBuffer))
      ensures waitFlag > old(waitFlag) <==> count > 0 && old(pos) + count == 16384
    {
      WriteResult(Model(), user, copied);
      var dmaData;
      count, dmaData := WriteLocked(user, copied);
      if dmaData {
        waitFlag := waitFlag + 1;
      }
    }

    /** tx_transfer_complete for a running transfer. */
    method TxTransferComplete(complete: bool)
      requires Valid() && dmaRunning
      modifies this
      ensures Valid() && submitted == old(submitted)
      ensures Model() == (if complete then Complete(old(Model())) else old(Model()))
      ensures waitFlag == old(waitFlag) + if complete then 1 else 0
    {
      if complete {
        dmaRunning := false;
        dmaFinished := true;
        waitFlag := waitFlag + 1;
      }
    }

    /** The worker's two sections: sample the flags, free a finished buffer, claim the next one that waits. */
    method TakeTurn() returns (startDma: bool, nextBufferCheck: int)
      requires Valid()
      modifies this
      ensures Valid() && submitted == old(submitted) && waitFlag == old(waitFlag)
      ensures var (d, busy, finished) := Sample(old(Model()));
              var (d', start) := Decide(d, busy, finished);
              && Model() == d' && start == (if startDma then Some(nextBufferCheck) else None)
              && (startDma ==> nextBufferCheck in {0, 1} && buffCountToDma[nextBufferCheck] == BUF_SIZE)
    {
      DecideOk(Model());
      startDma := false;
      var dmaBusy, finished := dmaRunning, dmaFinished;
      dmaFinished := false;
      nextBufferCheck := nextBuffUp;
      if finished {
        bufferWaitingDma := bufferWaitingDma[nextBufferCheck := false];
        nextBuffUp := if nextBufferCheck + 1 > 1 then 0 else nextBufferCheck + 1;
        nextBufferCheck := nextBuffUp;
      }
      if !dmaBusy {
        if bufferWaitingDma[nextBufferCheck] {
          dmaRunning := true;
          startDma := true;
        }
      }
    }

    /** One pass of the worker's loop body, entered with a counted event. */
    method Iterate() returns (continueRunning: bool)
      requires Valid() && waitFlag > 0
      modifies this, buffer0, buffer1
      ensures Valid() && waitFlag == old(waitFlag) - 1
      ensures continueRunning <==> old(waitFlag) < 1000
      ensures !continueRunning ==> Model() == old(Model()) && submitted == old(submitted)
      ensures continueRunning ==>
              var (d, busy, finished) := Sample(old(Model()));
              var (d', start) := Decide(d, busy, finished);
              && Model() == d'
              && submitted == old(submitted) + if start.Some? then [Submission(start.value, 16384)] else []
    {
      var flagCopy := waitFlag;
      waitFlag := waitFlag - 1;
      if flagCopy >= THREAD_STOP {
        return false;
      }
      var startDma, nextBufferCheck := TakeTurn();
      if startDma {
        SetupDmaTransfer(nextBufferCheck, buffCountToDma[nextBufferCheck]);
      }
      continueRunning := true;
    }

    /**
     The worker's loop up to where it blocks or leaves. If every piece of work had an event when it
     was entered below the stop mark, it consumes all events and blocks with no work left.
     */
    method ThreadFunc() returns (continueRunning: bool)
      requires Valid() && waitFlag >= 0
      requires I.Work(Model()) ==> waitFlag > 0
      modifies this, buffer0, buffer1
      ensures Valid()
      ensures continueRunning <==> old(waitFlag) < 1000
      ensures continueRunning ==> waitFlag == 0 && !I.Work(Model())
    {
      continueRunning := true;
      while continueRunning && waitFlag > 0
        invariant Valid() && waitFlag >= 0
        invariant continueRunning ==> (I.Work(Model()) ==> waitFlag > 0)
        invariant continueRunning ==>
                    waitFlag <= old(waitFlag) && (waitFlag == old(waitFlag) || old(waitFlag) < THREAD_STOP)
        invariant !continueRunning ==> old(waitFlag) >= THREAD_STOP
        decreases waitFlag
      {
        continueRunning := Iterate();
      }
    }
  }
}
