/**
 The built driver's functions over its device structure. `Model` is the data the protocol steps
 speak about; every method is proved to do to it what the section functions say. Calls run
 uninterrupted here; the protocol interleaves the same sections.
 */
module DmaDevice {
  import opened Frames
  import opened DmaSections
  import opened TransferSetup

  class Device {
    const buffer0: array<byte>
    const buffer1: array<byte>
    var pos: int
    var nextBuffCount: int
    var dmaActiveBuffer: int
    var fillBuffer: int
    var submitted: seq<Submission>

    ghost function Model(): Dev
      reads this, buffer0, buffer1
    {
      Dev([buffer0[..], buffer1[..]], pos, nextBuffCount, dmaActiveBuffer, fillBuffer)
    }

    ghost predicate Valid()
      reads this
    {
      && buffer0 != buffer1 && buffer0.Length == BUF_SIZE && buffer1.Length == BUF_SIZE
      && fillBuffer in {0, 1} && dmaActiveBuffer in {-1, 0, 1} && 0 <= pos < BUF_SIZE
      && (fillBuffer == dmaActiveBuffer ==> 0 < nextBuffCount <= BUF_SIZE)
    }

    /** The state after probe. The buffers are not cleared. */
    constructor ()
      ensures Valid() && submitted == []
      ensures dmaActiveBuffer == -1 && fillBuffer == 0 && pos == 0 && nextBuffCount == 0
      ensures Model() == InitialDev(buffer0[..], buffer1[..])
      ensures fresh(buffer0) && fresh(buffer1)
    {
      buffer0 := new byte[BUF_SIZE];
      buffer1 := new byte[BUF_SIZE];
      dmaActiveBuffer, fillBuffer := -1, 0;
      pos, nextBuffCount := 0, 0;
      submitted := [];
    }

    /**
     Pad the claimed buffer with zeros to the transfer length and submit it. The buffer then
     starts with the frame of its first `count` bytes; nothing else changes.
     */
    method SetupDmaTransfer(buffNumber: int, count: int)
      requires Valid() && buffNumber in {0, 1} && 0 <= count <= BUF_SIZE
      modifies `submitted, if buffNumber == 0 then buffer0 else buffer1
      ensures Valid()
      ensures var b := old(Model().buffers[buffNumber]);
              Model() == old(Model()).(buffers :=
                old(Model().buffers)[buffNumber := Padded(b[..count]) + b[AlignedLength(count)..]])
      ensures submitted == old(submitted) + [Submission(buffNumber, AlignedLength(count))]
    {
      var txBuf := if buffNumber == 0 then buffer0 else buffer1;
      var alignedCount := PadBuffer(txBuf, count);
      submitted := submitted + [Submission(buffNumber, alignedCount)];
      assert Model().buffers == old(Model().buffers)[buffNumber := txBuf[..]];
      assert old(Model().buffers[buffNumber])[..count] == old(txBuf[..count]);
    }

    method CopyIn(bufNumber: int, user: seq<byte>, n: nat, copied: nat) returns (fault: bool)
      requires Valid() && bufNumber in {0, 1} && n <= |user| && pos + n <= BUF_SIZE
      modifies if bufNumber == 0 then buffer0 else buffer1
      ensures Valid()
      ensures fault <==> copied < n
      ensures Model() == old(Model()).(buffers :=
                CopiedIn(old(Model().buffers), bufNumber, pos, user, n, copied))
    {
      var b := if bufNumber == 0 then buffer0 else buffer1;
      fault := CopyFromUser(b, pos, user, n, copied);
      StoredBytes(old(Model().buffers), bufNumber, pos, Arrived(user, n, copied));
      assert Model().buffers == old(Model().buffers)[bufNumber := b[..]];
      assert old(Model().buffers[bufNumber])[..pos] == old(b[..pos]);
    }

    /** The data once a claimed buffer has been padded for its transfer. */
    static ghost function Prepared(d: Dev, claim: Option<Claim>): Dev
      requires claim.Some? ==>
        0 <= claim.value.buf < |d.buffers| && 0 <= claim.value.count <= BUF_SIZE
        && |d.buffers[claim.value.buf]| == BUF_SIZE
    {
      if claim.None? then d
      else
        var Claim(buf, count) := claim.value;
        AlignedLeast(count);
        var b := d.buffers[buf];
        d.(buffers := d.buffers[buf := Padded(b[..count]) + b[AlignedLength(count)..]])
    }

    static ghost function Submissions(claim: Option<Claim>): seq<Submission>
      requires claim.Some? ==> claim.value.count >= 0
    {
      if claim.None? then [] else [Submission(claim.value.buf, AlignedLength(claim.value.count))]
    }

    /** dma_write's second locked section: advance `pos`, and close the buffer if that fills it. */
    method CommitCopied(bufNumber: int, count: nat) returns (dmaData: bool)
      requires Valid() && bufNumber == fillBuffer && CanWrite(Model()) && pos + count <= BUF_SIZE
      modifies `pos, `nextBuffCount, `dmaActiveBuffer, `fillBuffer
      ensures Valid()
      ensures var (d, claim) := CommitWrite(old(Model()), bufNumber, count);
              Model() == d && claim == if dmaData then Some(Claim(bufNumber, BUF_SIZE)) else None
    {
      dmaData := false;
      pos := pos + count;
      if pos >= BUF_SIZE {
        if dmaActiveBuffer == -1 {
          dmaData := true;
          dmaActiveBuffer := bufNumber;
        }
        nextBuffCount := BUF_SIZE;
        fillBuffer := fillBuffer + 1;
        if fillBuffer > 1 {
          fillBuffer := 0;
        }
        pos := 0;
      }
    }

    /** dma_write under the mutex: everything but the setup of a claimed transfer. */
    method WriteLocked(user: seq<byte>, copied: nat) returns (count: int, dmaData: bool)
      requires Valid()
      modifies this, buffer0, buffer1
      ensures Valid() && submitted == old(submitted)
      ensures var claim := if dmaData then Some(Claim(old(fillBuffer), BUF_SIZE)) else None;
              (Model(), claim, count) == WriteCall(old(Model()), user, copied)
    {
      var bufNumber, active := fillBuffer, dmaActiveBuffer;
      dmaData := false;
      count := |user|;
      if bufNumber != active {
        if pos + count > BUF_SIZE {
          count := BUF_SIZE - pos;
        }
        if count == 0 {
          return -ENOMEM, false;
        }
        var fault := CopyIn(bufNumber, user, count, copied);
        if fault {
          return -EFAULT, false;
        }
        dmaData := CommitCopied(bufNumber, count);
      } else {
        count := 0;
      }
    }

    /**
     dma_write: refused with 0 while both buffers are closed, -ENOMEM for an empty write, -EFAULT
     when the copy faults; otherwise the accepted count, after which a filled buffer is closed
     and, if no transfer was active, padded and submitted.
     */
    method DmaWrite(user: seq<byte>, copied: nat) returns (count: int)
      requires Valid()
      modifies this, buffer0, buffer1
      ensures Valid()
      ensures var (d, claim, ret) := WriteCall(old(Model()), user, copied);
              && count == ret
              && (claim.Some? ==> claim.value == Claim(old(fillBuffer), BUF_SIZE))
              && Model() == Prepared(d, claim)
              && submitted == old(submitted) + Submissions(claim)
      ensures count == Taken(old(fillBuffer) == old(dmaActiveBuffer), old(pos), user, copied)
      ensures count > 0 ==>
                (pos, fillBuffer) == if old(pos) + count == 16384 then (0, 1 - old(fillBuffer))
                                     else (old(pos) + count, old(fillBuffer))
      ensures submitted == old(submitted)
                           + if count > 0 && old(pos) + count == 16384 && old(dmaActiveBuffer) == -1
                             then [Submission(old(fillBuffer), 16384)] else []
    {
      WriteResult(Model(), user, copied);
      var dmaData;
      var bufNumber := fillBuffer;
      count, dmaData := WriteLocked(user, copied);
      if dmaData {
        SetupDmaTransfer(bufNumber, BUF_SIZE);
      }
    }

    /** write_dma_store for an already parsed value. */
    method WriteDmaStore(value: int) returns (bufCount: int)
      requires Valid()
      modifies this, buffer0, buffer1
      ensures Valid()
      ensures bufCount == if value != 1 || old(pos) == 0 then -22
                          else if old(fillBuffer) == old(dmaActiveBuffer) then -11 else old(pos)
      ensures bufCount < 0 ==> Model() == old(Model()) && submitted == old(submitted)
      ensures value == 1 ==>
              var (d, claim, ret) := CommitFlush(old(Model()));
              && bufCount == ret
              && (claim.Some? ==> claim.value == Claim(old(fillBuffer), old(pos)))
              && Model() == Prepared(d, claim)
              && submitted == old(submitted) + Submissions(claim)
    {
      FlushResult(Model());
      bufCount := -EINVAL;
      var dmaData := false;
      if value == 1 {
        var bufNumber := fillBuffer;
        if pos != 0 {
          if fillBuffer != dmaActiveBuffer {
            bufCount := pos;
            if dmaActiveBuffer == -1 {
              dmaData := true;
              dmaActiveBuffer := fillBuffer;
            }
            nextBuffCount := bufCount;
            fillBuffer := fillBuffer + 1;
            if fillBuffer > 1 {
              fillBuffer := 0;
            }
            pos := 0;
          } else {
            bufCount := -EAGAIN;
          }
        } else {
          bufCount := -EINVAL;
        }
        if dmaData {
          SetupDmaTransfer(bufNumber, bufCount);
        }
      }
    }

    /** tx_transfer_complete; after an error it only logs. `woken` reports the wake-up of pollers. */
    method TxTransferComplete(complete: bool) returns (woken: bool)
      requires Valid()
      modifies this, buffer0, buffer1
      ensures Valid()
      ensures woken == complete
      ensures !complete ==> Model() == old(Model()) && submitted == old(submitted)
      ensures complete ==>
              var (d, claim) := Complete(old(Model()));
              && (claim.Some? ==> claim.value.buf in {0, 1} && claim.value.count == old(nextBuffCount))
              && Model() == Prepared(d, claim)
              && submitted == old(submitted) + Submissions(claim)
    {
      if !complete {
        return false;
      }
      var bufNumber, dmaData, bufCount := 0, false, 0;
      if fillBuffer == dmaActiveBuffer {
        dmaActiveBuffer := dmaActiveBuffer + 1;
        if dmaActiveBuffer > 1 {
          dmaActiveBuffer := 0;
        }
        bufNumber := dmaActiveBuffer;
        dmaData := true;
        bufCount := nextBuffCount;
      } else {
        dmaActiveBuffer := -1;
      }
      if dmaData {
        SetupDmaTransfer(bufNumber, bufCount);
      }
      woken := true;
    }

    /**
     dma_poll's check. Writable means that a nonempty write takes at least one byte, not writable
     that no write does anything.
     */
    method DmaPoll() returns (canWrite: bool)
      requires Valid()
      ensures canWrite ==> forall user: seq<byte> :: user != [] ==> WriteCall(Model(), user, |user|).2 >= 1
      ensures !canWrite ==>
                forall user: seq<byte>, copied: nat :: WriteCall(Model(), user, copied) == (Model(), None, 0)
    {
      canWrite := if fillBuffer == dmaActiveBuffer then false else true;
    }
  }
}
