/**
 What each call of the built driver does to the queue and reports, in numbers; that a result once
 decided stays; and that the protocol leaves the environment free.
 */
module DmaOutcomes {
  import opened Frames
  import opened DmaSections
  import opened Transfers
  import opened DmaProtocol
  import opened DmaInvariant
  import opened DmaTheorems

  /**
   A write whose copy is complete reports its count and appends the bytes. It closes the chunk
   exactly when that makes 16384 bytes, and if nothing was outstanding it goes on to set up their
   transfer.
   */
  lemma WriteOutcome(m: Machine, t: nat)
    requires Reachable(m) && Enabled(m, FinishWrite(t))
    ensures WriteCommitted(m, t)
  {
    ReachableInv(m);
    assert CopyOk(m.dev, m.calls[t]) && m.mutex == Some(t);
    FinishWriteRefines(m, t);
  }

  ghost predicate WriteCommitted(m: Machine, t: nat)
    requires Enabled(m, FinishWrite(t))
  {
    var m', pc := Step(m, FinishWrite(t)), m.calls[t];
    && |m.delivered| <= |m.closed| && |m'.delivered| <= |m'.closed|
    && 0 < pc.n <= |pc.user|
    && var chunk := Abs(m).open + pc.user[..pc.n];
       var full := |chunk| == 16384;
       && |chunk| <= 16384
       && Abs(m').open == (if full then [] else chunk)
       && Abs(m').waiting == Abs(m).waiting + (if full then [chunk] else [])
       && m'.calls[t] == (if full && Abs(m).waiting == []
                          then Preparing(WriteCall(pc.user), Job(m.dev.fill, 16384, 16384, 16384), pc.n)
                          else Returned(WriteCall(pc.user), pc.n))
  }

  /** A faulting write reports -EFAULT and leaves the queue as it was. */
  lemma FaultOutcome(m: Machine, t: nat, rest: seq<byte>)
    requires Reachable(m) && Enabled(m, CopyFault(t, rest))
    ensures var m' := Step(m, CopyFault(t, rest));
            && |m.delivered| <= |m.closed| && |m'.delivered| <= |m'.closed| && Abs(m') == Abs(m)
            && m'.calls[t] == Returned(WriteCall(m.calls[t].user), -14)
  {
    ReachableInv(m);
    StoreRefines(m, CopyFault(t, rest));
  }

  /** A flush command other than 1 reports -EINVAL and does nothing else. */
  lemma OtherCommand(m: Machine, t: nat, value: int)
    requires Enabled(m, Flush(t, value)) && value != 1
    ensures Step(m, Flush(t, value)) == m.(calls := m.calls[t := Returned(FlushCall(value), -22)])
  {
  }

  /** What a call reports is decided in its locked section: no later step changes it. */
  lemma ResultStays(m: Machine, e: Event, t: nat)
    requires Enabled(m, e) && t in m.calls && !m.calls[t].Copying?
    ensures var m' := Step(m, e);
            t in m'.calls && !m'.calls[t].Copying?
            && m'.calls[t].call == m.calls[t].call && m'.calls[t].ret == m.calls[t].ret
  {
  }

  /**
   The environment is free: whoever may take the mutex can start any write or flush, a copy can
   fault at any byte and leave anything, a transfer can fail at any time, and anyone can poll.
   */
  lemma OpenWorld(m: Machine)
    ensures forall t, user :: t !in m.calls && m.mutex.None? ==> Enabled(m, BeginWrite(t, user))
    ensures forall t, value :: t !in m.calls && m.mutex.None? ==> Enabled(m, Flush(t, value))
    ensures forall t, rest :: IsCopying(m.calls, t) && |rest| == m.calls[t].n - m.calls[t].done > 0 ==>
              Enabled(m, CopyFault(t, rest))
    ensures m.engine.Some? && m.engine.value.status == InProgress ==> Enabled(m, TransferError)
    ensures forall p :: p !in m.pollers ==> Enabled(m, PollEnqueue(p))
  {
  }

  predicate IsTriggered(m: Machine, p: nat) {
    p in m.pollers && !m.pollers[p].Writable? && m.pollers[p].triggered
  }

  /** Only the callback's wake-up triggers pollers, and it triggers all that wait. */
  lemma OnlyCallbackWakes(m: Machine, e: Event, p: nat)
    requires Enabled(m, e)
    ensures IsTriggered(Step(m, e), p) && !IsTriggered(m, p) ==> e == CallbackWake
    ensures e == CallbackWake && p in m.pollers && !m.pollers[p].Writable? ==> IsTriggered(Step(m, e), p)
  {
  }

  /**
   A good completion takes the oldest chunk off the queue. With another one waiting the callback
   goes on to set up its transfer, and in any case to the wake-up; after an error it does nothing
   more than note that it has seen it.
   */
  lemma CompletionOutcome(m: Machine)
    requires Reachable(m) && Enabled(m, Callback)
    ensures Completes(m)
    ensures Enabled(m, CallbackSubmit) ==> Step(m, CallbackSubmit).callback == CbWaking
  {
    ReachableInv(m);
    CallbackRefines(m);
  }

  ghost predicate Completes(m: Machine)
    requires Enabled(m, Callback)
  {
    var m', x := Step(m, Callback), m.engine.value;
    && |m.delivered| <= |m.closed| && |m'.delivered| <= |m'.closed|
    && if x.status != Completed then m' == m.(engine := Some(x.(status := FailedSeen)))
       else
         && Abs(m).waiting != [] && Abs(m').waiting == Abs(m).waiting[1..] && m'.engine == None
         && (Abs(m').waiting == [] ==> m'.callback == CbWaking)
         && (Abs(m').waiting != [] ==>
               m'.callback.CbPreparing? && m'.callback.job.buf == 1 - x.buf
               && m'.callback.job.count == |Abs(m').waiting[0]|)
  }

  /** The call a step belongs to, if any. */
  function Caller(e: Event): Option<nat> {
    if e.BeginWrite? || e.CopyByte? || e.CopyFault? || e.FinishWrite? || e.Flush? || e.PadByte? || e.Submit?
    then Some(e.t) else None
  }

  /** A step changes only what its actor owns. */
  lemma StepFrame(m: Machine, e: Event)
    requires Enabled(m, e)
    ensures var m' := Step(m, e);
            && (forall t :: t in m.calls && Caller(e) != Some(t) ==> t in m'.calls && m'.calls[t] == m.calls[t])
            && (forall t :: t in m'.calls && Caller(e) != Some(t) ==> t in m.calls)
            && (e.BeginWrite? || e.CopyFault? || e.FinishWrite? || m'.mutex == m.mutex)
            && (e in {Callback, CallbackPad, CallbackSubmit, CallbackWake} || m'.callback == m.callback)
            && (e.Submit? || e in {CallbackSubmit, Transmit, TransferDone, TransferError, Callback}
                || m'.engine == m.engine)
            && (e.PollEnqueue? || e.PollCheck? || e.PollRetry? || e == CallbackWake || m'.pollers == m.pollers)
  {
  }
}
