/**
 What each write of the thread version does to the queue and reports, in numbers, and the buffers it
 sends; that a result once decided stays; and that the protocol leaves the environment free.
 */
module ThreadOutcomes {
  import opened Frames
  import opened Transfers
  import opened ThreadSections
  import opened ThreadProtocol
  import opened ThreadInvariant
  import opened ThreadTheorems

  /** Admission, as in the built driver. */
  lemma WriteAdmission(m: Machine, t: nat, user: seq<byte>)
    requires Reachable(m) && Enabled(m, BeginWrite(t, user))
    ensures m.freed <= |m.closed|
    ensures var pc, room := Step(m, BeginWrite(t, user)).calls[t], 16384 - |Abs(m).open|;
            if |Abs(m).waiting| == 2 then pc == Returned(user, 0)
            else if user == [] then pc == Returned(user, -12)
            else pc == Copying(user, m.dev.fill, if |user| <= room then |user| else room, 0) && room >= 1
  {
    ReachableInv(m);
  }

  /**
   A write whose copy is complete reports its count and appends the bytes. It closes the chunk
   exactly when that makes 16384 bytes, and then has an event to raise.
   */
  lemma WriteOutcome(m: Machine, t: nat)
    requires Reachable(m) && Enabled(m, FinishWrite(t))
    ensures WriteCommitted(m, t)
  {
    ReachableInv(m);
    FilledExtends(m.dev, m.calls[t]);
    FinishWriteRefines(m, t);
  }

  ghost predicate WriteCommitted(m: Machine, t: nat)
    requires Enabled(m, FinishWrite(t))
  {
    var m', pc := Step(m, FinishWrite(t)), m.calls[t];
    && m.freed <= |m.closed| && m'.freed <= |m'.closed|
    && 0 < pc.n <= |pc.user|
    && var chunk := Abs(m).open + pc.user[..pc.n];
       var full := |chunk| == 16384;
       && |chunk| <= 16384
       && Abs(m').open == (if full then [] else chunk)
       && Abs(m').waiting == Abs(m).waiting + (if full then [chunk] else [])
       && m'.calls[t] == (if full then Raising(pc.user, pc.n) else Returned(pc.user, pc.n))
  }

  /** A faulting write reports -EFAULT and leaves the queue as it was. */
  lemma FaultOutcome(m: Machine, t: nat, rest: seq<byte>)
    requires Reachable(m) && Enabled(m, CopyFault(t, rest))
    ensures var m' := Step(m, CopyFault(t, rest));
            && m.freed <= |m.closed| && m'.freed <= |m'.closed| && Abs(m') == Abs(m)
            && m'.calls[t] == Returned(m.calls[t].user, -14)
  {
    ReachableInv(m);
    CopyFaultRefines(m, t, rest);
  }

  /** What the worker submits is the oldest outstanding chunk, whole: all 16384 bytes of its buffer. */
  lemma SubmittedWhole(m: Machine)
    requires Reachable(m) && Enabled(m, WorkerSubmit)
    ensures m.freed < |m.closed| && |m.closed[m.freed]| == 16384
    ensures var m' := Step(m, WorkerSubmit);
            && m'.engine.Some? && m'.engine.value.id == m'.cookie == m.cookie + 1
            && m'.engine.value.len == 16384 && Occupies(m'.dev, m'.engine.value.buf, m.closed[m.freed])
  {
    ReachableInv(m);
  }

  /** What a write reports is decided under the mutex: no later step changes it. */
  lemma ResultStays(m: Machine, e: Event, t: nat)
    requires Enabled(m, e) && t in m.calls && !m.calls[t].Copying?
    ensures var m' := Step(m, e);
            t in m'.calls && !m'.calls[t].Copying?
            && m'.calls[t].user == m.calls[t].user && m'.calls[t].ret == m.calls[t].ret
  {
  }

  /**
   The environment is free: whoever may take the mutex can start any write, a copy can fault at any
   byte and leave anything, a transfer can fail and the driver be removed at any time.
   */
  lemma OpenWorld(m: Machine)
    ensures forall t, user :: t !in m.calls && m.mutex.None? ==> Enabled(m, BeginWrite(t, user))
    ensures forall t, rest :: IsCopying(m.calls, t) && |rest| == m.calls[t].n - m.calls[t].done > 0 ==>
              Enabled(m, CopyFault(t, rest))
    ensures m.engine.Some? && m.engine.value.status == InProgress ==> Enabled(m, TransferError)
    ensures !m.stopped ==> Enabled(m, Remove)
  {
  }

  /** The call a step belongs to, if any. */
  function Caller(e: Event): Option<nat> {
    if e.BeginWrite? || e.CopyByte? || e.CopyFault? || e.FinishWrite? || e.Raise? then Some(e.t) else None
  }

  predicate OfWorker(e: Event) {
    e in {WorkerWake, WorkerRead, WorkerDecrement, WorkerSample, WorkerDecide, WorkerPrepare, WorkerPad, WorkerSubmit}
  }

  /** A step changes only what its actor owns, and the counter by one or to the stop value. */
  lemma StepFrame(m: Machine, e: Event)
    requires Enabled(m, e)
    ensures var m' := Step(m, e);
            && (forall t :: t in m.calls && Caller(e) != Some(t) ==> t in m'.calls && m'.calls[t] == m.calls[t])
            && (forall t :: t in m'.calls && Caller(e) != Some(t) ==> t in m.calls)
            && (e.BeginWrite? || e.CopyFault? || e.FinishWrite? || m'.mutex == m.mutex)
            && (OfWorker(e) || m'.worker == m.worker)
            && (e in {WorkerSubmit, Transmit, TransferDone, TransferError, Callback} || m'.engine == m.engine)
            && (e in {Callback, CallbackRaise} || m'.raising == m.raising)
            && m'.flag == (if e.Raise? || e == CallbackRaise then m.flag + 1
                           else if e == WorkerDecrement then m.flag - 1
                           else if e == Remove then 1001 else m.flag)
  {
  }
}
