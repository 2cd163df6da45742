/**
 The inductive invariant of the kernel-thread design, and its preservation by every step.
 */
module ThreadInvariant {
  import opened Frames
  import D = DmaSections
  import opened Transfers
  import opened ThreadSections
  import opened ThreadProtocol

  type Calls = map<nat, WritePc>

  predicate ShapeOk(d: Dev) {
    && |d.buffers| == 2 && |d.buffers[0]| == BUF_SIZE && |d.buffers[1]| == BUF_SIZE
    && |d.counts| == 2 && |d.waiting| == 2
    && d.nextUp in {0, 1} && d.fill in {0, 1} && 0 <= d.pos < BUF_SIZE
  }

  /** How many slots wait or are on the wire. */
  function Occupancy(d: Dev): nat
    requires ShapeOk(d)
  {
    (if d.waiting[0] then 1 else 0) + (if d.waiting[1] then 1 else 0)
  }

  /**
   The occupied slots are the oldest ones from `nextUp`; writers fill the slot after them; with
   both occupied the open chunk is empty; and a completed transfer is no longer running.
   */
  predicate SlotsOk(d: Dev)
    requires ShapeOk(d)
  {
    && (Occupancy(d) >= 1 ==> d.waiting[d.nextUp])
    && d.fill == (if Occupancy(d) == 1 then 1 - d.nextUp else d.nextUp)
    && (Occupancy(d) == 2 ==> d.pos == 0)
    && (d.finished ==> !d.running)
  }

  /** The oldest closed chunk whose slot is not freed. */
  function Current(closed: seq<seq<byte>>, freed: nat): seq<byte> {
    if freed < |closed| then closed[freed] else []
  }

  /** Occupied slots hold the outstanding chunks, which are whole buffers. */
  ghost predicate HoldOk(d: Dev, closed: seq<seq<byte>>, freed: nat)
    requires ShapeOk(d)
  {
    && |closed| == freed + Occupancy(d)
    && (forall i :: 0 <= i < |closed| ==> |closed[i]| == BUF_SIZE)
    && (Occupancy(d) >= 1 ==> d.buffers[d.nextUp] == closed[freed] && d.counts[d.nextUp] == BUF_SIZE)
    && (Occupancy(d) == 2 ==> d.buffers[1 - d.nextUp] == closed[freed + 1] && d.counts[1 - d.nextUp] == BUF_SIZE)
  }

  /** A completion the worker has not yet acted on. */
  predicate Unfreed(finished: bool, worker: Worker) {
    finished || (worker.Deciding? && worker.finished)
  }

  ghost predicate DeliveredOk(unfreed: bool, closed: seq<seq<byte>>, delivered: seq<seq<byte>>, freed: nat) {
    && |delivered| == freed + (if unfreed then 1 else 0) <= |closed|
    && forall i :: 0 <= i < |delivered| ==> delivered[i] == closed[i]
  }

  ghost predicate CopyOk(d: Dev, pc: WritePc)
    requires ShapeOk(d) && pc.Copying?
  {
    && pc.buf == d.fill && !d.waiting[d.fill]
    && pc.n == D.WriteCount(d.pos, |pc.user|) && 0 < pc.n && pc.done <= pc.n
    && d.buffers[pc.buf][d.pos..d.pos + pc.done] == pc.user[..pc.done]
  }

  ghost predicate MutexOk(d: Dev, mutex: Option<nat>, calls: Calls)
    requires ShapeOk(d)
  {
    && (forall t :: IsCopying(calls, t) ==> mutex == Some(t) && CopyOk(d, calls[t]))
    && (mutex.Some? ==> IsCopying(calls, mutex.value))
  }

  /** A transfer is running exactly while the worker sets it up or the engine has it. */
  ghost predicate TokenOk(d: Dev, c: seq<byte>, worker: Worker, engine: Option<Transfer>, cookie: nat)
    requires ShapeOk(d)
  {
    && (d.running <==> worker.Starting? || worker.Preparing? || engine.Some?)
    && (d.running ==> d.waiting[d.nextUp])
    && (worker.Starting? || worker.Preparing? ==> engine.None?)
    && (worker.Starting? ==> worker.buf == d.nextUp)
    && (worker.Preparing? ==> worker.job == Job(d.nextUp, BUF_SIZE, BUF_SIZE, BUF_SIZE))
    && (engine.Some? ==>
          var x := engine.value;
          && x.buf == d.nextUp && x.id == cookie && x.len == BUF_SIZE == |c|
          && x.sent <= c && (x.status == Completed ==> x.sent == c))
    && (worker.Deciding? ==>
          && (!worker.busy ==> !d.running && !d.finished)
          && (worker.finished ==> !worker.busy && d.waiting[d.nextUp]))
    && (d.finished ==> d.waiting[d.nextUp])
  }

  /** Something for the worker to do: a slot to free, or a transfer to start. */
  predicate Work(d: Dev)
    requires ShapeOk(d)
  {
    d.finished || (!d.running && d.waiting[d.nextUp])
  }

  predicate SomeRaising(calls: Calls) {
    exists t :: t in calls && calls[t].Raising?
  }

  /** The worker is past its decrement and will still see all there is to do. */
  predicate WillAct(worker: Worker) {
    worker == Sampling || (worker.Deciding? && !worker.busy) || (worker.Read? && worker.flag < THREAD_STOP)
  }

  predicate Leaving(worker: Worker) {
    worker == Exited || (worker.Read? && worker.flag >= THREAD_STOP)
  }

  /** No work is ever left without an event on its way to the worker. */
  predicate CreditOk(d: Dev, flag: int, calls: Calls, worker: Worker, raising: bool)
    requires ShapeOk(d)
  {
    Work(d) && !Leaving(worker) ==> flag > 0 || raising || SomeRaising(calls) || WillAct(worker)
  }

  /** The counter, and the stop request in it. */
  predicate FlagOk(flag: int, worker: Worker, stopped: bool) {
    && (worker != Exited ==> flag >= 0)
    && (worker == Awake || worker.Read? ==> flag > 0)
    && (stopped && !Leaving(worker) ==> flag >= THREAD_STOP && (worker.Read? ==> flag > THREAD_STOP))
  }

  /** A write call past its commit that reports accepted bytes. */
  predicate Committed(calls: Calls, t: nat) {
    t in calls && !calls[t].Copying? && calls[t].ret > 0
  }

  function Outcomes(calls: Calls): map<nat, Outcome> {
    map t | t in calls && Committed(calls, t) :: Outcome(calls[t].user, calls[t].ret)
  }

  ghost predicate Inv(m: Machine) {
    && ShapeOk(m.dev) && SlotsOk(m.dev)
    && HoldOk(m.dev, m.closed, m.freed)
    && DeliveredOk(Unfreed(m.dev.finished, m.worker), m.closed, m.delivered, m.freed)
    && MutexOk(m.dev, m.mutex, m.calls)
    && TokenOk(m.dev, Current(m.closed, m.freed), m.worker, m.engine, m.cookie)
    && m.cookie == m.issued
    && CreditOk(m.dev, m.flag, m.calls, m.worker, m.raising)
    && FlagOk(m.flag, m.worker, m.stopped)
    && LogExact(Outcomes(m.calls), m.log)
  }

  lemma InitialInv(b0: seq<byte>, b1: seq<byte>)
    requires |b0| == BUF_SIZE && |b1| == BUF_SIZE
    ensures Inv(Initial(b0, b1))
  {
  }

  // ---------------------------------------------------------------- writers

  lemma CreditOtherCall(d: Dev, flag: int, calls: Calls, worker: Worker, raising: bool, t: nat, pc: WritePc)
    requires ShapeOk(d) && CreditOk(d, flag, calls, worker, raising)
    requires t in calls ==> !calls[t].Raising?
    ensures CreditOk(d, flag, calls[t := pc], worker, raising)
  {
    if u :| u in calls && calls[u].Raising? {
      assert u in calls[t := pc] && calls[t := pc][u].Raising?;
    }
  }

  lemma LogOtherCall(calls: Calls, log: seq<Accepted>, t: nat, pc: WritePc)
    requires LogExact(Outcomes(calls), log)
    requires !Committed(calls, t) ==> pc.Copying? || pc.ret <= 0
    requires Committed(calls, t) ==> !pc.Copying? && pc.user == calls[t].user && pc.ret == calls[t].ret
    ensures LogExact(Outcomes(calls[t := pc]), log)
  {
    assert Outcomes(calls[t := pc]) == Outcomes(calls);
  }

  lemma LogCommit(calls: Calls, log: seq<Accepted>, t: nat, pc: WritePc, bytes: seq<byte>)
    requires LogExact(Outcomes(calls), log) && !Committed(calls, t)
    requires !pc.Copying? && pc.ret == |bytes| > 0 && bytes <= pc.user
    ensures LogExact(Outcomes(calls[t := pc]), log + [Accepted(t, bytes)])
  {
    LogAppend(Outcomes(calls), log, t, pc.user, bytes);
    assert Outcomes(calls[t := pc]) == Outcomes(calls)[t := Outcome(pc.user, |bytes|)];
  }

  /** A free mutex may be taken by a fresh call that starts to copy. */
  lemma MutexBegin(d: Dev, calls: Calls, t: nat, pc: WritePc)
    requires ShapeOk(d) && MutexOk(d, None, calls) && t !in calls
    requires pc.Copying? ==> CopyOk(d, pc)
    ensures MutexOk(d, if pc.Copying? then Some(t) else None, calls[t := pc])
  {
  }

  lemma BeginWriteKeeps(m: Machine, t: nat, user: seq<byte>)
    requires Inv(m) && Enabled(m, BeginWrite(t, user))
    ensures Inv(Step(m, BeginWrite(t, user)))
  {
    var d := m.dev;
    var n := D.WriteCount(d.pos, |user|);
    var pc := if !CanWrite(d) then Returned(user, 0)
              else if n == 0 then Returned(user, -D.ENOMEM) else Copying(user, d.fill, n, 0);
    assert Step(m, BeginWrite(t, user))
           == m.(mutex := if pc.Copying? then Some(t) else None, calls := m.calls[t := pc]);
    assert pc.Copying? ==> CopyOk(d, pc);
    MutexBegin(d, m.calls, t, pc);
    CreditOtherCall(d, m.flag, m.calls, m.worker, m.raising, t, pc);
    LogOtherCall(m.calls, m.log, t, pc);
  }

  /** One byte copied past `pos` extends the caller's own copy and leaves the other buffer alone. */
  lemma CopyByteData(d: Dev, pc: WritePc)
    requires ShapeOk(d) && pc.Copying? && CopyOk(d, pc) && pc.done < pc.n
    ensures var d' := d.(buffers := D.Store(d.buffers, pc.buf, d.pos + pc.done, pc.user[pc.done]));
            && ShapeOk(d') && CopyOk(d', pc.(done := pc.done + 1))
            && forall i :: 0 <= i < 2 && d.waiting[i] ==> d'.buffers[i] == d.buffers[i]
  {
    var b, i := d.buffers[pc.buf], d.pos + pc.done;
    assert b[i := pc.user[pc.done]][d.pos..i + 1] == b[d.pos..i] + [pc.user[pc.done]];
  }

  lemma CopyByteKeeps(m: Machine, t: nat)
    requires Inv(m) && Enabled(m, CopyByte(t))
    ensures Inv(Step(m, CopyByte(t)))
  {
    var m', pc := Step(m, CopyByte(t)), m.calls[t];
    CopyByteData(m.dev, pc);
    CreditOtherCall(m'.dev, m.flag, m.calls, m.worker, m.raising, t, m'.calls[t]);
    LogOtherCall(m.calls, m.log, t, m'.calls[t]);
  }

  /** The buffers may change where no slot is occupied. */
  lemma SlotsSameBuffers(d: Dev, d': Dev, closed: seq<seq<byte>>, freed: nat)
    requires ShapeOk(d) && ShapeOk(d') && SlotsOk(d) && HoldOk(d, closed, freed)
    requires d' == d.(buffers := d'.buffers)
    requires forall i :: 0 <= i < 2 && d.waiting[i] ==> d'.buffers[i] == d.buffers[i]
    ensures SlotsOk(d') && HoldOk(d', closed, freed)
  {
  }

  /** A faulting copy spoils at most the open buffer past `pos`. */
  lemma CopyFaultData(d: Dev, n: int, done: nat, rest: seq<byte>)
    requires ShapeOk(d) && d.pos + n <= BUF_SIZE && done <= n && |rest| == n - done
    requires !d.waiting[d.fill]
    ensures var d' := d.(buffers := D.StoreBytes(d.buffers, d.fill, d.pos + done, rest));
            && ShapeOk(d') && d'.buffers[d.fill][..d.pos] == d.buffers[d.fill][..d.pos]
            && forall i :: 0 <= i < 2 && d.waiting[i] ==> d'.buffers[i] == d.buffers[i]
  {
    D.StoredElsewhere(d.buffers, d.fill, d.pos + done, rest, d.pos);
  }

  /** Nobody else copies when the mutex holder releases it. */
  lemma MutexRelease(d: Dev, d': Dev, calls: Calls, t: nat, pc: WritePc)
    requires ShapeOk(d) && ShapeOk(d') && MutexOk(d, Some(t), calls) && !pc.Copying?
    ensures MutexOk(d', None, calls[t := pc])
  {
  }

  lemma CopyFaultKeeps(m: Machine, t: nat, rest: seq<byte>)
    requires Inv(m) && Enabled(m, CopyFault(t, rest))
    ensures Inv(Step(m, CopyFault(t, rest)))
  {
    var m' := Step(m, CopyFault(t, rest));
    assert CopyOk(m.dev, m.calls[t]);
    CopyFaultData(m.dev, m.calls[t].n, m.calls[t].done, rest);
    SlotsSameBuffers(m.dev, m'.dev, m.closed, m.freed);
    MutexRelease(m.dev, m'.dev, m.calls, t, m'.calls[t]);
    CreditOtherCall(m'.dev, m.flag, m.calls, m.worker, m.raising, t, m'.calls[t]);
    LogOtherCall(m.calls, m.log, t, m'.calls[t]);
  }

  /** The device data after the open buffer is closed. */
  function Closed(d: Dev): Dev {
    CommitWrite(d.(pos := BUF_SIZE), d.fill, 0).0
  }

  /** Closing the full open buffer occupies the next slot with its contents. */
  lemma CloseData(d: Dev, closed: seq<seq<byte>>, freed: nat)
    requires ShapeOk(d) && SlotsOk(d) && HoldOk(d, closed, freed) && CanWrite(d)
    ensures var d' := Closed(d);
            && ShapeOk(d') && SlotsOk(d') && HoldOk(d', closed + [d.buffers[d.fill]], freed)
            && (Occupancy(d) > 0 ==> d'.waiting[d.nextUp])
            && (d.waiting[d.nextUp] ==> Current(closed + [d.buffers[d.fill]], freed) == Current(closed, freed))
  {
  }

  lemma TokenClose(d: Dev, c: seq<byte>, c': seq<byte>, worker: Worker, engine: Option<Transfer>, cookie: nat)
    requires ShapeOk(d) && TokenOk(d, c, worker, engine, cookie) && CanWrite(d) && ShapeOk(Closed(d))
    requires d.waiting[d.nextUp] ==> c' == c
    ensures TokenOk(Closed(d), c', worker, engine, cookie)
  {
  }

  lemma DeliveredClose(unfreed: bool, closed: seq<seq<byte>>, delivered: seq<seq<byte>>, freed: nat, c: seq<byte>)
    requires DeliveredOk(unfreed, closed, delivered, freed)
    ensures DeliveredOk(unfreed, closed + [c], delivered, freed)
  {
  }

  /** A write that fills the buffer closes it and has yet to raise the event. */
  lemma FullWriteKeeps(m: Machine, t: nat)
    requires Inv(m) && Enabled(m, FinishWrite(t)) && m.dev.pos + m.calls[t].n == BUF_SIZE
    ensures Inv(Step(m, FinishWrite(t)))
  {
    var m', pc, c := Step(m, FinishWrite(t)), m.calls[t], Current(m.closed, m.freed);
    assert CopyOk(m.dev, pc) && m.mutex == Some(t);
    assert m'.dev == Closed(m.dev) && m'.calls[t] == Raising(pc.user, pc.n);
    assert OpenBytes(m.dev, pc.n) == m.dev.buffers[m.dev.fill];
    LogCommit(m.calls, m.log, t, m'.calls[t], pc.user[..pc.n]);
    MutexRelease(m.dev, m'.dev, m.calls, t, m'.calls[t]);
    CloseData(m.dev, m.closed, m.freed);
    TokenClose(m.dev, c, Current(m'.closed, m.freed), m.worker, m.engine, m.cookie);
    DeliveredClose(Unfreed(m.dev.finished, m.worker), m.closed, m.delivered, m.freed, m.dev.buffers[m.dev.fill]);
    assert t in m'.calls && m'.calls[t].Raising?;
  }

  /** A write that does not only moves `pos`. */
  lemma PartialWriteKeeps(m: Machine, t: nat)
    requires Inv(m) && Enabled(m, FinishWrite(t)) && m.dev.pos + m.calls[t].n < BUF_SIZE
    ensures Inv(Step(m, FinishWrite(t)))
  {
    var m', pc := Step(m, FinishWrite(t)), m.calls[t];
    assert CopyOk(m.dev, pc) && m.mutex == Some(t);
    assert m'.dev == m.dev.(pos := m.dev.pos + pc.n);
    LogCommit(m.calls, m.log, t, m'.calls[t], pc.user[..pc.n]);
    MutexRelease(m.dev, m'.dev, m.calls, t, m'.calls[t]);
    CreditOtherCall(m'.dev, m.flag, m.calls, m.worker, m.raising, t, m'.calls[t]);
  }

  lemma FinishWriteKeeps(m: Machine, t: nat)
    requires Inv(m) && Enabled(m, FinishWrite(t))
    ensures Inv(Step(m, FinishWrite(t)))
  {
    assert CopyOk(m.dev, m.calls[t]);
    if m.dev.pos + m.calls[t].n == BUF_SIZE {
      FullWriteKeeps(m, t);
    } else {
      PartialWriteKeeps(m, t);
    }
  }

  lemma RaiseKeeps(m: Machine, t: nat)
    requires Inv(m) && Enabled(m, Raise(t))
    ensures Inv(Step(m, Raise(t)))
  {
    LogOtherCall(m.calls, m.log, t, Step(m, Raise(t)).calls[t]);
  }

  // ---------------------------------------------------------------- worker, engine, callback, removal

  lemma WorkerCountKeeps(m: Machine, e: Event)
    requires Inv(m) && (e == WorkerWake || e == WorkerRead || e == WorkerDecrement) && Enabled(m, e)
    ensures Inv(Step(m, e))
  {
  }

  lemma WorkerSampleKeeps(m: Machine)
    requires Inv(m) && Enabled(m, WorkerSample)
    ensures Inv(Step(m, WorkerSample))
  {
  }

  /** Freeing a finished slot and starting the next one keep the slots in order and their chunks in place. */
  lemma DecideData(d: Dev, busy: bool, finished: bool, closed: seq<seq<byte>>, freed: nat)
    requires ShapeOk(d) && SlotsOk(d) && HoldOk(d, closed, freed)
    requires (!busy ==> !d.running && !d.finished) && (finished ==> !busy && d.waiting[d.nextUp])
    ensures var (d', start) := Decide(d, busy, finished);
            && ShapeOk(d') && SlotsOk(d') && HoldOk(d', closed, if finished then freed + 1 else freed)
            && d'.finished == d.finished
            && (start.Some? ==> d'.running && start.value == d'.nextUp && d'.waiting[d'.nextUp])
            && (start.None? ==> d'.running == d.running && (!busy ==> !d'.waiting[d'.nextUp]))
            && (busy ==> d' == d)
  {
  }

  lemma WorkerDecideKeeps(m: Machine)
    requires Inv(m) && Enabled(m, WorkerDecide)
    ensures Inv(Step(m, WorkerDecide))
  {
    DecideData(m.dev, m.worker.busy, m.worker.finished, m.closed, m.freed);
  }

  lemma WorkerSetupKeeps(m: Machine, e: Event)
    requires Inv(m) && (e == WorkerPrepare || e == WorkerPad || e == WorkerSubmit) && Enabled(m, e)
    ensures Inv(Step(m, e))
  {
    assert AlignedLength(BUF_SIZE) == BUF_SIZE;
  }

  lemma EngineKeeps(m: Machine, e: Event)
    requires Inv(m) && e in {Transmit, TransferDone, TransferError} && Enabled(m, e)
    ensures Inv(Step(m, e))
  {
  }

  /** A good completion leaves the slots as they are and the current chunk delivered but not freed. */
  lemma CompleteData(d: Dev, x: Transfer, cookie: nat, worker: Worker, closed: seq<seq<byte>>,
                     delivered: seq<seq<byte>>, freed: nat)
    requires ShapeOk(d) && SlotsOk(d) && HoldOk(d, closed, freed)
    requires DeliveredOk(Unfreed(d.finished, worker), closed, delivered, freed)
    requires TokenOk(d, Current(closed, freed), worker, Some(x), cookie) && x.status == Completed
    ensures var d' := Complete(d);
            && ShapeOk(d') && SlotsOk(d') && HoldOk(d', closed, freed)
            && DeliveredOk(Unfreed(d'.finished, worker), closed, delivered + [x.sent], freed)
            && TokenOk(d', Current(closed, freed), worker, None, cookie)
  {
  }

  /** Only the open buffer's shape matters to a copy. */
  lemma MutexSameSlots(d: Dev, d': Dev, mutex: Option<nat>, calls: Calls)
    requires ShapeOk(d) && ShapeOk(d') && MutexOk(d, mutex, calls)
    requires d'.buffers == d.buffers && d'.waiting == d.waiting && d'.fill == d.fill && d'.pos == d.pos
    ensures MutexOk(d', mutex, calls)
  {
    forall t | IsCopying(calls, t)
      ensures CopyOk(d', calls[t])
    {
      assert CopyOk(d, calls[t]);
    }
  }

  lemma CallbackKeeps(m: Machine)
    requires Inv(m) && Enabled(m, Callback)
    ensures Inv(Step(m, Callback))
  {
    var m', x := Step(m, Callback), m.engine.value;
    if CookieStatus(x, m.cookie) == Completed {
      CompleteData(m.dev, x, m.cookie, m.worker, m.closed, m.delivered, m.freed);
      MutexSameSlots(m.dev, m'.dev, m.mutex, m.calls);
    } else {
      assert m' == m.(engine := Some(x.(status := FailedSeen)));
    }
  }

  lemma CallbackRaiseKeeps(m: Machine)
    requires Inv(m) && Enabled(m, CallbackRaise)
    ensures Inv(Step(m, CallbackRaise))
  {
  }

  lemma RemoveKeeps(m: Machine)
    requires Inv(m) && Enabled(m, Remove)
    ensures Inv(Step(m, Remove))
  {
  }

  lemma StepKeeps(m: Machine, e: Event)
    requires Inv(m) && Enabled(m, e)
    ensures Inv(Step(m, e))
  {
    match e
    case BeginWrite(t, user) => BeginWriteKeeps(m, t, user);
    case CopyByte(t) => CopyByteKeeps(m, t);
    case CopyFault(t, rest) => CopyFaultKeeps(m, t, rest);
    case FinishWrite(t) => FinishWriteKeeps(m, t);
    case Raise(t) => RaiseKeeps(m, t);
    case WorkerWake => WorkerCountKeeps(m, e);
    case WorkerRead => WorkerCountKeeps(m, e);
    case WorkerDecrement => WorkerCountKeeps(m, e);
    case WorkerSample => WorkerSampleKeeps(m);
    case WorkerDecide => WorkerDecideKeeps(m);
    case WorkerPrepare => WorkerSetupKeeps(m, e);
    case WorkerPad => WorkerSetupKeeps(m, e);
    case WorkerSubmit => WorkerSetupKeeps(m, e);
    case Transmit => EngineKeeps(m, e);
    case TransferDone => EngineKeeps(m, e);
    case TransferError => EngineKeeps(m, e);
    case Callback => CallbackKeeps(m);
    case CallbackRaise => CallbackRaiseKeeps(m);
    case Remove => RemoveKeeps(m);
  }

  /** The invariant holds in every state of every run. */
  lemma {:induction false} RunKeeps(m: Machine, es: seq<Event>)
    requires Inv(m) && Legal(m, es)
    ensures Inv(Run(m, es))
  {
    if es != [] {
      RunKeeps(m, es[..|es| - 1]);
      StepKeeps(Run(m, es[..|es| - 1]), es[|es| - 1]);
    }
  }
}
