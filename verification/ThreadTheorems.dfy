/**
 What the kernel-thread design guarantees over every run: it refines the same two-slot queue as
 the built driver, never loses work, and obeys the stop request.
 */
module ThreadTheorems {
  import opened Frames
  import F = Fifo
  import opened Transfers
  import opened ThreadSections
  import opened ThreadProtocol
  import opened ThreadInvariant

  ghost predicate Reachable(m: Machine) {
    exists b0: seq<byte>, b1: seq<byte>, es: seq<Event> ::
      |b0| == BUF_SIZE && |b1| == BUF_SIZE && Legal(Initial(b0, b1), es) && m == Run(Initial(b0, b1), es)
  }

  lemma ReachableInv(m: Machine)
    requires Reachable(m)
    ensures Inv(m)
  {
    var b0: seq<byte>, b1: seq<byte>, es: seq<Event> :|
      |b0| == BUF_SIZE && |b1| == BUF_SIZE && Legal(Initial(b0, b1), es) && m == Run(Initial(b0, b1), es);
    InitialInv(b0, b1);
    ThreadInvariant.RunKeeps(Initial(b0, b1), es);
  }

  // ---------------------------------------------------------------- refinement

  /** The queue a machine state stands for: a chunk leaves it when the worker frees its slot. */
  function Abs(m: Machine): F.Queue
    requires m.freed <= |m.closed|
  {
    F.Queue(Bytes(m.log), m.closed[..m.freed], m.closed[m.freed..], OpenBytes(m.dev, 0))
  }

  function OpOf(m: Machine, e: Event): F.Op
    requires Enabled(m, e)
  {
    match e
    case FinishWrite(t) =>
      if 0 <= m.calls[t].n <= |m.calls[t].user| then F.Append(m.calls[t].user[..m.calls[t].n]) else F.Stutter
    case WorkerDecide => if m.worker.finished then F.Deliver else F.Stutter
    case _ => F.Stutter
  }

  lemma FilledExtends(d: Dev, pc: WritePc)
    requires ShapeOk(d) && pc.Copying? && CopyOk(d, pc) && pc.done == pc.n
    ensures d.pos + pc.n <= BUF_SIZE && pc.n <= |pc.user|
    ensures OpenBytes(d, pc.n) == OpenBytes(d, 0) + pc.user[..pc.n]
  {
  }

  lemma FinishWriteRefines(m: Machine, t: nat)
    requires Inv(m) && Enabled(m, FinishWrite(t))
    ensures var m', op := Step(m, FinishWrite(t)), OpOf(m, FinishWrite(t));
            m'.freed <= |m'.closed| && F.Admits(Abs(m), op) && Abs(m') == F.Apply(Abs(m), op)
  {
    var m', pc, d := Step(m, FinishWrite(t)), m.calls[t], m.dev;
    FilledExtends(d, pc);
    FinishApplies(m, t);
  }

  lemma FinishApplies(m: Machine, t: nat)
    requires Enabled(m, FinishWrite(t)) && ShapeOk(m.dev)
    requires |m.closed| == m.freed + Occupancy(m.dev) && !m.dev.waiting[m.dev.fill]
    requires var d, pc := m.dev, m.calls[t];
             && 0 < pc.n <= |pc.user| && d.pos + pc.n <= BUF_SIZE && pc.buf == d.fill
             && OpenBytes(d, pc.n) == OpenBytes(d, 0) + pc.user[..pc.n]
    ensures var m', op := Step(m, FinishWrite(t)), OpOf(m, FinishWrite(t));
            m'.freed <= |m'.closed| && F.Admits(Abs(m), op) && Abs(m') == F.Apply(Abs(m), op)
  {
    var m', pc, d := Step(m, FinishWrite(t)), m.calls[t], m.dev;
    var q := Abs(m);
    assert Bytes(m'.log) == Bytes(m.log) + [pc.user[..pc.n]];
    if d.pos + pc.n >= BUF_SIZE {
      assert m'.closed[m.freed..] == q.waiting + [q.open + pc.user[..pc.n]];
      assert m'.closed[..m.freed] == q.delivered;
    }
  }

  lemma DecideRefines(m: Machine)
    requires Inv(m) && Enabled(m, WorkerDecide)
    ensures var m', op := Step(m, WorkerDecide), OpOf(m, WorkerDecide);
            m'.freed <= |m'.closed| && F.Admits(Abs(m), op) && Abs(m') == F.Apply(Abs(m), op)
  {
    var m', q := Step(m, WorkerDecide), Abs(m);
    DecideData(m.dev, m.worker.busy, m.worker.finished, m.closed, m.freed);
    if m.worker.finished {
      assert q.waiting[0] == m.closed[m.freed];
      assert m'.closed[..m'.freed] == q.delivered + [q.waiting[0]];
      assert m'.closed[m'.freed..] == q.waiting[1..];
    }
  }

  lemma CopyByteRefines(m: Machine, t: nat)
    requires Inv(m) && Enabled(m, CopyByte(t))
    ensures var m' := Step(m, CopyByte(t)); m'.freed <= |m'.closed| && Abs(m') == Abs(m)
  {
    var m' := Step(m, CopyByte(t));
    assert CopyOk(m.dev, m.calls[t]);
    assert m'.dev.buffers[m.dev.fill][..m.dev.pos] == m.dev.buffers[m.dev.fill][..m.dev.pos];
  }

  lemma CopyFaultRefines(m: Machine, t: nat, rest: seq<byte>)
    requires Inv(m) && Enabled(m, CopyFault(t, rest))
    ensures var m' := Step(m, CopyFault(t, rest)); m'.freed <= |m'.closed| && Abs(m') == Abs(m)
  {
    assert CopyOk(m.dev, m.calls[t]);
    CopyFaultData(m.dev, m.calls[t].n, m.calls[t].done, rest);
  }

  /** Only whole buffers are sent, so none needs padding. */
  lemma NeverPads(m: Machine)
    requires Inv(m)
    ensures !Enabled(m, WorkerPad)
  {
  }

  /** The remaining steps touch neither the history nor the open chunk. */
  lemma OtherRefines(m: Machine, e: Event)
    requires m.freed <= |m.closed| && Enabled(m, e) && e != WorkerPad
    requires !e.FinishWrite? && !e.CopyByte? && !e.CopyFault? && e != WorkerDecide
    ensures var m' := Step(m, e); m'.freed <= |m'.closed| && Abs(m') == Abs(m)
  {
    var m', d := Step(m, e), m.dev;
    assert m'.dev.buffers == d.buffers && m'.dev.pos == d.pos && m'.dev.fill == d.fill;
    assert m'.log == m.log && m'.closed == m.closed && m'.freed == m.freed;
  }

  /** Every step performs its queue operation on the abstraction. */
  lemma StepRefines(m: Machine, e: Event)
    requires Inv(m) && Enabled(m, e)
    ensures var m', op := Step(m, e), OpOf(m, e);
            m'.freed <= |m'.closed| && F.Admits(Abs(m), op) && Abs(m') == F.Apply(Abs(m), op)
  {
    if e.FinishWrite? {
      FinishWriteRefines(m, e.t);
    } else if e == WorkerDecide {
      DecideRefines(m);
    } else if e.CopyByte? {
      CopyByteRefines(m, e.t);
    } else if e.CopyFault? {
      CopyFaultRefines(m, e.t, e.rest);
    } else {
      NeverPads(m);
      OtherRefines(m, e);
    }
  }

  function OpsOf(m: Machine, es: seq<Event>): seq<F.Op>
    requires Legal(m, es)
  {
    if es == [] then []
    else OpsOf(m, es[..|es| - 1]) + [OpOf(Run(m, es[..|es| - 1]), es[|es| - 1])]
  }

  /** Refinement: every run of the thread design is a run of the two-slot queue. */
  lemma {:induction false} RunRefines(b0: seq<byte>, b1: seq<byte>, es: seq<Event>)
    requires |b0| == BUF_SIZE && |b1| == BUF_SIZE && Legal(Initial(b0, b1), es)
    ensures var m, ops := Run(Initial(b0, b1), es), OpsOf(Initial(b0, b1), es);
            m.freed <= |m.closed| && F.Legal(F.EMPTY, ops) && F.Run(F.EMPTY, ops) == Abs(m)
  {
    if es == [] {
      assert Abs(Initial(b0, b1)) == F.EMPTY;
    } else {
      var es', e := es[..|es| - 1], es[|es| - 1];
      RunRefines(b0, b1, es');
      InitialInv(b0, b1);
      ThreadInvariant.RunKeeps(Initial(b0, b1), es');
      var m := Run(Initial(b0, b1), es');
      StepRefines(m, e);
      var ops, ops' := OpsOf(Initial(b0, b1), es), OpsOf(Initial(b0, b1), es');
      assert ops[..|ops| - 1] == ops' && ops[|ops| - 1] == OpOf(m, e);
    }
  }

  /** Buffer `b` is waiting and is exactly chunk `c`. */
  predicate Occupies(d: Dev, b: int, c: seq<byte>) {
    0 <= b < |d.buffers| && IsSet(d.waiting, b) && d.buffers[b] == c
  }

  /**
   Slots and stream. The true entries of buffer_waiting_DMA are the outstanding chunks in order
   from next_buff_up, the fill buffer is the slot after them, only the slot at next_buff_up is
   ever in flight, a finished transfer is not running; and the accepted bytes are the freed
   chunks, the outstanding ones and the open bytes, with every delivered frame one of the chunks.
   */
  lemma SlotsInOrder(m: Machine)
    requires Reachable(m)
    ensures ShapeOk(m.dev) && InOrder(m.dev, m.closed, m.freed) && InFlight(m.dev, m.engine, m.cookie)
    ensures Flatten(Bytes(m.log)) == Flatten(m.closed) + OpenBytes(m.dev, 0)
    ensures m.freed <= |m.delivered| <= m.freed + 1 && m.delivered <= m.closed
  {
    ReachableInv(m);
    ReachableQueue(m);
    QueueStream(m);
    SlotsHold(m.dev, m.closed, m.freed);
    TransferInFlight(m.dev, Current(m.closed, m.freed), m.worker, m.engine, m.cookie);
  }

  ghost predicate InOrder(d: Dev, closed: seq<seq<byte>>, freed: nat)
    requires ShapeOk(d)
  {
    var n := Occupancy(d);
    && |closed| == freed + n
    && (n >= 1 ==> Occupies(d, d.nextUp, closed[freed]))
    && (n == 2 ==> Occupies(d, 1 - d.nextUp, closed[freed + 1]) && d.pos == 0)
    && d.fill == (if n == 1 then 1 - d.nextUp else d.nextUp)
    && (CanWrite(d) <==> n < 2)
  }

  predicate InFlight(d: Dev, engine: Option<Transfer>, cookie: nat) {
    && (d.finished ==> !d.running)
    && (engine.Some? ==> engine.value.buf == d.nextUp && d.running && engine.value.id == cookie)
  }

  lemma SlotsHold(d: Dev, closed: seq<seq<byte>>, freed: nat)
    requires ShapeOk(d) && SlotsOk(d) && HoldOk(d, closed, freed)
    ensures InOrder(d, closed, freed)
  {
  }

  lemma TransferInFlight(d: Dev, c: seq<byte>, worker: Worker, engine: Option<Transfer>, cookie: nat)
    requires ShapeOk(d) && SlotsOk(d) && TokenOk(d, c, worker, engine, cookie)
    ensures InFlight(d, engine, cookie)
  {
  }

  lemma QueueStream(m: Machine)
    requires m.freed <= |m.closed| && F.Conserved(Abs(m))
    ensures Flatten(Bytes(m.log)) == Flatten(m.closed) + OpenBytes(m.dev, 0)
  {
    assert m.closed[..m.freed] + m.closed[m.freed..] == m.closed;
  }

  lemma ReachableQueue(m: Machine)
    requires Reachable(m)
    ensures m.freed <= |m.closed| && F.Inv(Abs(m))
  {
    var b0: seq<byte>, b1: seq<byte>, es: seq<Event> :|
      |b0| == BUF_SIZE && |b1| == BUF_SIZE && Legal(Initial(b0, b1), es) && m == Run(Initial(b0, b1), es);
    RunRefines(b0, b1, es);
    F.RunKeeps(OpsOf(Initial(b0, b1), es));
  }

  // ---------------------------------------------------------------- no lost work

  /**
   Until the counter makes the worker leave: if the oldest buffer waits and no transfer runs, or a
   finished buffer is not freed, then an event is counted, or a writer or the callback is about to
   count one, or the worker is mid-iteration and will act on it.
   */
  lemma NoLostWork(m: Machine)
    requires Reachable(m) && !Leaving(m.worker)
    ensures ShapeOk(m.dev)
    ensures m.dev.finished || (!m.dev.running && IsSet(m.dev.waiting, m.dev.nextUp)) ==>
              m.flag > 0 || m.raising || (exists t :: Enabled(m, Raise(t))) || WillAct(m.worker)
  {
    ReachableInv(m);
    if t :| t in m.calls && m.calls[t].Raising? {
      assert Enabled(m, Raise(t));
    }
  }

  /**
   Acting on it means freeing the finished slot and starting the next: when the worker decides
   without a transfer running, the oldest waiting buffer, if there is one, is started.
   */
  lemma WorkerActs(m: Machine)
    requires Reachable(m) && Enabled(m, WorkerDecide) && !m.worker.busy
    ensures var d' := Step(m, WorkerDecide).dev;
            && !d'.finished
            && Step(m, WorkerDecide).worker == (if IsSet(d'.waiting, d'.nextUp) then Starting(d'.nextUp) else Waiting)
            && d'.running == IsSet(d'.waiting, d'.nextUp)
    ensures Step(m, WorkerDecide).freed == m.freed + if m.worker.finished then 1 else 0
  {
    ReachableInv(m);
    DecideData(m.dev, m.worker.busy, m.worker.finished, m.closed, m.freed);
  }

  /** Nothing is left to do but begin new writes, fail, or remove the driver. */
  ghost predicate Quiet(m: Machine) {
    forall e :: Enabled(m, e) ==> e.BeginWrite? || e.CopyFault? || e.TransferError? || e.Remove?
  }

  /**
   The event counting cannot get stuck: when every started step has finished, no transfer has
   failed and the worker has not been told to leave, every closed chunk has been delivered.
   */
  lemma QuietIsDrained(m: Machine)
    requires Reachable(m) && Quiet(m) && !Leaving(m.worker)
    requires m.engine.Some? ==> m.engine.value.status == InProgress || m.engine.value.status == Completed
    ensures m.worker == Waiting && m.flag == 0
    ensures ShapeOk(m.dev) && Occupancy(m.dev) == 0
    ensures m.delivered == m.closed
  {
    ReachableInv(m);
    QuietInv(m);
  }

  lemma QuietWriters(m: Machine)
    requires ShapeOk(m.dev) && MutexOk(m.dev, m.mutex, m.calls) && Quiet(m)
    ensures m.mutex.None? && !SomeRaising(m.calls)
  {
    assert m.mutex.Some? ==>
        var t := m.mutex.value;
        CopyOk(m.dev, m.calls[t]) && (Enabled(m, CopyByte(t)) || Enabled(m, FinishWrite(t)));
    assert forall t :: t in m.calls && m.calls[t].Raising? ==> Enabled(m, Raise(t));
  }

  lemma QuietWorker(m: Machine)
    requires Quiet(m) && m.mutex.None? && m.worker != Exited
    ensures m.worker == Waiting && m.flag <= 0 && !m.raising
  {
    assert !Enabled(m, WorkerWake) && !Enabled(m, WorkerRead) && !Enabled(m, WorkerDecrement);
    assert !Enabled(m, WorkerSample) && !Enabled(m, WorkerDecide) && !Enabled(m, WorkerPrepare);
    assert !Enabled(m, WorkerPad) && !Enabled(m, WorkerSubmit) && !Enabled(m, CallbackRaise);
  }

  lemma QuietEngine(m: Machine)
    requires Quiet(m) && !m.raising
    requires m.engine.Some? ==>
               m.engine.value.status in {InProgress, Completed} && |m.engine.value.sent| <= m.engine.value.len
    ensures m.engine.None?
  {
    assert !Enabled(m, Transmit) && !Enabled(m, TransferDone) && !Enabled(m, Callback);
  }

  lemma QuietInv(m: Machine)
    requires Inv(m) && Quiet(m) && !Leaving(m.worker)
    requires m.engine.Some? ==> m.engine.value.status == InProgress || m.engine.value.status == Completed
    ensures m.worker == Waiting && m.flag == 0 && Occupancy(m.dev) == 0 && m.delivered == m.closed
  {
    QuietWriters(m);
    QuietWorker(m);
    QuietEngine(m);
  }

  // ---------------------------------------------------------------- the stop handshake

  /** One if the worker has read the counter below the stop mark and not yet begun its iteration. */
  function Underway(worker: Worker): nat {
    if worker == Sampling || (worker.Read? && worker.flag < THREAD_STOP) then 1 else 0
  }

  /** Iterations begun in a run. */
  function Iterations(es: seq<Event>): nat {
    if es == [] then 0
    else Iterations(es[..|es| - 1]) + if es[|es| - 1] == WorkerSample then 1 else 0
  }

  function Reads(es: seq<Event>): nat {
    if es == [] then 0
    else Reads(es[..|es| - 1]) + if es[|es| - 1] == WorkerRead then 1 else 0
  }

  /**
   Once removal has stored the stop value, for every interleaving with increments and with the
   worker's separate read and decrement: at most the iteration already committed to still begins,
   and the next read of the counter is the last one and makes the worker leave.
   */
  lemma {:induction false} StopObeyed(m: Machine, es: seq<Event>)
    requires Inv(m) && m.stopped && Legal(m, es)
    ensures var m' := Run(m, es);
            && Inv(m') && m'.stopped
            && Iterations(es) + Underway(m'.worker) <= Underway(m.worker)
            && (Reads(es) > 0 ==> Leaving(m'.worker))
            && (Leaving(m.worker) ==> Leaving(m'.worker) && Reads(es) == 0)
            && Reads(es) <= 1
  {
    if es != [] {
      var es', e := es[..|es| - 1], es[|es| - 1];
      StopObeyed(m, es');
      StepKeeps(Run(m, es'), e);
      StopStep(Run(m, es'), e);
    }
  }

  lemma StopStep(m: Machine, e: Event)
    requires Inv(m) && m.stopped && Enabled(m, e)
    ensures var m' := Step(m, e);
            && m'.stopped
            && (if e == WorkerSample then 1 else 0) + Underway(m'.worker) <= Underway(m.worker)
            && (e == WorkerRead ==> Leaving(m'.worker) && !Leaving(m.worker))
            && (Leaving(m.worker) ==> Leaving(m'.worker))
  {
  }

  /** And it does get there: a stopped worker that waits is always woken. */
  lemma StopWakes(m: Machine)
    requires Reachable(m) && m.stopped && m.worker == Waiting
    ensures Enabled(m, WorkerWake) && m.flag >= 1000
  {
    ReachableInv(m);
  }
}
