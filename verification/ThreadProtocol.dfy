/**
 The kernel-thread design as a labelled step machine: writers, the worker thread with its
 separate read and decrement of the event counter, the completion callback with its separate
 increment, the DMA engine, and the removal that asks the worker to stop.
 */
module ThreadProtocol {
  import opened Frames
  import D = DmaSections
  import opened Transfers
  import opened ThreadSections

  /** A writer that closed a buffer still has to raise the event before it returns. */
  datatype WritePc =
    | Copying(user: seq<byte>, buf: int, n: int, done: nat)
    | Raising(user: seq<byte>, ret: int)
    | Returned(user: seq<byte>, ret: int)

  /** The worker: waiting for events, read and decrement, the two sections, and the setup. */
  datatype Worker =
    | Waiting
    | Awake
    | Read(flag: int)
    | Sampling
    | Deciding(busy: bool, finished: bool)
    | Starting(buf: int)
    | Preparing(job: Job)
    | Exited

  /**
   `flag` is wait_flag; `raising` says that the callback has yet to increment it. `log`, `closed`
   and `delivered` are history as in the built driver; `freed` counts the slots freed and
   `stopped` records that removal has asked the worker to stop.
   */
  datatype Machine = Machine(
    dev: Dev,
    flag: int,
    mutex: Option<nat>,
    calls: map<nat, WritePc>,
    worker: Worker,
    raising: bool,
    engine: Option<Transfer>,
    cookie: nat,
    issued: nat,
    stopped: bool,
    log: seq<Accepted>,
    closed: seq<seq<byte>>,
    delivered: seq<seq<byte>>,
    freed: nat)

  datatype Event =
    | BeginWrite(t: nat, user: seq<byte>)
    | CopyByte(t: nat)
    | CopyFault(t: nat, rest: seq<byte>)
    | FinishWrite(t: nat)
    | Raise(t: nat)
    | WorkerWake
    | WorkerRead
    | WorkerDecrement
    | WorkerSample
    | WorkerDecide
    | WorkerPrepare
    | WorkerPad
    | WorkerSubmit
    | Transmit
    | TransferDone
    | TransferError
    | Callback
    | CallbackRaise
    | Remove

  function Initial(b0: seq<byte>, b1: seq<byte>): Machine {
    Machine(InitialDev(b0, b1), 0, None, map[], Waiting, false, None, 0, 0, false, [], [], [], 0)
  }

  predicate IsCopying(calls: map<nat, WritePc>, t: nat) {
    t in calls && calls[t].Copying?
  }

  predicate Enabled(m: Machine, e: Event) {
    match e
    case BeginWrite(t, _) => t !in m.calls && m.mutex.None?
    case CopyByte(t) =>
      IsCopying(m.calls, t) && m.calls[t].done < m.calls[t].n && m.calls[t].done < |m.calls[t].user|
    case CopyFault(t, rest) =>
      IsCopying(m.calls, t) && m.calls[t].done < m.calls[t].n && |rest| == m.calls[t].n - m.calls[t].done
    case FinishWrite(t) => IsCopying(m.calls, t) && m.calls[t].done == m.calls[t].n
    case Raise(t) => t in m.calls && m.calls[t].Raising?
    case WorkerWake => m.worker == Waiting && m.flag > 0
    case WorkerRead => m.worker == Awake
    case WorkerDecrement => m.worker.Read?
    case WorkerSample => m.worker == Sampling
    case WorkerDecide => m.worker.Deciding? && m.mutex.None?
    case WorkerPrepare => m.worker.Starting?
    case WorkerPad => m.worker.Preparing? && m.worker.job.next < m.worker.job.aligned
    case WorkerSubmit => m.worker.Preparing? && m.worker.job.next >= m.worker.job.aligned
    case Transmit =>
      m.engine.Some? && m.engine.value.status == InProgress && |m.engine.value.sent| < m.engine.value.len
    case TransferDone =>
      m.engine.Some? && m.engine.value.status == InProgress && |m.engine.value.sent| == m.engine.value.len
    case TransferError => m.engine.Some? && m.engine.value.status == InProgress
    case Callback => !m.raising && m.engine.Some? && m.engine.value.status in {Completed, Failed}
    case CallbackRaise => m.raising
    case Remove => !m.stopped
  }

  /** The filled part of the open buffer, `extra` bytes past `pos`. */
  function OpenBytes(d: Dev, extra: int): seq<byte> {
    Filled(d.buffers, d.fill, d.pos + extra)
  }

  function StepBeginWrite(m: Machine, t: nat, user: seq<byte>): Machine {
    if CanWrite(m.dev) then
      var n := D.WriteCount(m.dev.pos, |user|);
      if n == 0 then m.(calls := m.calls[t := Returned(user, -D.ENOMEM)])
      else m.(mutex := Some(t), calls := m.calls[t := Copying(user, m.dev.fill, n, 0)])
    else m.(calls := m.calls[t := Returned(user, 0)])
  }

  function StepFinishWrite(m: Machine, t: nat): Machine
    requires IsCopying(m.calls, t)
  {
    var pc := m.calls[t];
    var (dev, full) := CommitWrite(m.dev, pc.buf, pc.n);
    var bytes := if 0 <= pc.n <= |pc.user| then pc.user[..pc.n] else [];
    m.(dev := dev, mutex := None,
       calls := m.calls[t := if full then Raising(pc.user, pc.n) else Returned(pc.user, pc.n)],
       log := m.log + [Accepted(t, bytes)],
       closed := if full then m.closed + [OpenBytes(m.dev, pc.n)] else m.closed)
  }

  function StepDecide(m: Machine): Machine
    requires m.worker.Deciding?
  {
    var (dev, start) := Decide(m.dev, m.worker.busy, m.worker.finished);
    m.(dev := dev, worker := if start.Some? then Starting(start.value) else Waiting,
       freed := if m.worker.finished then m.freed + 1 else m.freed)
  }

  function StepCallback(m: Machine): Machine
    requires m.engine.Some?
  {
    if CookieStatus(m.engine.value, m.cookie) != Completed then
      m.(engine := Some(m.engine.value.(status := FailedSeen)))
    else m.(dev := Complete(m.dev), engine := None, raising := true,
            delivered := m.delivered + [m.engine.value.sent])
  }

  function StartedJob(d: Dev, buf: int): Job {
    NewJob(D.Claim(buf, if 0 <= buf < |d.counts| then d.counts[buf] else 0))
  }

  function Step(m: Machine, e: Event): Machine
    requires Enabled(m, e)
  {
    match e
    case BeginWrite(t, user) => StepBeginWrite(m, t, user)
    case CopyByte(t) =>
      var pc := m.calls[t];
      m.(dev := m.dev.(buffers := D.Store(m.dev.buffers, pc.buf, m.dev.pos + pc.done, pc.user[pc.done])),
         calls := m.calls[t := pc.(done := pc.done + 1)])
    case CopyFault(t, rest) =>
      var pc := m.calls[t];
      m.(dev := m.dev.(buffers := D.StoreBytes(m.dev.buffers, pc.buf, m.dev.pos + pc.done, rest)),
         mutex := None, calls := m.calls[t := Returned(pc.user, -D.EFAULT)])
    case FinishWrite(t) => StepFinishWrite(m, t)
    case Raise(t) => m.(flag := m.flag + 1, calls := m.calls[t := Returned(m.calls[t].user, m.calls[t].ret)])
    case WorkerWake => m.(worker := Awake)
    case WorkerRead => m.(worker := Read(m.flag))
    case WorkerDecrement =>
      m.(flag := m.flag - 1, worker := if m.worker.flag < THREAD_STOP then Sampling else Exited)
    case WorkerSample =>
      var (dev, busy, finished) := Sample(m.dev);
      m.(dev := dev, worker := Deciding(busy, finished))
    case WorkerDecide => StepDecide(m)
    case WorkerPrepare => m.(worker := Preparing(StartedJob(m.dev, m.worker.buf)))
    case WorkerPad =>
      var j := m.worker.job;
      m.(dev := m.dev.(buffers := D.Store(m.dev.buffers, j.buf, j.next, 0)), worker := Preparing(Pad(j)))
    case WorkerSubmit =>
      m.(engine := Some(Issued(m.worker.job, m.issued + 1)),
         cookie := m.issued + 1, issued := m.issued + 1, worker := Waiting)
    case Transmit =>
      var x := m.engine.value;
      m.(engine := Some(x.(sent := x.sent + [EngineByte(m.dev.buffers, x)])))
    case TransferDone => m.(engine := Some(m.engine.value.(status := Completed)))
    case TransferError => m.(engine := Some(m.engine.value.(status := Failed)))
    case Callback => StepCallback(m)
    case CallbackRaise => m.(flag := m.flag + 1, raising := false)
    case Remove => m.(flag := SET_THREAD_STOP, stopped := true)
  }

  predicate Legal(m: Machine, es: seq<Event>)
    decreases |es|, 0
  {
    es == [] || (Legal(m, es[..|es| - 1]) && Enabled(Run(m, es[..|es| - 1]), es[|es| - 1]))
  }

  function Run(m: Machine, es: seq<Event>): Machine
    requires Legal(m, es)
    decreases |es|, 1
  {
    if es == [] then m else Step(Run(m, es[..|es| - 1]), es[|es| - 1])
  }
}
