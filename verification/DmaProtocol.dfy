/**
 The built driver as a labelled step machine. Any number of dma_write, sysfs flush and poll
 calls, the DMA engine and the completion callback interleave. A step is one locked section
 (taking the mutex joins the section that follows it, releasing it the one before), one byte
 of a copy from user space, one byte of zero padding, or one byte read by the engine. A copy that
 faults leaves whatever it likes in the bytes that did not arrive.
 */
module DmaProtocol {
  import opened Frames
  import opened DmaSections
  import opened Transfers

  datatype Call = WriteCall(user: seq<byte>) | FlushCall(value: int)

  /** Where a call is. A call that has the mutex across steps is `Copying`. */
  datatype Pc =
    | Copying(user: seq<byte>, buf: int, n: int, done: nat)
    | Preparing(call: Call, job: Job, ret: int)
    | Returned(call: Call, ret: int)

  type Calls = map<nat, Pc>

  datatype CallbackPc = CbIdle | CbPreparing(job: Job) | CbWaking

  datatype PollPc = Queued(triggered: bool) | Sleeping(triggered: bool) | Writable

  /**
   `log`, `closed` and `delivered` are history: the accepted prefixes in mutex order, the chunks
   closed by a full write or a flush, and the frames the engine sent. No step reads them.
   */
  datatype Machine = Machine(
    dev: Dev,
    mutex: Option<nat>,
    calls: Calls,
    callback: CallbackPc,
    engine: Option<Transfer>,
    cookie: nat,
    issued: nat,
    pollers: map<nat, PollPc>,
    log: seq<Accepted>,
    closed: seq<seq<byte>>,
    delivered: seq<seq<byte>>)

  datatype Event =
    | BeginWrite(t: nat, user: seq<byte>)
    | CopyByte(t: nat)
    | CopyFault(t: nat, rest: seq<byte>)
    | FinishWrite(t: nat)
    | Flush(t: nat, value: int)
    | PadByte(t: nat)
    | Submit(t: nat)
    | Transmit
    | TransferDone
    | TransferError
    | Callback
    | CallbackPad
    | CallbackSubmit
    | CallbackWake
    | PollEnqueue(p: nat)
    | PollCheck(p: nat)
    | PollRetry(p: nat)

  function Initial(b0: seq<byte>, b1: seq<byte>): Machine {
    Machine(InitialDev(b0, b1), None, map[], CbIdle, None, 0, 0, map[], [], [], [])
  }

  predicate IsCopying(calls: Calls, t: nat) {
    t in calls && calls[t].Copying?
  }

  /** The call holds a claimed buffer and is setting up its transfer. */
  predicate Setting(calls: Calls, t: nat) {
    t in calls && calls[t].Preparing?
  }

  predicate Enabled(m: Machine, e: Event) {
    match e
    case BeginWrite(t, _) => t !in m.calls && m.mutex.None?
    case CopyByte(t) =>
      IsCopying(m.calls, t) && m.calls[t].done < m.calls[t].n && m.calls[t].done < |m.calls[t].user|
    case CopyFault(t, rest) =>
      IsCopying(m.calls, t) && m.calls[t].done < m.calls[t].n && |rest| == m.calls[t].n - m.calls[t].done
    case FinishWrite(t) => IsCopying(m.calls, t) && m.calls[t].done == m.calls[t].n
    case Flush(t, value) => t !in m.calls && (value == 1 ==> m.mutex.None?)
    case PadByte(t) => Setting(m.calls, t) && m.calls[t].job.next < m.calls[t].job.aligned
    case Submit(t) => Setting(m.calls, t) && m.calls[t].job.next >= m.calls[t].job.aligned
    case Transmit =>
      m.engine.Some? && m.engine.value.status == InProgress && |m.engine.value.sent| < m.engine.value.len
    case TransferDone =>
      m.engine.Some? && m.engine.value.status == InProgress && |m.engine.value.sent| == m.engine.value.len
    case TransferError => m.engine.Some? && m.engine.value.status == InProgress
    case Callback => m.callback.CbIdle? && m.engine.Some? && m.engine.value.status in {Completed, Failed}
    case CallbackPad => m.callback.CbPreparing? && m.callback.job.next < m.callback.job.aligned
    case CallbackSubmit => m.callback.CbPreparing? && m.callback.job.next >= m.callback.job.aligned
    case CallbackWake => m.callback.CbWaking?
    case PollEnqueue(p) => p !in m.pollers
    case PollCheck(p) => p in m.pollers && m.pollers[p].Queued?
    case PollRetry(p) => p in m.pollers && m.pollers[p] == Sleeping(true)
  }

  /** After a locked section: go on to set up the transfer if one was claimed, else return. */
  function After(call: Call, claim: Option<Claim>, ret: int): Pc {
    if claim.Some? then Preparing(call, NewJob(claim.value), ret) else Returned(call, ret)
  }

  function StepBeginWrite(m: Machine, t: nat, user: seq<byte>): Machine {
    if CanWrite(m.dev) then
      var n := WriteCount(m.dev.pos, |user|);
      if n == 0 then m.(calls := m.calls[t := Returned(WriteCall(user), -ENOMEM)])
      else m.(mutex := Some(t), calls := m.calls[t := Copying(user, m.dev.fill, n, 0)])
    else m.(calls := m.calls[t := Returned(WriteCall(user), 0)])
  }

  function StepFinishWrite(m: Machine, t: nat): Machine
    requires IsCopying(m.calls, t)
  {
    var pc := m.calls[t];
    var (dev, claim) := CommitWrite(m.dev, pc.buf, pc.n);
    var bytes := if 0 <= pc.n <= |pc.user| then pc.user[..pc.n] else [];
    var closed := if m.dev.pos + pc.n >= BUF_SIZE then m.closed + [OpenBytes(m.dev, pc.n)] else m.closed;
    m.(dev := dev, mutex := None, calls := m.calls[t := After(WriteCall(pc.user), claim, pc.n)],
       log := m.log + [Accepted(t, bytes)], closed := closed)
  }

  /** The filled part of the open buffer, `extra` bytes past `pos`. */
  function OpenBytes(d: Dev, extra: int): seq<byte> {
    Filled(d.buffers, d.fill, d.pos + extra)
  }

  function StepFlush(m: Machine, t: nat, value: int): Machine {
    if value != 1 then m.(calls := m.calls[t := Returned(FlushCall(value), -EINVAL)])
    else
      var (dev, claim, ret) := CommitFlush(m.dev);
      m.(dev := dev, calls := m.calls[t := After(FlushCall(value), claim, ret)],
         closed := if ret > 0 then m.closed + [OpenBytes(m.dev, 0)] else m.closed)
  }

  function Issue(m: Machine, j: Job): Machine {
    m.(engine := Some(Issued(j, m.issued + 1)), cookie := m.issued + 1, issued := m.issued + 1)
  }

  function StepCallback(m: Machine): Machine
    requires m.engine.Some?
  {
    if CookieStatus(m.engine.value, m.cookie) != Completed then
      m.(engine := Some(m.engine.value.(status := FailedSeen)))
    else
      var (dev, claim) := Complete(m.dev);
      m.(dev := dev, engine := None, delivered := m.delivered + [m.engine.value.sent],
         callback := if claim.Some? then CbPreparing(NewJob(claim.value)) else CbWaking)
  }

  function Trigger(p: PollPc): PollPc {
    if p.Writable? then p else p.(triggered := true)
  }

  function StepPollCheck(m: Machine, p: nat): Machine
    requires p in m.pollers && m.pollers[p].Queued?
  {
    m.(pollers := m.pollers[p := if CanWrite(m.dev) then Writable else Sleeping(m.pollers[p].triggered)])
  }

  function Step(m: Machine, e: Event): Machine
    requires Enabled(m, e)
  {
    match e
    case BeginWrite(t, user) => StepBeginWrite(m, t, user)
    case CopyByte(t) =>
      var pc := m.calls[t];
      m.(dev := m.dev.(buffers := Store(m.dev.buffers, pc.buf, m.dev.pos + pc.done, pc.user[pc.done])),
         calls := m.calls[t := pc.(done := pc.done + 1)])
    case CopyFault(t, rest) =>
      var pc := m.calls[t];
      m.(dev := m.dev.(buffers := StoreBytes(m.dev.buffers, pc.buf, m.dev.pos + pc.done, rest)),
         mutex := None, calls := m.calls[t := Returned(WriteCall(pc.user), -EFAULT)])
    case FinishWrite(t) => StepFinishWrite(m, t)
    case Flush(t, value) => StepFlush(m, t, value)
    case PadByte(t) =>
      var pc := m.calls[t];
      m.(dev := m.dev.(buffers := Store(m.dev.buffers, pc.job.buf, pc.job.next, 0)),
         calls := m.calls[t := pc.(job := Pad(pc.job))])
    case Submit(t) =>
      Issue(m, m.calls[t].job).(calls := m.calls[t := Returned(m.calls[t].call, m.calls[t].ret)])
    case Transmit =>
      var x := m.engine.value;
      m.(engine := Some(x.(sent := x.sent + [EngineByte(m.dev.buffers, x)])))
    case TransferDone => m.(engine := Some(m.engine.value.(status := Completed)))
    case TransferError => m.(engine := Some(m.engine.value.(status := Failed)))
    case Callback => StepCallback(m)
    case CallbackPad =>
      var j := m.callback.job;
      m.(dev := m.dev.(buffers := Store(m.dev.buffers, j.buf, j.next, 0)), callback := CbPreparing(Pad(j)))
    case CallbackSubmit => Issue(m, m.callback.job).(callback := CbWaking)
    case CallbackWake =>
      m.(callback := CbIdle, pollers := map p | p in m.pollers :: Trigger(m.pollers[p]))
    case PollEnqueue(p) => m.(pollers := m.pollers[p := Queued(false)])
    case PollCheck(p) => StepPollCheck(m, p)
    case PollRetry(p) => m.(pollers := m.pollers[p := Queued(false)])
  }

  /** A run: every event is enabled when its turn comes. */
  predicate Legal(m: Machine, es: seq<Event>)
    decreases |es|, 0
  {
    es == [] || (Legal(m, es[..|es| - 1]) && Enabled(Run(m, es[..|es| - 1]), es[|es| - 1]))
  }

  function Run(m: Machine, es: seq<Event>): Machine
    requires Legal(m, es)
    decreases |es|, 1
  {
    if es == [] then m else Step(Run(m, es[..|es| - 1]), es[|es| - 1])
  }
}
