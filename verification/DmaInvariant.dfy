/**
 The inductive invariant of the built driver's protocol, and its preservation by every step.
 Each part of the invariant speaks only about the fields it needs.
 */
module DmaInvariant {
  import opened Frames
  import opened DmaSections
  import opened Transfers
  import opened DmaProtocol

  predicate ShapeOk(d: Dev) {
    && |d.buffers| == 2 && |d.buffers[0]| == BUF_SIZE && |d.buffers[1]| == BUF_SIZE
    && d.fill in {0, 1} && d.active in {-1, 0, 1} && 0 <= d.pos < BUF_SIZE
  }

  /** How many closed chunks the pair (active, fill) says are outstanding. */
  function Occupancy(d: Dev): nat {
    if d.active == -1 then 0 else if d.active != d.fill then 1 else 2
  }

  /** The chunk being sent: the oldest closed one that is not delivered. */
  function Current(closed: seq<seq<byte>>, delivered: seq<seq<byte>>): seq<byte> {
    if |delivered| < |closed| then closed[|delivered|] else []
  }

  /** Closed chunks match the occupancy, and delivered frames are their padded images. */
  ghost predicate HistoryOk(occupancy: nat, closed: seq<seq<byte>>, delivered: seq<seq<byte>>) {
    && |closed| == |delivered| + occupancy
    && (forall i :: 0 <= i < |closed| ==> IsChunk(closed[i]))
    && (forall i :: 0 <= i < |delivered| ==> delivered[i] == Padded(closed[i]))
  }

  /** With both buffers closed the open chunk is empty and the other buffer holds the second one. */
  ghost predicate WaitingOk(d: Dev, closed: seq<seq<byte>>)
    requires ShapeOk(d)
  {
    Occupancy(d) == 2 ==>
      && d.pos == 0 && closed != []
      && var last := closed[|closed| - 1];
         d.nextBuffCount == |last| <= BUF_SIZE && d.buffers[1 - d.active][..|last|] == last
  }

  ghost predicate CopyOk(d: Dev, pc: Pc)
    requires ShapeOk(d) && pc.Copying?
  {
    && pc.buf == d.fill && d.fill != d.active
    && pc.n == WriteCount(d.pos, |pc.user|) && 0 < pc.n && pc.done <= pc.n
    && d.buffers[pc.buf][d.pos..d.pos + pc.done] == pc.user[..pc.done]
  }

  /** The mutex is held exactly by the copying call. */
  ghost predicate MutexOk(d: Dev, mutex: Option<nat>, calls: Calls)
    requires ShapeOk(d)
  {
    && (forall t :: IsCopying(calls, t) ==> mutex == Some(t) && CopyOk(d, calls[t]))
    && (mutex.Some? ==> IsCopying(calls, mutex.value))
  }

  /** A transfer being set up: the claimed buffer holds the chunk and the zeros written so far. */
  ghost predicate JobOk(d: Dev, c: seq<byte>, j: Job)
    requires ShapeOk(d)
  {
    && IsChunk(c)
    && j.buf == d.active && j.buf != -1
    && j.count == |c| && j.aligned == |Padded(c)|
    && |c| <= j.next <= j.aligned <= BUF_SIZE
    && d.buffers[j.buf][..j.next] == Padded(c)[..j.next]
  }

  /** A transfer on the wire: the buffer holds the frame, and what was read is a prefix of it. */
  ghost predicate TransferOk(d: Dev, c: seq<byte>, x: Transfer, cookie: nat)
    requires ShapeOk(d)
  {
    && IsChunk(c)
    && x.buf == d.active && x.buf != -1
    && x.id == cookie
    && x.len == |Padded(c)| <= BUF_SIZE
    && d.buffers[x.buf][..x.len] == Padded(c)
    && |x.sent| <= x.len && x.sent == Padded(c)[..|x.sent|]
    && (x.status == Completed ==> |x.sent| == x.len)
  }

  /**
   The single transfer token: while a buffer is active exactly one of a call's setup, the
   callback's setup and the engine owns it; while none is active, none of them does.
   */
  ghost predicate TokenOk(d: Dev, c: seq<byte>, calls: Calls, callback: CallbackPc,
                          engine: Option<Transfer>, cookie: nat)
    requires ShapeOk(d)
  {
    && (forall t, u :: Setting(calls, t) && Setting(calls, u) ==> t == u)
    && (forall t :: Setting(calls, t) ==> !callback.CbPreparing? && engine.None? && JobOk(d, c, calls[t].job))
    && (callback.CbPreparing? ==> engine.None? && JobOk(d, c, callback.job))
    && (engine.Some? ==> TransferOk(d, c, engine.value, cookie))
    && (d.active != -1 ==> engine.Some? || callback.CbPreparing? || exists t :: Setting(calls, t))
  }

  /** A sleeping poller that could write is about to be woken. */
  ghost predicate PollOk(writable: bool, callback: CallbackPc, pollers: map<nat, PollPc>) {
    forall p :: p in pollers && pollers[p] == Sleeping(false) && writable ==> !callback.CbIdle?
  }

  /** A write call past its commit that reports accepted bytes. */
  predicate Committed(calls: Calls, t: nat) {
    t in calls && !calls[t].Copying? && calls[t].call.WriteCall? && calls[t].ret > 0
  }

  function Outcomes(calls: Calls): map<nat, Outcome> {
    map t | t in calls && Committed(calls, t) :: Outcome(calls[t].call.user, calls[t].ret)
  }

  ghost predicate Inv(m: Machine) {
    && ShapeOk(m.dev)
    && HistoryOk(Occupancy(m.dev), m.closed, m.delivered)
    && WaitingOk(m.dev, m.closed)
    && MutexOk(m.dev, m.mutex, m.calls)
    && TokenOk(m.dev, Current(m.closed, m.delivered), m.calls, m.callback, m.engine, m.cookie)
    && m.cookie == m.issued
    && PollOk(CanWrite(m.dev), m.callback, m.pollers)
    && LogExact(Outcomes(m.calls), m.log)
  }

  lemma InitialInv(b0: seq<byte>, b1: seq<byte>)
    requires |b0| == BUF_SIZE && |b1| == BUF_SIZE
    ensures Inv(Initial(b0, b1))
  {
  }

  // ---------------------------------------------------------------- parts under updates of one call

  /** A call that neither had nor gets a transfer to set up does not touch the token. */
  lemma TokenOtherCall(d: Dev, c: seq<byte>, calls: Calls, t: nat, pc: Pc, callback: CallbackPc,
                       engine: Option<Transfer>, cookie: nat)
    requires ShapeOk(d) && TokenOk(d, c, calls, callback, engine, cookie)
    requires !Setting(calls, t) && !pc.Preparing?
    ensures TokenOk(d, c, calls[t := pc], callback, engine, cookie)
  {
    var calls' := calls[t := pc];
    assert forall u :: Setting(calls', u) ==> Setting(calls, u);
    assert forall u :: Setting(calls, u) ==> Setting(calls', u);
  }

  /** A call that reports nothing yet, or the same as before, keeps the outcomes. */
  lemma LogOtherCall(calls: Calls, log: seq<Accepted>, t: nat, pc: Pc)
    requires LogExact(Outcomes(calls), log)
    requires !Committed(calls, t) ==> pc.Copying? || !pc.call.WriteCall? || pc.ret <= 0
    requires Committed(calls, t) ==> !pc.Copying? && pc.call == calls[t].call && pc.ret == calls[t].ret
    ensures LogExact(Outcomes(calls[t := pc]), log)
  {
    assert Outcomes(calls[t := pc]) == Outcomes(calls);
  }

  lemma LogCommit(calls: Calls, log: seq<Accepted>, t: nat, pc: Pc, bytes: seq<byte>)
    requires LogExact(Outcomes(calls), log) && !Committed(calls, t)
    requires !pc.Copying? && pc.call.WriteCall? && pc.ret == |bytes| > 0 && bytes <= pc.call.user
    ensures LogExact(Outcomes(calls[t := pc]), log + [Accepted(t, bytes)])
  {
    LogAppend(Outcomes(calls), log, t, pc.call.user, bytes);
    assert Outcomes(calls[t := pc]) == Outcomes(calls)[t := Outcome(pc.call.user, |bytes|)];
  }

  lemma MutexOtherCall(d: Dev, mutex: Option<nat>, calls: Calls, t: nat, pc: Pc)
    requires ShapeOk(d) && MutexOk(d, mutex, calls)
    requires t in calls ==> !calls[t].Copying?
    requires !pc.Copying?
    ensures MutexOk(d, mutex, calls[t := pc])
  {
  }

  /** Nobody else copies when the mutex holder releases it, nor when it is free. */
  lemma MutexRelease(d: Dev, d': Dev, mutex: Option<nat>, calls: Calls, t: nat, pc: Pc)
    requires ShapeOk(d) && ShapeOk(d') && MutexOk(d, mutex, calls) && !pc.Copying?
    requires mutex == Some(t) || mutex.None?
    ensures MutexOk(d', None, calls[t := pc])
  {
  }

  // ---------------------------------------------------------------- the writer

  lemma BeginWriteKeeps(m: Machine, t: nat, user: seq<byte>)
    requires Inv(m) && Enabled(m, BeginWrite(t, user))
    ensures Inv(Step(m, BeginWrite(t, user)))
  {
    var pc := Step(m, BeginWrite(t, user)).calls[t];
    TokenOtherCall(m.dev, Current(m.closed, m.delivered), m.calls, t, pc, m.callback, m.engine, m.cookie);
    LogOtherCall(m.calls, m.log, t, pc);
  }

  /** The copied byte lands in the open buffer past `pos`; everything else about the data stays. */
  lemma CopyByteData(d: Dev, pc: Pc, d': Dev, pc': Pc)
    requires ShapeOk(d) && pc.Copying? && CopyOk(d, pc) && pc.done < pc.n
    requires d' == d.(buffers := Store(d.buffers, pc.buf, d.pos + pc.done, pc.user[pc.done]))
    requires pc' == pc.(done := pc.done + 1)
    ensures ShapeOk(d') && CopyOk(d', pc')
    ensures d.active != -1 ==> d'.buffers[d.active] == d.buffers[d.active]
  {
    var b := d.buffers[pc.buf];
    assert d'.buffers[pc.buf][d.pos..d.pos + pc.done + 1] == b[d.pos..d.pos + pc.done] + [pc.user[pc.done]];
  }

  lemma CopyByteKeeps(m: Machine, t: nat)
    requires Inv(m) && Enabled(m, CopyByte(t))
    ensures Inv(Step(m, CopyByte(t)))
  {
    var m' := Step(m, CopyByte(t));
    CopyByteData(m.dev, m.calls[t], m'.dev, m'.calls[t]);
    TokenSameBuffer(m.dev, m'.dev, Current(m.closed, m.delivered), m.calls, m.callback, m.engine, m.cookie);
    TokenOtherCall(m'.dev, Current(m.closed, m.delivered), m.calls, t, m'.calls[t], m.callback, m.engine, m.cookie);
    LogOtherCall(m.calls, m.log, t, m'.calls[t]);
  }

  /** The token part only looks at the active buffer. */
  lemma TokenSameBuffer(d: Dev, d': Dev, c: seq<byte>, calls: Calls, callback: CallbackPc,
                        engine: Option<Transfer>, cookie: nat)
    requires ShapeOk(d) && ShapeOk(d') && TokenOk(d, c, calls, callback, engine, cookie)
    requires d'.active == d.active && (d.active != -1 ==> d'.buffers[d.active] == d.buffers[d.active])
    ensures TokenOk(d', c, calls, callback, engine, cookie)
  {
  }

  /** A faulting copy spoils at most the open buffer past `pos`. */
  lemma CopyFaultData(d: Dev, n: int, done: nat, rest: seq<byte>)
    requires ShapeOk(d) && d.pos + n <= BUF_SIZE && done <= n && |rest| == n - done
    ensures var d' := d.(buffers := StoreBytes(d.buffers, d.fill, d.pos + done, rest));
            && ShapeOk(d') && d'.buffers[1 - d.fill] == d.buffers[1 - d.fill]
            && d'.buffers[d.fill][..d.pos] == d.buffers[d.fill][..d.pos]
  {
    StoredElsewhere(d.buffers, d.fill, d.pos + done, rest, d.pos);
  }

  lemma CopyFaultKeeps(m: Machine, t: nat, rest: seq<byte>)
    requires Inv(m) && Enabled(m, CopyFault(t, rest))
    ensures Inv(Step(m, CopyFault(t, rest)))
  {
    var m', c := Step(m, CopyFault(t, rest)), Current(m.closed, m.delivered);
    assert CopyOk(m.dev, m.calls[t]);
    CopyFaultData(m.dev, m.calls[t].n, m.calls[t].done, rest);
    TokenSameBuffer(m.dev, m'.dev, c, m.calls, m.callback, m.engine, m.cookie);
    TokenOtherCall(m'.dev, c, m.calls, t, m'.calls[t], m.callback, m.engine, m.cookie);
    MutexRelease(m.dev, m'.dev, m.mutex, m.calls, t, m'.calls[t]);
    LogOtherCall(m.calls, m.log, t, m'.calls[t]);
  }

  // ---------------------------------------------------------------- closing a chunk

  /** The device data after the open buffer is closed with `len` bytes in it. */
  function Closed(d: Dev, len: int): Dev {
    d.(active := if d.active == -1 then d.fill else d.active, nextBuffCount := len,
       fill := NextBuffer(d.fill), pos := 0)
  }

  lemma CloseData(d: Dev, len: nat, closed: seq<seq<byte>>, delivered: seq<seq<byte>>)
    requires ShapeOk(d) && CanWrite(d) && 0 < len <= BUF_SIZE
    requires HistoryOk(Occupancy(d), closed, delivered)
    ensures var d', chunk := Closed(d, len), d.buffers[d.fill][..len];
            var closed' := closed + [chunk];
            && ShapeOk(d') && HistoryOk(Occupancy(d'), closed', delivered) && WaitingOk(d', closed')
            && (d.active == -1 ==>
                  JobOk(d', Current(closed', delivered), NewJob(Claim(d.fill, len))))
            && (d.active != -1 ==> Current(closed', delivered) == Current(closed, delivered))
  {
  }

  /** With no buffer active nobody owns a transfer, so a call may claim one. */
  lemma TokenClaim(d: Dev, c: seq<byte>, calls: Calls, callback: CallbackPc, engine: Option<Transfer>,
                   cookie: nat, d': Dev, c': seq<byte>, t: nat, pc: Pc)
    requires ShapeOk(d) && TokenOk(d, c, calls, callback, engine, cookie) && d.active == -1
    requires ShapeOk(d') && pc.Preparing? && JobOk(d', c', pc.job)
    ensures TokenOk(d', c', calls[t := pc], callback, engine, cookie)
  {
    var calls' := calls[t := pc];
    forall u | Setting(calls', u)
      ensures u == t
    {
      if u != t {
        assert Setting(calls, u);
      }
    }
    assert Setting(calls', t);
  }

  /** Closing a chunk gives the token to the closing call if none was active, else leaves it. */
  lemma TokenClose(d: Dev, len: nat, closed: seq<seq<byte>>, delivered: seq<seq<byte>>, calls: Calls,
                   callback: CallbackPc, engine: Option<Transfer>, cookie: nat, t: nat, call: Call, ret: int)
    requires ShapeOk(d) && CanWrite(d) && 0 < len <= BUF_SIZE && HistoryOk(Occupancy(d), closed, delivered)
    requires TokenOk(d, Current(closed, delivered), calls, callback, engine, cookie) && !Setting(calls, t)
    ensures var claim := if d.active == -1 then Some(Claim(d.fill, len)) else None;
            var c' := Current(closed + [d.buffers[d.fill][..len]], delivered);
            ShapeOk(Closed(d, len))
            && TokenOk(Closed(d, len), c', calls[t := After(call, claim, ret)], callback, engine, cookie)
  {
    CloseData(d, len, closed, delivered);
    var c, c' := Current(closed, delivered), Current(closed + [d.buffers[d.fill][..len]], delivered);
    if d.active == -1 {
      TokenClaim(d, c, calls, callback, engine, cookie, Closed(d, len), c', t,
                 After(call, Some(Claim(d.fill, len)), ret));
    } else {
      TokenSameBuffer(d, Closed(d, len), c, calls, callback, engine, cookie);
      TokenOtherCall(Closed(d, len), c, calls, t, After(call, None, ret), callback, engine, cookie);
    }
  }

  /** A write that fills the buffer closes it. */
  lemma FullWriteKeeps(m: Machine, t: nat)
    requires Inv(m) && Enabled(m, FinishWrite(t)) && m.dev.pos + m.calls[t].n == BUF_SIZE
    ensures Inv(Step(m, FinishWrite(t)))
  {
    var m', pc := Step(m, FinishWrite(t)), m.calls[t];
    assert CopyOk(m.dev, pc) && m.mutex == Some(t);
    assert m'.dev == Closed(m.dev, BUF_SIZE);
    assert m'.closed == m.closed + [m.dev.buffers[m.dev.fill][..BUF_SIZE]];
    LogCommit(m.calls, m.log, t, m'.calls[t], pc.user[..pc.n]);
    MutexRelease(m.dev, m'.dev, m.mutex, m.calls, t, m'.calls[t]);
    CloseData(m.dev, BUF_SIZE, m.closed, m.delivered);
    TokenClose(m.dev, BUF_SIZE, m.closed, m.delivered, m.calls, m.callback, m.engine, m.cookie,
               t, WriteCall(pc.user), pc.n);
  }

  /** A write that does not only moves `pos`. */
  lemma PartialWriteKeeps(m: Machine, t: nat)
    requires Inv(m) && Enabled(m, FinishWrite(t)) && m.dev.pos + m.calls[t].n < BUF_SIZE
    ensures Inv(Step(m, FinishWrite(t)))
  {
    var m', pc, c := Step(m, FinishWrite(t)), m.calls[t], Current(m.closed, m.delivered);
    assert CopyOk(m.dev, pc) && m.mutex == Some(t);
    assert m'.dev == m.dev.(pos := m.dev.pos + pc.n);
    LogCommit(m.calls, m.log, t, m'.calls[t], pc.user[..pc.n]);
    MutexRelease(m.dev, m'.dev, m.mutex, m.calls, t, m'.calls[t]);
    TokenSameBuffer(m.dev, m'.dev, c, m.calls, m.callback, m.engine, m.cookie);
    TokenOtherCall(m'.dev, c, m.calls, t, m'.calls[t], m.callback, m.engine, m.cookie);
  }

  lemma FinishWriteKeeps(m: Machine, t: nat)
    requires Inv(m) && Enabled(m, FinishWrite(t))
    ensures Inv(Step(m, FinishWrite(t)))
  {
    assert CopyOk(m.dev, m.calls[t]);
    if m.dev.pos + m.calls[t].n == BUF_SIZE {
      FullWriteKeeps(m, t);
    } else {
      PartialWriteKeeps(m, t);
    }
  }

  lemma FlushKeeps(m: Machine, t: nat, value: int)
    requires Inv(m) && Enabled(m, Flush(t, value))
    ensures Inv(Step(m, Flush(t, value)))
  {
    var m' := Step(m, Flush(t, value));
    var d, c := m.dev, Current(m.closed, m.delivered);
    LogOtherCall(m.calls, m.log, t, m'.calls[t]);
    if value == 1 && d.pos != 0 && CanWrite(d) {
      assert m'.dev == Closed(d, d.pos);
      CloseData(d, d.pos, m.closed, m.delivered);
      TokenClose(d, d.pos, m.closed, m.delivered, m.calls, m.callback, m.engine, m.cookie,
                 t, FlushCall(value), d.pos);
      MutexRelease(d, m'.dev, m.mutex, m.calls, t, m'.calls[t]);
    } else {
      TokenOtherCall(d, c, m.calls, t, m'.calls[t], m.callback, m.engine, m.cookie);
      MutexOtherCall(d, m.mutex, m.calls, t, m'.calls[t]);
    }
  }

  // ---------------------------------------------------------------- padding, submission, the engine

  /** A padding zero extends the claimed buffer's frame and touches neither the copy nor the waiting chunk. */
  lemma PadData(d: Dev, c: seq<byte>, j: Job, mutex: Option<nat>, calls: Calls, closed: seq<seq<byte>>)
    requires ShapeOk(d) && JobOk(d, c, j) && j.next < j.aligned
    requires MutexOk(d, mutex, calls) && WaitingOk(d, closed)
    ensures var d' := d.(buffers := Store(d.buffers, j.buf, j.next, 0));
            ShapeOk(d') && JobOk(d', c, Pad(j)) && MutexOk(d', mutex, calls) && WaitingOk(d', closed)
  {
  }

  lemma PadByteKeeps(m: Machine, t: nat)
    requires Inv(m) && Enabled(m, PadByte(t))
    ensures Inv(Step(m, PadByte(t)))
  {
    var m' := Step(m, PadByte(t));
    var c := Current(m.closed, m.delivered);
    assert Setting(m.calls, t);
    PadData(m.dev, c, m.calls[t].job, m.mutex, m.calls, m.closed);
    MutexOtherCall(m'.dev, m.mutex, m.calls, t, m'.calls[t]);
    LogOtherCall(m.calls, m.log, t, m'.calls[t]);
    forall u | Setting(m'.calls, u)
      ensures u == t
    {
      assert Setting(m.calls, u);
    }
    assert Setting(m'.calls, t);
  }

  lemma CallbackPadKeeps(m: Machine)
    requires Inv(m) && Enabled(m, CallbackPad)
    ensures Inv(Step(m, CallbackPad))
  {
    PadData(m.dev, Current(m.closed, m.delivered), m.callback.job, m.mutex, m.calls, m.closed);
  }

  /** Submitting hands the finished frame to the engine under a fresh cookie. */
  lemma IssueData(d: Dev, c: seq<byte>, j: Job, id: nat)
    requires ShapeOk(d) && JobOk(d, c, j) && j.next >= j.aligned
    ensures TransferOk(d, c, Transfer(id, j.buf, j.aligned, [], InProgress), id)
  {
  }

  lemma SubmitKeeps(m: Machine, t: nat)
    requires Inv(m) && Enabled(m, Submit(t))
    ensures Inv(Step(m, Submit(t)))
  {
    var m' := Step(m, Submit(t));
    assert Setting(m.calls, t);
    IssueData(m.dev, Current(m.closed, m.delivered), m.calls[t].job, m.issued + 1);
    MutexOtherCall(m.dev, m.mutex, m.calls, t, m'.calls[t]);
    LogOtherCall(m.calls, m.log, t, m'.calls[t]);
    forall u
      ensures !Setting(m'.calls, u)
    {
      assert Setting(m'.calls, u) ==> Setting(m.calls, u);
    }
  }

  lemma CallbackSubmitKeeps(m: Machine)
    requires Inv(m) && Enabled(m, CallbackSubmit)
    ensures Inv(Step(m, CallbackSubmit))
  {
    IssueData(m.dev, Current(m.closed, m.delivered), m.callback.job, m.issued + 1);
  }

  /** While the engine owns the token a step of the engine keeps it. */
  lemma TokenEngine(d: Dev, c: seq<byte>, calls: Calls, callback: CallbackPc, x: Transfer, x': Transfer, cookie: nat)
    requires ShapeOk(d) && TokenOk(d, c, calls, callback, Some(x), cookie) && TransferOk(d, c, x', cookie)
    ensures TokenOk(d, c, calls, callback, Some(x'), cookie)
  {
  }

  lemma EngineKeeps(m: Machine, e: Event)
    requires Inv(m) && e in {Transmit, TransferDone, TransferError} && Enabled(m, e)
    ensures Inv(Step(m, e))
  {
    var x, x' := m.engine.value, Step(m, e).engine.value;
    var c := Current(m.closed, m.delivered);
    if e == Transmit {
      assert m.dev.buffers[x.buf][|x.sent|] == m.dev.buffers[x.buf][..x.len][|x.sent|];
    }
    TokenEngine(m.dev, c, m.calls, m.callback, x, x', m.cookie);
  }

  // ---------------------------------------------------------------- the callback

  /** A good completion delivers the current frame; the waiting chunk, if any, becomes current. */
  lemma CompleteData(d: Dev, x: Transfer, cookie: nat, closed: seq<seq<byte>>, delivered: seq<seq<byte>>)
    requires ShapeOk(d) && HistoryOk(Occupancy(d), closed, delivered) && WaitingOk(d, closed)
    requires TransferOk(d, Current(closed, delivered), x, cookie) && x.status == Completed
    ensures var (d', claim) := Complete(d); var delivered' := delivered + [x.sent];
            && ShapeOk(d') && HistoryOk(Occupancy(d'), closed, delivered') && WaitingOk(d', closed)
            && (claim.Some? ==> JobOk(d', Current(closed, delivered'), NewJob(claim.value)))
            && (claim.None? ==> d'.active == -1)
  {
    AlignedLeast(|closed[|closed| - 1]|);
  }

  lemma CallbackKeeps(m: Machine)
    requires Inv(m) && Enabled(m, Callback)
    ensures Inv(Step(m, Callback))
  {
    var m' := Step(m, Callback);
    var c, x := Current(m.closed, m.delivered), m.engine.value;
    if CookieStatus(m.engine.value, m.cookie) != Completed {
      TokenEngine(m.dev, c, m.calls, m.callback, x, x.(status := FailedSeen), m.cookie);
    } else {
      CompleteData(m.dev, x, m.cookie, m.closed, m.delivered);
      forall t | IsCopying(m.calls, t)
        ensures CopyOk(m'.dev, m.calls[t])
      {
        assert CopyOk(m.dev, m.calls[t]);
      }
    }
  }

  lemma WakeKeeps(m: Machine)
    requires Inv(m) && Enabled(m, CallbackWake)
    ensures Inv(Step(m, CallbackWake))
  {
  }

  // ---------------------------------------------------------------- poll

  lemma PollKeeps(m: Machine, e: Event)
    requires Inv(m) && (e.PollEnqueue? || e.PollCheck? || e.PollRetry?) && Enabled(m, e)
    ensures Inv(Step(m, e))
  {
  }

  // ---------------------------------------------------------------- every step, every run

  lemma StepKeeps(m: Machine, e: Event)
    requires Inv(m) && Enabled(m, e)
    ensures Inv(Step(m, e))
  {
    match e
    case BeginWrite(t, user) => BeginWriteKeeps(m, t, user);
    case CopyByte(t) => CopyByteKeeps(m, t);
    case CopyFault(t, rest) => CopyFaultKeeps(m, t, rest);
    case FinishWrite(t) => FinishWriteKeeps(m, t);
    case Flush(t, value) => FlushKeeps(m, t, value);
    case PadByte(t) => PadByteKeeps(m, t);
    case Submit(t) => SubmitKeeps(m, t);
    case Transmit => EngineKeeps(m, e);
    case TransferDone => EngineKeeps(m, e);
    case TransferError => EngineKeeps(m, e);
    case Callback => CallbackKeeps(m);
    case CallbackPad => CallbackPadKeeps(m);
    case CallbackSubmit => CallbackSubmitKeeps(m);
    case CallbackWake => WakeKeeps(m);
    case PollEnqueue(p) => PollKeeps(m, e);
    case PollCheck(p) => PollKeeps(m, e);
    case PollRetry(p) => PollKeeps(m, e);
  }

  /** The invariant holds in every state of every run. */
  lemma {:induction false} RunKeeps(m: Machine, es: seq<Event>)
    requires Inv(m) && Legal(m, es)
    ensures Inv(Run(m, es))
  {
    if es != [] {
      RunKeeps(m, es[..|es| - 1]);
      StepKeeps(Run(m, es[..|es| - 1]), es[|es| - 1]);
    }
  }
}
