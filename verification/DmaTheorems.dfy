/**
 What the built driver guarantees over every run of its protocol: it refines the two-slot queue,
 conserves the byte stream, has one owner per transfer, keeps claimed buffers stable, submits
 aligned frames, drains, and never loses a poll wakeup.
 */
module DmaTheorems {
  import opened Frames
  import F = Fifo
  import opened DmaSections
  import opened Transfers
  import opened DmaProtocol
  import opened DmaInvariant

  // ---------------------------------------------------------------- refinement

  /** The queue a machine state stands for. */
  function Abs(m: Machine): F.Queue
    requires |m.delivered| <= |m.closed|
  {
    F.Queue(Bytes(m.log), m.closed[..|m.delivered|], m.closed[|m.delivered|..], OpenBytes(m.dev, 0))
  }

  /** The queue operation a step performs; most steps perform none. */
  function OpOf(m: Machine, e: Event): F.Op
    requires Enabled(m, e)
  {
    match e
    case FinishWrite(t) =>
      if 0 <= m.calls[t].n <= |m.calls[t].user| then F.Append(m.calls[t].user[..m.calls[t].n]) else F.Stutter
    case Flush(_, value) => if value == 1 && CommitFlush(m.dev).2 > 0 then F.Close else F.Stutter
    case Callback => if CookieStatus(m.engine.value, m.cookie) == Completed then F.Deliver else F.Stutter
    case _ => F.Stutter
  }

  /** A complete copy extends the filled part of the open buffer by the caller's bytes. */
  lemma FilledExtends(d: Dev, pc: Pc)
    requires ShapeOk(d) && pc.Copying? && CopyOk(d, pc) && pc.done == pc.n
    ensures d.pos + pc.n <= BUF_SIZE && pc.n <= |pc.user|
    ensures OpenBytes(d, pc.n) == OpenBytes(d, 0) + pc.user[..pc.n]
  {
    var b := d.buffers[d.fill];
    assert b[..d.pos + pc.n] == b[..d.pos] + b[d.pos..d.pos + pc.n];
  }

  lemma FinishWriteRefines(m: Machine, t: nat)
    requires Inv(m) && Enabled(m, FinishWrite(t))
    ensures var m', op := Step(m, FinishWrite(t)), OpOf(m, FinishWrite(t));
            |m'.delivered| <= |m'.closed| && F.Admits(Abs(m), op) && Abs(m') == F.Apply(Abs(m), op)
  {
    FilledExtends(m.dev, m.calls[t]);
    FinishApplies(m, t);
  }

  lemma FinishApplies(m: Machine, t: nat)
    requires Enabled(m, FinishWrite(t)) && ShapeOk(m.dev) && m.dev.fill != m.dev.active
    requires |m.closed| == |m.delivered| + Occupancy(m.dev)
    requires var d, pc := m.dev, m.calls[t];
             && 0 < pc.n <= |pc.user| && d.pos + pc.n <= BUF_SIZE
             && OpenBytes(d, pc.n) == OpenBytes(d, 0) + pc.user[..pc.n]
    ensures var m', op := Step(m, FinishWrite(t)), OpOf(m, FinishWrite(t));
            |m'.delivered| <= |m'.closed| && F.Admits(Abs(m), op) && Abs(m') == F.Apply(Abs(m), op)
  {
    var m', pc, q := Step(m, FinishWrite(t)), m.calls[t], Abs(m);
    assert Bytes(m'.log) == Bytes(m.log) + [pc.user[..pc.n]];
    if m.dev.pos + pc.n >= BUF_SIZE {
      assert m'.closed[|m.delivered|..] == q.waiting + [q.open + pc.user[..pc.n]];
      assert m'.closed[..|m.delivered|] == q.delivered;
    }
  }

  lemma FlushRefines(m: Machine, t: nat, value: int)
    requires Inv(m) && Enabled(m, Flush(t, value))
    ensures var m', op := Step(m, Flush(t, value)), OpOf(m, Flush(t, value));
            |m'.delivered| <= |m'.closed| && F.Admits(Abs(m), op) && Abs(m') == F.Apply(Abs(m), op)
  {
    var m', q := Step(m, Flush(t, value)), Abs(m);
    if value == 1 && CommitFlush(m.dev).2 > 0 {
      assert m'.closed[|m.delivered|..] == q.waiting + [q.open];
      assert m'.closed[..|m.delivered|] == q.delivered;
    }
  }

  lemma CallbackRefines(m: Machine)
    requires Inv(m) && Enabled(m, Callback)
    ensures var m', op := Step(m, Callback), OpOf(m, Callback);
            |m'.delivered| <= |m'.closed| && F.Admits(Abs(m), op) && Abs(m') == F.Apply(Abs(m), op)
  {
    var m', q := Step(m, Callback), Abs(m);
    if CookieStatus(m.engine.value, m.cookie) == Completed {
      assert q.waiting[0] == Current(m.closed, m.delivered);
      assert m'.closed[..|m'.delivered|] == q.delivered + [q.waiting[0]];
      assert m'.closed[|m'.delivered|..] == q.waiting[1..];
    }
  }

  /** Steps that store bytes leave the filled part of the open buffer alone. */
  lemma StoreRefines(m: Machine, e: Event)
    requires Inv(m) && Stores(e) && Enabled(m, e)
    ensures var m' := Step(m, e); |m'.delivered| <= |m'.closed| && Abs(m') == Abs(m)
  {
    var m' := Step(m, e);
    if e.CopyByte? {
      assert CopyOk(m.dev, m.calls[e.t]);
      assert m'.dev.buffers[m.dev.fill][..m.dev.pos] == m.dev.buffers[m.dev.fill][..m.dev.pos];
    } else if e.CopyFault? {
      assert CopyOk(m.dev, m.calls[e.t]);
      CopyFaultData(m.dev, m.calls[e.t].n, m.calls[e.t].done, e.rest);
    } else {
      var j := if e == CallbackPad then m.callback.job else m.calls[e.t].job;
      assert e.PadByte? ==> Setting(m.calls, e.t);
      assert JobOk(m.dev, Current(m.closed, m.delivered), j);
    }
  }

  predicate Stores(e: Event) {
    e.CopyByte? || e.CopyFault? || e.PadByte? || e == CallbackPad
  }

  /** The remaining steps touch neither the history nor the buffers. */
  lemma OtherRefines(m: Machine, e: Event)
    requires Inv(m) && Enabled(m, e) && !Stores(e) && !e.FinishWrite? && !e.Flush? && e != Callback
    ensures var m' := Step(m, e); |m'.delivered| <= |m'.closed| && Abs(m') == Abs(m)
  {
    var m' := Step(m, e);
    assert m'.dev == m.dev && m'.log == m.log && m'.closed == m.closed && m'.delivered == m.delivered;
  }

  /** Every step performs its queue operation on the abstraction. */
  lemma StepRefines(m: Machine, e: Event)
    requires Inv(m) && Enabled(m, e)
    ensures var m', op := Step(m, e), OpOf(m, e);
            |m'.delivered| <= |m'.closed| && F.Admits(Abs(m), op) && Abs(m') == F.Apply(Abs(m), op)
  {
    if e.FinishWrite? {
      FinishWriteRefines(m, e.t);
    } else if e.Flush? {
      FlushRefines(m, e.t, e.value);
    } else if e == Callback {
      CallbackRefines(m);
    } else if Stores(e) {
      StoreRefines(m, e);
    } else {
      OtherRefines(m, e);
    }
  }

  /** The queue operations of a run. */
  function OpsOf(m: Machine, es: seq<Event>): seq<F.Op>
    requires Legal(m, es)
  {
    if es == [] then []
    else OpsOf(m, es[..|es| - 1]) + [OpOf(Run(m, es[..|es| - 1]), es[|es| - 1])]
  }

  /** Refinement: every run of the driver is a run of the two-slot queue. */
  lemma {:induction false} RunRefines(b0: seq<byte>, b1: seq<byte>, es: seq<Event>)
    requires |b0| == BUF_SIZE && |b1| == BUF_SIZE && Legal(Initial(b0, b1), es)
    ensures var m, ops := Run(Initial(b0, b1), es), OpsOf(Initial(b0, b1), es);
            |m.delivered| <= |m.closed| && F.Legal(F.EMPTY, ops) && F.Run(F.EMPTY, ops) == Abs(m)
  {
    InitialInv(b0, b1);
    if es == [] {
      assert Abs(Initial(b0, b1)) == F.EMPTY;
    } else {
      var es', e := es[..|es| - 1], es[|es| - 1];
      var m := Run(Initial(b0, b1), es');
      RunRefines(b0, b1, es');
      DmaInvariant.RunKeeps(Initial(b0, b1), es');
      StepRefines(m, e);
      var ops, ops' := OpsOf(Initial(b0, b1), es), OpsOf(Initial(b0, b1), es');
      assert ops[..|ops| - 1] == ops' && ops[|ops| - 1] == OpOf(m, e);
    }
  }

  /** States reachable from probe, whatever the buffers contained. */
  ghost predicate Reachable(m: Machine) {
    exists b0: seq<byte>, b1: seq<byte>, es: seq<Event> ::
      |b0| == BUF_SIZE && |b1| == BUF_SIZE && Legal(Initial(b0, b1), es) && m == Run(Initial(b0, b1), es)
  }

  lemma ReachableInv(m: Machine)
    requires Reachable(m)
    ensures Inv(m)
  {
    var b0: seq<byte>, b1: seq<byte>, es: seq<Event> :|
      |b0| == BUF_SIZE && |b1| == BUF_SIZE && Legal(Initial(b0, b1), es) && m == Run(Initial(b0, b1), es);
    InitialInv(b0, b1);
    DmaInvariant.RunKeeps(Initial(b0, b1), es);
  }

  lemma ReachableQueue(m: Machine)
    requires Reachable(m)
    ensures |m.delivered| <= |m.closed| && F.Inv(Abs(m))
  {
    var b0: seq<byte>, b1: seq<byte>, es: seq<Event> :|
      |b0| == BUF_SIZE && |b1| == BUF_SIZE && Legal(Initial(b0, b1), es) && m == Run(Initial(b0, b1), es);
    RunRefines(b0, b1, es);
    F.RunKeeps(OpsOf(Initial(b0, b1), es));
  }

  // ---------------------------------------------------------------- the byte stream

  /** Buffer `b` starts with chunk `c`. */
  predicate Holds(d: Dev, b: int, c: seq<byte>) {
    0 <= b < |d.buffers| && c <= d.buffers[b]
  }

  /** The occupied buffers hold the outstanding chunks. */
  ghost predicate OutstandingHeld(m: Machine) {
    var n, d := |m.delivered|, m.dev;
    && |m.closed| == n + Occupancy(d)
    && (Occupancy(d) >= 1 ==> Holds(d, d.active, m.closed[n]))
    && (Occupancy(d) == 2 ==>
          d.pos == 0 && d.nextBuffCount == |m.closed[n + 1]| && Holds(d, 1 - d.active, m.closed[n + 1]))
  }

  /** Every delivered frame is its chunk followed by fewer than 64 zeros. */
  ghost predicate FramesPadded(m: Machine) {
    && |m.delivered| <= |m.closed|
    && forall i :: 0 <= i < |m.delivered| ==>
         && |m.closed[i]| <= |m.delivered[i]| < |m.closed[i]| + 64
         && m.delivered[i] == m.closed[i] + Zeros(|m.delivered[i]| - |m.closed[i]|)
  }

  /**
   The accepted write prefixes, in mutex order, are the delivered chunks, then the outstanding
   ones, then the open bytes.
   */
  ghost predicate StreamInOrder(m: Machine) {
    && |m.delivered| <= |m.closed|
    && Flatten(Bytes(m.log))
       == Flatten(m.closed[..|m.delivered|]) + Flatten(m.closed[|m.delivered|..]) + OpenBytes(m.dev, 0)
    && |OpenBytes(m.dev, 0)| == m.dev.pos
  }

  /** Stream conservation, in every reachable state: nothing is lost, duplicated or reordered. */
  lemma StreamConserved(m: Machine)
    requires Reachable(m)
    ensures StreamInOrder(m) && FramesPadded(m) && OutstandingHeld(m)
  {
    ReachableInv(m);
    ReachableQueue(m);
    QueueStream(m);
    DeliveredFrames(m);
    ChunksHeld(m);
  }

  lemma ChunksHeld(m: Machine)
    requires Inv(m)
    ensures OutstandingHeld(m)
  {
  }

  lemma QueueStream(m: Machine)
    requires ShapeOk(m.dev) && |m.delivered| <= |m.closed| && F.Conserved(Abs(m))
    ensures StreamInOrder(m)
  {
    FlattenConcat(m.closed[..|m.delivered|], m.closed[|m.delivered|..]);
  }

  lemma DeliveredFrames(m: Machine)
    requires Inv(m)
    ensures FramesPadded(m)
  {
  }

  /** Whoever owns the token, the active buffer starts with the current chunk. */
  lemma CurrentInBuffer(m: Machine)
    requires Inv(m) && m.dev.active != -1
    ensures var c := Current(m.closed, m.delivered);
            IsChunk(c) && m.dev.buffers[m.dev.active][..|c|] == c
  {
  }

  /**
   The accepted bytes are those the calls report: a dma_write past its commit reports a positive
   count exactly if the log has an entry of it, then exactly one, with that many of the bytes the
   call was given.
   */
  lemma ReportedExactly(m: Machine)
    requires Reachable(m)
    ensures LogExact(Outcomes(m.calls), m.log)
    ensures forall t :: t in Outcomes(m.calls) <==> Committed(m.calls, t)
  {
    ReachableInv(m);
  }

  // ---------------------------------------------------------------- admission

  /**
   A write is admitted exactly while fewer than two chunks are outstanding; it then takes what
   fits beside the open bytes into 16384, at least one byte. With two outstanding it returns 0, and
   an empty write -ENOMEM.
   */
  lemma WriteAdmission(m: Machine, t: nat, user: seq<byte>)
    requires Reachable(m) && Enabled(m, BeginWrite(t, user))
    ensures |m.delivered| <= |m.closed|
    ensures var pc, room := Step(m, BeginWrite(t, user)).calls[t], 16384 - |Abs(m).open|;
            if |Abs(m).waiting| == 2 then pc == Returned(WriteCall(user), 0)
            else if user == [] then pc == Returned(WriteCall(user), -12)
            else pc == Copying(user, m.dev.fill, if |user| <= room then |user| else room, 0) && room >= 1
  {
    ReachableInv(m);
  }

  /**
   A flush closes the open chunk exactly when there is one, and reports its length. It never
   reports -EAGAIN: with both buffers busy there is no open chunk, so the answer is -EINVAL.
   */
  lemma FlushAdmission(m: Machine, t: nat)
    requires Reachable(m) && Enabled(m, Flush(t, 1))
    ensures FlushOutcome(m, t)
  {
    ReachableInv(m);
    FlushAdmissionInv(m, t);
  }

  ghost predicate FlushOutcome(m: Machine, t: nat)
    requires Enabled(m, Flush(t, 1))
  {
    var m', open := Step(m, Flush(t, 1)), OpenBytes(m.dev, 0);
    && |m.delivered| <= |m.closed| && |m'.delivered| <= |m'.closed|
    && m'.calls[t].call == FlushCall(1)
    && m'.calls[t].ret == (if open == [] then -22 else |open|)
    && (|Abs(m).waiting| == 2 ==> open == [])
    && Abs(m').waiting == Abs(m).waiting + (if open == [] then [] else [open])
    && (open != [] ==> Abs(m').open == [])
  }

  lemma FlushAdmissionInv(m: Machine, t: nat)
    requires Inv(m) && Enabled(m, Flush(t, 1))
    ensures FlushOutcome(m, t)
  {
    FlushRefines(m, t, 1);
  }

  // ---------------------------------------------------------------- the transfer token

  datatype Owner = ByCall(t: nat) | ByCallback | ByEngine

  predicate Owns(m: Machine, o: Owner) {
    match o
    case ByCall(t) => Setting(m.calls, t)
    case ByCallback => m.callback.CbPreparing?
    case ByEngine => m.engine.Some?
  }

  /** The buffer an owner works on. */
  function OwnedBuffer(m: Machine, o: Owner): int
    requires Owns(m, o)
  {
    match o
    case ByCall(t) => m.calls[t].job.buf
    case ByCallback => m.callback.job.buf
    case ByEngine => m.engine.value.buf
  }

  /**
   Single transfer token: a buffer is active exactly while a transfer has an owner, the owner is
   unique and works on the active buffer, a submission never overwrites the cookie of an
   outstanding transfer, and the callback's status query is about the transfer that ended.
   */
  lemma SingleToken(m: Machine)
    requires Reachable(m)
    ensures m.dev.active != -1 <==> exists o :: Owns(m, o)
    ensures forall o, o' :: Owns(m, o) && Owns(m, o') ==> o == o'
    ensures forall o :: Owns(m, o) ==> OwnedBuffer(m, o) == m.dev.active
    ensures (forall t :: Enabled(m, Submit(t)) ==> m.engine.None?) && (Enabled(m, CallbackSubmit) ==> m.engine.None?)
    ensures m.engine.Some? ==> CookieStatus(m.engine.value, m.cookie) == m.engine.value.status
  {
    ReachableInv(m);
    forall o | Owns(m, o)
      ensures OwnedBuffer(m, o) == m.dev.active && m.dev.active != -1
      ensures m.engine.Some? ==> o == ByEngine
      ensures m.callback.CbPreparing? ==> o == ByCallback
    {
      if o.ByCall? {
        assert Setting(m.calls, o.t);
      }
    }
    forall t | Enabled(m, Submit(t))
      ensures m.engine.None?
    {
      assert Setting(m.calls, t);
    }
    if m.dev.active != -1 {
      if m.engine.Some? {
        assert Owns(m, ByEngine);
      } else if m.callback.CbPreparing? {
        assert Owns(m, ByCallback);
      } else {
        var t :| Setting(m.calls, t);
        assert Owns(m, ByCall(t));
      }
    }
  }

  // ---------------------------------------------------------------- buffer ownership

  /** Where a step stores: a buffer and the index range in it, empty for most steps. */
  function StoreRange(m: Machine, e: Event): (int, int, int)
    requires Enabled(m, e)
  {
    match e
    case CopyByte(t) =>
      var i := m.dev.pos + m.calls[t].done;
      (m.calls[t].buf, i, i + 1)
    case CopyFault(t, rest) =>
      var i := m.dev.pos + m.calls[t].done;
      (m.calls[t].buf, i, i + |rest|)
    case PadByte(t) => (m.calls[t].job.buf, m.calls[t].job.next, m.calls[t].job.next + 1)
    case CallbackPad => (m.callback.job.buf, m.callback.job.next, m.callback.job.next + 1)
    case _ => (0, 0, 0)
  }

  /** All bytes outside a range of one buffer are the same. */
  ghost predicate SameOutside(before: seq<seq<byte>>, after: seq<seq<byte>>, b: int, lo: int, hi: int) {
    && |after| == |before| == 2
    && forall x, i :: 0 <= x < 2 && 0 <= i < |before[x]| && !(x == b && lo <= i < hi) ==>
         i < |after[x]| && after[x][i] == before[x][i]
  }

  /**
   Ownership. Every store is in bounds. A copy from user space, faulting or not, stores past `pos`
   in the open buffer, never in the active one; padding stores in the active buffer past the
   committed chunk. All other bytes of both buffers stay.
   */
  lemma StoresInBounds(m: Machine, e: Event)
    requires Reachable(m) && Enabled(m, e)
    ensures var (b, lo, hi) := StoreRange(m, e); SameOutside(m.dev.buffers, Step(m, e).dev.buffers, b, lo, hi)
    ensures Stores(e) ==> StorePlace(m, e)
  {
    ReachableInv(m);
    if Stores(e) {
      StoreInPlace(m, e);
    }
    StepStores(m, e);
  }

  ghost predicate StorePlace(m: Machine, e: Event)
    requires Enabled(m, e)
  {
    var (b, lo, hi) := StoreRange(m, e);
    && b in {0, 1} && 0 <= lo < hi <= BUF_SIZE
    && |m.dev.buffers| == 2 && |m.dev.buffers[0]| == |m.dev.buffers[1]| == BUF_SIZE
    && (if e.CopyByte? || e.CopyFault? then b == m.dev.fill != m.dev.active && lo >= m.dev.pos
        else b == m.dev.active && lo >= |Current(m.closed, m.delivered)|)
  }

  lemma StoreInPlace(m: Machine, e: Event)
    requires Inv(m) && Enabled(m, e) && Stores(e)
    ensures StorePlace(m, e)
  {
    if e.CopyByte? || e.CopyFault? {
      assert CopyOk(m.dev, m.calls[e.t]);
    } else if e.PadByte? {
      assert Setting(m.calls, e.t) && JobOk(m.dev, Current(m.closed, m.delivered), m.calls[e.t].job);
    } else {
      assert JobOk(m.dev, Current(m.closed, m.delivered), m.callback.job);
    }
  }

  /** What a step does to the two buffers stays in its range. */
  lemma StepStores(m: Machine, e: Event)
    requires Enabled(m, e) && |m.dev.buffers| == 2 && (Stores(e) ==> StorePlace(m, e))
    ensures var (b, lo, hi) := StoreRange(m, e); SameOutside(m.dev.buffers, Step(m, e).dev.buffers, b, lo, hi)
  {
    if e.CopyFault? {
      var (b, lo, hi) := StoreRange(m, e);
      StoredBytes(m.dev.buffers, b, lo, e.rest);
    }
  }

  /** Between a claim and its completion the buffer stays active and keeps the committed bytes. */
  lemma {:induction false} ClaimStable(m: Machine, es: seq<Event>)
    requires Inv(m) && m.dev.active != -1 && Legal(m, es)
    ensures |Run(m, es).delivered| >= |m.delivered| && m.closed <= Run(m, es).closed
    ensures |Run(m, es).delivered| == |m.delivered| ==>
              var m' := Run(m, es); var c := Current(m.closed, m.delivered);
              && m'.dev.active == m.dev.active
              && Current(m'.closed, m'.delivered) == c
              && Holds(m'.dev, m.dev.active, c)
  {
    if es == [] {
      CurrentInBuffer(m);
    } else {
      var es', e := es[..|es| - 1], es[|es| - 1];
      ClaimStable(m, es');
      DmaInvariant.RunKeeps(m, es');
      ClaimStableStep(Run(m, es'), e);
    }
  }

  /** The history only grows, and only a delivery moves the active buffer on. */
  lemma HistoryGrows(m: Machine, e: Event)
    requires Enabled(m, e)
    ensures var m' := Step(m, e);
            && |m'.delivered| >= |m.delivered| && m.closed <= m'.closed
            && (|m'.delivered| == |m.delivered| && m.dev.active != -1 ==> m'.dev.active == m.dev.active)
  {
  }

  lemma ClaimStableStep(m: Machine, e: Event)
    requires Inv(m) && Enabled(m, e)
    ensures var m' := Step(m, e);
            && |m'.delivered| >= |m.delivered| && m.closed <= m'.closed
            && (|m'.delivered| == |m.delivered| && m.dev.active != -1 ==>
                  && m'.dev.active == m.dev.active
                  && Current(m'.closed, m'.delivered) == Current(m.closed, m.delivered)
                  && Holds(m'.dev, m.dev.active, Current(m.closed, m.delivered)))
  {
    HistoryGrows(m, e);
    StepKeeps(m, e);
    ActiveHolds(m, Step(m, e));
  }

  lemma ActiveHolds(m: Machine, m': Machine)
    requires Inv(m) && Inv(m') && m.closed <= m'.closed
    requires |m'.delivered| == |m.delivered| && m.dev.active != -1 ==> m'.dev.active == m.dev.active
    ensures |m'.delivered| == |m.delivered| && m.dev.active != -1 ==>
              && Current(m'.closed, m'.delivered) == Current(m.closed, m.delivered)
              && Holds(m'.dev, m.dev.active, Current(m.closed, m.delivered))
  {
    if |m'.delivered| == |m.delivered| && m.dev.active != -1 {
      CurrentInBuffer(m');
    }
  }

  // ---------------------------------------------------------------- submitted frames

  /**
   Whichever of the three call sites submits, the length is a positive multiple of 64, at most
   the buffer and the least that covers the chunk, and the buffer holds the chunk and zeros.
   */
  lemma SubmittedFrame(m: Machine, e: Event)
    requires Reachable(m) && (e.Submit? || e == CallbackSubmit) && Enabled(m, e)
    ensures var m' := Step(m, e); var c := Current(m.closed, m.delivered);
            && m'.engine.Some?
            && var x := m'.engine.value;
               && x.id == m'.cookie == m.cookie + 1
               && 0 < x.len <= 16384 && x.len % 64 == 0 && (|c| == 16384 ==> x.len == 16384)
               && (forall k: nat :: k % 64 == 0 && |c| <= k ==> x.len <= k)
               && |c| <= x.len && Holds(m'.dev, x.buf, c + Zeros(x.len - |c|))
  {
    ReachableInv(m);
    var c := Current(m.closed, m.delivered);
    if e.Submit? {
      assert Setting(m.calls, e.t);
      FrameReady(m.dev, c, m.calls[e.t].job);
    } else {
      FrameReady(m.dev, c, m.callback.job);
    }
  }

  lemma FrameReady(d: Dev, c: seq<byte>, j: Job)
    requires ShapeOk(d) && JobOk(d, c, j) && j.next >= j.aligned
    ensures 0 < j.aligned <= BUF_SIZE && j.aligned % 64 == 0 && |c| <= j.aligned
    ensures forall k: nat :: k % 64 == 0 && |c| <= k ==> j.aligned <= k
    ensures Holds(d, j.buf, c + Zeros(j.aligned - |c|))
  {
  }
}
