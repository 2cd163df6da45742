/**
 What ends the worker of the kernel-thread design and what that leaves behind: removal does not
 wait for a transfer still to be started; the channel is idle for good exactly when the worker is
 gone and no transfer is out or only a failed one already reported; and a worker that nobody asked
 to leave has seen a thousand events.
 */
module ThreadRemoval {
  import opened Frames
  import D = DmaSections
  import opened Transfers
  import opened ThreadSections
  import opened ThreadProtocol
  import opened ThreadInvariant
  import opened ThreadTheorems
  import opened ThreadLiveness
  import C = ThreadCalls

  // ---------------------------------------------------------------- removal

  lemma ReachableStep(m: Machine, e: Event)
    requires Reachable(m) && Enabled(m, e)
    ensures Reachable(Step(m, e))
  {
    var b0: seq<byte>, b1: seq<byte>, es: seq<Event> :|
      |b0| == BUF_SIZE && |b1| == BUF_SIZE && Legal(Initial(b0, b1), es) && m == Run(Initial(b0, b1), es);
    var es' := es + [e];
    assert es'[..|es|] == es;
    assert Legal(Initial(b0, b1), es') && Run(Initial(b0, b1), es') == Step(m, e);
  }

  lemma {:induction false} ReachableRun(m: Machine, es: seq<Event>)
    requires Reachable(m) && Legal(m, es)
    ensures Reachable(Run(m, es))
  {
    if es != [] {
      ReachableRun(m, es[..|es| - 1]);
      ReachableStep(Run(m, es[..|es| - 1]), es[|es| - 1]);
    }
  }

  lemma ReachableInitial(b: seq<byte>)
    requires |b| == BUF_SIZE
    ensures Reachable(Initial(b, b))
  {
    assert Legal(Initial(b, b), []) && Run(Initial(b, b), []) == Initial(b, b);
  }

  lemma {:induction false} ReachableCopy(m: Machine, t: nat, k: nat)
    requires Reachable(m) && IsCopying(m.calls, t) && m == C.CopyState(m, t, 0)
    requires k <= m.calls[t].n <= |m.calls[t].user|
    ensures Reachable(C.CopyState(m, t, k))
  {
    if k > 0 {
      ReachableCopy(m, t, k - 1);
      C.CopyStateStep(m, t, k - 1);
      ReachableStep(C.CopyState(m, t, k - 1), CopyByte(t));
    }
  }

  /** A first write of a whole buffer leaves it waiting, with the event still to be raised. */
  lemma FirstBuffer() returns (m: Machine)
    ensures Reachable(m) && Enabled(m, Raise(0)) && m.worker == Waiting && m.flag == 0 && !m.stopped
    ensures m.mutex.None? && m.engine.None?
    ensures ShapeOk(m.dev) && m.dev.waiting == [true, false] && m.dev.nextUp == 0
    ensures !m.dev.running && !m.dev.finished && m.dev.counts[0] == BUF_SIZE
  {
    var user := Zeros(BUF_SIZE);
    var m0 := Initial(user, user);
    ReachableInitial(user);
    ReachableInv(m0);
    ReachableStep(m0, BeginWrite(0, user));
    C.UninterruptedWrite(m0, 0, user, BUF_SIZE);
    var m1 := Step(m0, BeginWrite(0, user));
    ReachableCopy(m1, 0, BUF_SIZE);
    var m2 := C.CopyState(m1, 0, BUF_SIZE);
    ReachableStep(m2, FinishWrite(0));
    m := Step(m2, FinishWrite(0));
  }

  /**
   Removal does not wait: the stop request can be stored while the worker is past its read and has
   a transfer to start, and the engine then goes on to read the buffer.
   */
  lemma RemovalLeavesTransfer() returns (m: Machine)
    ensures Reachable(m) && m.stopped && Enabled(m, WorkerSubmit)
    ensures Enabled(Step(m, WorkerSubmit), Transmit)
  {
    m := FirstBuffer();
    m := TakesEvent(m);
    m := PreparesTransfer(m);
    m := Follow(m, Remove);
  }

  /** The worker claims the waiting buffer and sets its transfer up. */
  lemma PreparesTransfer(m: Machine) returns (m': Machine)
    requires Reachable(m) && m.worker == Deciding(false, false) && m.mutex.None? && ShapeOk(m.dev)
    requires m.dev.waiting == [true, false] && m.dev.nextUp == 0 && m.dev.counts[0] == BUF_SIZE
    ensures Reachable(m') && m'.stopped == m.stopped
    ensures m'.worker == Preparing(Job(0, BUF_SIZE, BUF_SIZE, BUF_SIZE))
  {
    m' := Follow(m, WorkerDecide);
    m' := Follow(m', WorkerPrepare);
  }

  /** The worker wakes for the first event and samples the flags. */
  lemma TakesEvent(m: Machine) returns (m': Machine)
    requires Reachable(m) && Enabled(m, Raise(0)) && m.worker == Waiting && m.flag == 0 && ShapeOk(m.dev)
    ensures Reachable(m') && m'.worker == Deciding(m.dev.running, m.dev.finished)
    ensures m'.dev == m.dev.(finished := false) && m'.mutex == m.mutex && m'.engine == m.engine
    ensures m'.stopped == m.stopped
  {
    m' := Follow(m, Raise(0));
    m' := Follow(m', WorkerWake);
    m' := Follow(m', WorkerRead);
    assert m'.worker == Read(1);
    m' := Follow(m', WorkerDecrement);
    m' := Follow(m', WorkerSample);
  }

  lemma Follow(m: Machine, e: Event) returns (m': Machine)
    requires Reachable(m) && Enabled(m, e)
    ensures m' == Step(m, e) && Reachable(m')
  {
    m' := Step(m, e);
    ReachableStep(m, e);
  }

  // ---------------------------------------------------------------- when the channel may be released

  /** The worker is gone, and no transfer is out or only one that failed and was reported. */
  predicate Idle(m: Machine) {
    m.worker == Exited && (m.engine.None? || m.engine.value.status == FailedSeen)
  }

  /**
   Steps that do not involve the channel: writers still in their calls, the callback's increment,
   removal. They may well copy into the buffers.
   */
  predicate LeavesChannel(e: Event) {
    e.BeginWrite? || e.CopyByte? || e.CopyFault? || e.FinishWrite? || e.Raise? || e.CallbackRaise? || e.Remove?
  }

  ghost predicate AllLeaveChannel(es: seq<Event>) {
    forall i :: 0 <= i < |es| ==> LeavesChannel(es[i])
  }

  /** Once idle, the channel stays idle: nothing is submitted, read or delivered. */
  lemma {:induction false} IdleForGood(m: Machine, es: seq<Event>)
    requires Idle(m) && Legal(m, es)
    ensures Idle(Run(m, es)) && AllLeaveChannel(es)
    ensures Run(m, es).issued == m.issued && Run(m, es).delivered == m.delivered
  {
    if es != [] {
      IdleForGood(m, es[..|es| - 1]);
      IdleStep(Run(m, es[..|es| - 1]), es[|es| - 1]);
    }
  }

  lemma IdleStep(m: Machine, e: Event)
    requires Idle(m) && Enabled(m, e)
    ensures var m' := Step(m, e); Idle(m') && m'.issued == m.issued && m'.delivered == m.delivered
    ensures LeavesChannel(e)
  {
  }

  /** A run of one enabled step. */
  lemma OneStep(m: Machine, e: Event)
    requires Enabled(m, e)
    ensures Legal(m, [e]) && Run(m, [e]) == Step(m, e)
  {
    assert [e][..0] == [];
    assert Legal(m, []) && Run(m, []) == m;
  }

  lemma TwoSteps(m: Machine, e: Event, e': Event)
    requires Enabled(m, e) && Enabled(Step(m, e), e')
    ensures Legal(m, [e, e'])
  {
    OneStep(m, e);
    assert [e, e'][..1] == [e];
  }

  /** The worker's next step, and a step that makes way for it where it is blocked. */
  lemma WorkerGoesOn(m: Machine) returns (es: seq<Event>)
    requires Inv(m) && m.worker != Exited
    ensures Legal(m, es) && !AllLeaveChannel(es)
  {
    if m.worker == Waiting && m.flag <= 0 {
      TwoSteps(m, Remove, WorkerWake);
      es := [Remove, WorkerWake];
      assert !LeavesChannel(es[1]);
    } else if m.worker.Deciding? && m.mutex.Some? {
      var e := MutexReleased(m);
      TwoSteps(m, e, WorkerDecide);
      es := [e, WorkerDecide];
      assert !LeavesChannel(es[1]);
    } else {
      var e := WorkerEvent(m.worker);
      OneStep(m, e);
      es := [e];
      assert !LeavesChannel(es[0]);
    }
  }

  function WorkerEvent(worker: Worker): Event {
    match worker
    case Waiting => WorkerWake
    case Awake => WorkerRead
    case Read(_) => WorkerDecrement
    case Sampling => WorkerSample
    case Deciding(_, _) => WorkerDecide
    case Starting(_) => WorkerPrepare
    case Preparing(j) => if j.next < j.aligned then WorkerPad else WorkerSubmit
    case Exited => Remove
  }

  /** The writer that holds the mutex can release it at once, by a fault if its copy is not complete. */
  lemma MutexReleased(m: Machine) returns (e: Event)
    requires Inv(m) && m.mutex.Some?
    ensures Enabled(m, e) && Step(m, e).mutex.None? && Step(m, e).worker == m.worker
  {
    var t := m.mutex.value;
    var pc := m.calls[t];
    assert CopyOk(m.dev, pc);
    e := if pc.done < pc.n then CopyFault(t, Zeros(pc.n - pc.done)) else FinishWrite(t);
  }

  /** A transfer that is out and not reported as failed can end or be called back. */
  lemma TransferGoesOn(m: Machine) returns (es: seq<Event>)
    requires m.engine.Some? && m.engine.value.status != FailedSeen
    ensures Legal(m, es) && !AllLeaveChannel(es)
  {
    if m.engine.value.status == InProgress {
      OneStep(m, TransferError);
      es := [TransferError];
      assert !LeavesChannel(es[0]);
    } else if m.raising {
      TwoSteps(m, CallbackRaise, Callback);
      es := [CallbackRaise, Callback];
      assert !LeavesChannel(es[1]);
    } else {
      OneStep(m, Callback);
      es := [Callback];
      assert !LeavesChannel(es[0]);
    }
  }

  /**
   When the channel may be released: no continuation has a step of the worker, the engine or the
   callback on a transfer if and only if the worker is gone and no transfer is out, or only one that
   failed and was reported.
   */
  lemma ReleaseIff(m: Machine)
    requires Inv(m)
    ensures Idle(m) <==> forall es :: Legal(m, es) ==> AllLeaveChannel(es)
  {
    if Idle(m) {
      forall es | Legal(m, es)
        ensures AllLeaveChannel(es)
      {
        IdleForGood(m, es);
      }
    } else if m.worker != Exited {
      var es := WorkerGoesOn(m);
    } else {
      var es := TransferGoesOn(m);
    }
  }

  // ---------------------------------------------------------------- leaving unasked

  /** Events counted or about to be. */
  function Events(m: Machine): int {
    m.flag + |RaisingSet(m.calls)| + if m.raising then 1 else 0
  }

  /** Until removal every event stands for a chunk closed or delivered, also the ones the worker has read. */
  predicate EventsEarned(m: Machine) {
    m.stopped
    || var earned := |m.closed| + |m.delivered|;
       && Events(m) <= earned && (m.worker.Read? ==> m.worker.flag <= earned)
       && (m.worker == Exited ==> THREAD_STOP <= earned)
  }

  lemma EarnedCalls(m: Machine, e: Event)
    requires EventsEarned(m) && Enabled(m, e) && (e.CopyByte? || e.CopyFault? || e.FinishWrite? || e.Raise?)
    ensures EventsEarned(Step(m, e))
  {
    if e.Raise? {
      RaisingRemove(m.calls, e.t, Step(m, e).calls[e.t]);
    } else {
      RaisingAfter(m.calls, e.t, Step(m, e).calls[e.t]);
    }
  }

  lemma EarnedOther(m: Machine, e: Event)
    requires EventsEarned(m) && Enabled(m, e) && !(e.CopyByte? || e.CopyFault? || e.FinishWrite? || e.Raise?)
    ensures EventsEarned(Step(m, e))
  {
    if e.BeginWrite? {
      assert RaisingSet(Step(m, e).calls) == RaisingSet(m.calls);
    }
  }

  lemma {:induction false} RunEarned(m: Machine, es: seq<Event>)
    requires EventsEarned(m) && Legal(m, es)
    ensures EventsEarned(Run(m, es))
  {
    if es != [] {
      var es', e := es[..|es| - 1], es[|es| - 1];
      RunEarned(m, es');
      if e.CopyByte? || e.CopyFault? || e.FinishWrite? || e.Raise? {
        EarnedCalls(Run(m, es'), e);
      } else {
        EarnedOther(Run(m, es'), e);
      }
    }
  }

  /** Without a removal the worker leaves only once at least a thousand chunks were closed or delivered. */
  lemma LeavesUnasked(m: Machine)
    requires Reachable(m) && !m.stopped && Leaving(m.worker)
    ensures |m.closed| + |m.delivered| >= 1000
  {
    var b0: seq<byte>, b1: seq<byte>, es: seq<Event> :|
      |b0| == BUF_SIZE && |b1| == BUF_SIZE && Legal(Initial(b0, b1), es) && m == Run(Initial(b0, b1), es);
    assert RaisingSet(Initial(b0, b1).calls) == {};
    RunEarned(Initial(b0, b1), es);
  }

  /** Not removed, and short of a thousand chunks closed or delivered. */
  predicate Early(m: Machine) {
    !m.stopped && |m.closed| + |m.delivered| < 1000
  }

  /** Then no work is lost, whatever the counter: some event or the worker itself is on its way to it. */
  lemma EarlyWorkIsSeen(m: Machine)
    requires Reachable(m) && Early(m)
    ensures ShapeOk(m.dev) && m.worker != Exited
    ensures m.dev.finished || (!m.dev.running && IsSet(m.dev.waiting, m.dev.nextUp)) ==>
              m.flag > 0 || m.raising || (exists t :: Enabled(m, Raise(t))) || WillAct(m.worker)
  {
    if Leaving(m.worker) {
      LeavesUnasked(m);
    }
    NoLostWork(m);
  }

  /** And a worker that reads its counter then goes on to an iteration. */
  lemma EarlyReadGoesOn(m: Machine)
    requires Reachable(m) && Early(m) && Enabled(m, WorkerRead)
    ensures Step(Step(m, WorkerRead), WorkerDecrement).worker == Sampling
  {
    ReachableStep(m, WorkerRead);
    if Leaving(Step(m, WorkerRead).worker) {
      LeavesUnasked(Step(m, WorkerRead));
    }
  }

  /** A run without new calls that ends early and cannot go on has delivered every closed chunk. */
  lemma EarlyDrains(m: Machine, es: seq<Event>)
    requires Reachable(m) && NotFailed(m) && Legal(m, es) && AllService(es)
    requires Early(Run(m, es)) && Quiet(Run(m, es))
    ensures var m' := Run(m, es);
            && m'.delivered == m'.closed && m.closed <= m'.closed && m'.worker == Waiting && m'.flag == 0
  {
    Drains(m, es);
    ReachableRun(m, es);
    if Leaving(Run(m, es).worker) {
      LeavesUnasked(Run(m, es));
    }
  }

  /**
   The stop value is one above the mark, which covers exactly the decrement in progress: a worker
   that has already read a lower count takes one off and still finds the mark next time.
   */
  lemma StopMargin(m: Machine)
    requires Enabled(m, Remove)
    ensures Step(m, Remove).flag == 1001
    ensures m.worker.Read? && m.worker.flag < 1000 ==>
              var m' := Step(Step(m, Remove), WorkerDecrement); m'.worker == Sampling && m'.flag == 1000
    ensures m.worker.Read? && m.worker.flag >= 1000 ==> Step(Step(m, Remove), WorkerDecrement).worker == Exited
    ensures m.worker == Awake ==> Step(Step(Step(m, Remove), WorkerRead), WorkerDecrement).worker == Exited
  {
  }
}
