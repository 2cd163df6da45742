/**
 Progress of the kernel-thread design without any fairness assumption: with no new calls every
 run is bounded and ends drained; after a DMA error nothing moves any more.
 */
module ThreadLiveness {
  import opened Frames
  import D = DmaSections
  import opened Transfers
  import opened ThreadSections
  import opened ThreadProtocol
  import opened ThreadInvariant
  import opened ThreadTheorems

  // ---------------------------------------------------------------- the measure

  /** Everything but new calls, faults, errors and removal. */
  predicate Service(e: Event) {
    !(e.BeginWrite? || e.CopyFault? || e.TransferError? || e.Remove?)
  }

  ghost predicate AllService(es: seq<Event>) {
    forall i :: 0 <= i < |es| ==> Service(es[i])
  }

  /** Steps one transfer needs from the decision to start it until its event is counted. */
  const TRANSFER_STEPS := BUF_SIZE + 20

  function RaisingSet(calls: Calls): set<nat> {
    set t | t in calls && calls[t].Raising?
  }

  function WorkerRank(worker: Worker): nat {
    match worker
    case Waiting => 2
    case Awake => 1
    case Read(_) => 0
    case Sampling => 4
    case Deciding(_, _) => 3
    case Starting(_) => TRANSFER_STEPS
    case Preparing(_) => TRANSFER_STEPS - 1
    case Exited => 0
  }

  function EngineRank(engine: Option<Transfer>): int {
    match engine
    case None => 0
    case Some(x) =>
      match x.status
      case InProgress => x.len - |x.sent| + 12
      case Completed => 11
      case Failed => 1
      case FailedSeen => 0
  }

  /** Occupied slots whose transfer has not been decided on. */
  function Unstarted(d: Dev, worker: Worker): int
    requires ShapeOk(d)
  {
    Occupancy(d) - (if Unfreed(d.finished, worker) then 1 else 0) - (if d.running then 1 else 0)
  }

  function CopyRank(calls: Calls, mutex: Option<nat>): int {
    if mutex.Some? && IsCopying(calls, mutex.value)
    then calls[mutex.value].n - calls[mutex.value].done + TRANSFER_STEPS + 10 else 0
  }

  /** Counted events, events about to be counted, and transfers to come, each with the steps it takes. */
  function Rank(m: Machine): int
    requires ShapeOk(m.dev)
  {
    6 * (if m.flag > 0 then m.flag else 0) + 7 * |RaisingSet(m.calls)| + (if m.raising then 7 else 0)
    + WorkerRank(m.worker) + EngineRank(m.engine) + TRANSFER_STEPS * Unstarted(m.dev, m.worker)
    + CopyRank(m.calls, m.mutex)
  }

  ghost predicate NotFailed(m: Machine) {
    m.engine.Some? ==> m.engine.value.status == InProgress || m.engine.value.status == Completed
  }

  lemma RankNonnegative(m: Machine)
    requires Inv(m)
    ensures Rank(m) >= 0
  {
    UnstartedNonnegative(m.dev, Current(m.closed, m.freed), m.worker, m.engine, m.cookie);
    assert m.mutex.Some? ==> CopyOk(m.dev, m.calls[m.mutex.value]);
  }

  lemma UnstartedNonnegative(d: Dev, c: seq<byte>, worker: Worker, engine: Option<Transfer>, cookie: nat)
    requires ShapeOk(d) && SlotsOk(d) && TokenOk(d, c, worker, engine, cookie)
    ensures Unstarted(d, worker) >= 0 && EngineRank(engine) >= 0
  {
  }

  lemma RaisingAfter(calls: Calls, t: nat, pc: WritePc)
    requires t in calls && !calls[t].Raising?
    ensures |RaisingSet(calls[t := pc])| == |RaisingSet(calls)| + if pc.Raising? then 1 else 0
  {
    assert RaisingSet(calls[t := pc]) == if pc.Raising? then RaisingSet(calls) + {t} else RaisingSet(calls);
  }

  lemma RaisingRemove(calls: Calls, t: nat, pc: WritePc)
    requires t in calls && calls[t].Raising? && !pc.Raising?
    ensures |RaisingSet(calls)| == |RaisingSet(calls[t := pc])| + 1
  {
    assert RaisingSet(calls[t := pc]) == RaisingSet(calls) - {t};
  }

  // ---------------------------------------------------------------- every step uses it up

  lemma CopyByteDecreases(m: Machine, t: nat)
    requires Inv(m) && Enabled(m, CopyByte(t))
    ensures ShapeOk(Step(m, CopyByte(t)).dev) && Rank(Step(m, CopyByte(t))) < Rank(m)
  {
    RaisingAfter(m.calls, t, Step(m, CopyByte(t)).calls[t]);
    CopyByteData(m.dev, m.calls[t]);
  }

  lemma FinishWriteDecreases(m: Machine, t: nat)
    requires ShapeOk(m.dev) && Enabled(m, FinishWrite(t)) && CopyOk(m.dev, m.calls[t]) && m.mutex == Some(t)
    ensures ShapeOk(Step(m, FinishWrite(t)).dev) && Rank(Step(m, FinishWrite(t))) < Rank(m)
  {
    var m', pc := Step(m, FinishWrite(t)), m.calls[t];
    CommitUnstarted(m.dev, pc.n, m.worker);
    assert m'.flag == m.flag && m'.raising == m.raising && m'.worker == m.worker && m'.engine == m.engine;
    RaisingAfter(m.calls, t, m'.calls[t]);
  }

  lemma CommitUnstarted(d: Dev, n: int, worker: Worker)
    requires ShapeOk(d) && !d.waiting[d.fill] && 0 <= n && d.pos + n <= BUF_SIZE
    ensures var (d', full) := CommitWrite(d, d.fill, n);
            ShapeOk(d') && Unstarted(d', worker) == Unstarted(d, worker) + if full then 1 else 0
  {
  }

  lemma RaiseDecreases(m: Machine, t: nat)
    requires Inv(m) && Enabled(m, Raise(t))
    ensures Rank(Step(m, Raise(t))) < Rank(m)
  {
    RaisingRemove(m.calls, t, Step(m, Raise(t)).calls[t]);
  }

  lemma WorkerDecreases(m: Machine, e: Event)
    requires Inv(m) && Enabled(m, e)
    requires e in {WorkerWake, WorkerRead, WorkerDecrement, WorkerSample, WorkerPrepare, WorkerPad, WorkerSubmit}
    ensures ShapeOk(Step(m, e).dev) && Rank(Step(m, e)) < Rank(m)
  {
  }

  lemma DecideDecreases(m: Machine)
    requires Enabled(m, WorkerDecide) && ShapeOk(m.dev) && SlotsOk(m.dev)
    requires !m.worker.busy ==> !m.dev.running && !m.dev.finished
    requires m.worker.finished ==> !m.worker.busy && m.dev.waiting[m.dev.nextUp]
    ensures ShapeOk(Step(m, WorkerDecide).dev) && Rank(Step(m, WorkerDecide)) < Rank(m)
  {
    var m', start := Step(m, WorkerDecide), Decide(m.dev, m.worker.busy, m.worker.finished).1;
    DecideUnstarted(m.dev, m.worker.busy, m.worker.finished);
    assert Unstarted(m'.dev, m'.worker) == Unstarted(m'.dev, Waiting);
    assert m'.flag == m.flag && m'.calls == m.calls && m'.raising == m.raising;
    assert m'.engine == m.engine && m'.mutex == m.mutex;
    assert WorkerRank(m'.worker) == if start.Some? then TRANSFER_STEPS else 2;
  }

  lemma DecideUnstarted(d: Dev, busy: bool, finished: bool)
    requires ShapeOk(d) && SlotsOk(d)
    requires (!busy ==> !d.running && !d.finished) && (finished ==> !busy && d.waiting[d.nextUp])
    ensures var (d', start) := Decide(d, busy, finished);
            && ShapeOk(d')
            && Unstarted(d', Waiting) == Unstarted(d, Deciding(busy, finished)) - if start.Some? then 1 else 0
  {
  }

  lemma EngineDecreases(m: Machine, e: Event)
    requires Inv(m) && NotFailed(m) && e in {Transmit, TransferDone, Callback, CallbackRaise} && Enabled(m, e)
    ensures ShapeOk(Step(m, e).dev) && Rank(Step(m, e)) < Rank(m)
  {
  }

  lemma ServiceDecreases(m: Machine, e: Event)
    requires Inv(m) && NotFailed(m) && Service(e) && Enabled(m, e)
    ensures ShapeOk(Step(m, e).dev) && Rank(Step(m, e)) < Rank(m)
  {
    match e
    case CopyByte(t) => CopyByteDecreases(m, t);
    case FinishWrite(t) =>
      assert CopyOk(m.dev, m.calls[t]);
      FinishWriteDecreases(m, t);
    case Raise(t) => RaiseDecreases(m, t);
    case WorkerDecide => DecideDecreases(m);
    case Transmit => EngineDecreases(m, e);
    case TransferDone => EngineDecreases(m, e);
    case Callback => EngineDecreases(m, e);
    case CallbackRaise => EngineDecreases(m, e);
    case _ => WorkerDecreases(m, e);
  }

  // ---------------------------------------------------------------- draining

  function CountCallbacks(es: seq<Event>): nat {
    if es == [] then 0
    else CountCallbacks(es[..|es| - 1]) + if es[|es| - 1] == Callback then 1 else 0
  }

  lemma ServiceStep(m: Machine, e: Event)
    requires ShapeOk(m.dev) && MutexOk(m.dev, m.mutex, m.calls) && NotFailed(m) && Service(e) && Enabled(m, e)
    requires m.engine.Some? ==> m.engine.value.id == m.cookie
    ensures var m' := Step(m, e);
            && NotFailed(m') && m.closed <= m'.closed && |m'.closed| <= |m.closed| + 1
            && (m'.closed != m.closed ==> m.mutex.Some?)
            && (m'.mutex.Some? ==> m.mutex.Some? && m'.closed == m.closed)
            && |m'.delivered| == |m.delivered| + if e == Callback then 1 else 0
  {
  }

  /**
   With no new calls, every run is bounded by the rank, closes at most the chunk of the write that
   was copying, and delivers one chunk for each completion.
   */
  lemma {:induction false} ServiceRun(m: Machine, es: seq<Event>)
    requires Inv(m) && NotFailed(m) && Legal(m, es) && AllService(es)
    ensures var m' := Run(m, es);
            && Inv(m') && NotFailed(m') && |es| <= Rank(m) - Rank(m')
            && m.closed <= m'.closed && |m'.closed| <= |m.closed| + (if m.mutex.Some? then 1 else 0)
            && (m'.mutex.Some? ==> m.mutex.Some? && m'.closed == m.closed)
            && |m'.delivered| == |m.delivered| + CountCallbacks(es)
  {
    if es != [] {
      var es', e := es[..|es| - 1], es[|es| - 1];
      ServiceRun(m, es');
      var m1 := Run(m, es');
      StepKeeps(m1, e);
      ServiceDecreases(m1, e);
      ServiceStep(m1, e);
    }
  }

  /**
   Draining, whatever the scheduler does: from any reachable state without an error, a run without
   new calls takes at most `Rank` steps, and one that cannot go on, with the worker not told to
   leave, has delivered every closed chunk and used up every event.
   */
  lemma Drains(m: Machine, es: seq<Event>)
    requires Reachable(m) && NotFailed(m) && Legal(m, es) && AllService(es)
    ensures ShapeOk(m.dev)
    ensures var m' := Run(m, es);
            && |es| <= Rank(m) && ShapeOk(m'.dev)
            && (Quiet(m') && !Leaving(m'.worker) ==>
                  && m'.delivered == m'.closed && m.closed <= m'.closed
                  && m'.worker == Waiting && m'.flag == 0 && Occupancy(m'.dev) == 0
                  && CountCallbacks(es) == |m'.closed| - |m.delivered|)
  {
    ReachableInv(m);
    ServiceRun(m, es);
    RankNonnegative(Run(m, es));
    if Quiet(Run(m, es)) && !Leaving(Run(m, es).worker) {
      QuietInv(Run(m, es));
    }
  }

  // ---------------------------------------------------------------- after an error

  ghost predicate HasFailed(m: Machine) {
    m.engine.Some? && (m.engine.value.status == Failed || m.engine.value.status == FailedSeen)
  }

  /**
   A transfer error is final: the transfer counts as running for good, so no slot is freed, nothing
   is started or delivered any more, and at most two chunks can ever be outstanding.
   */
  lemma {:induction false} ErrorIsFinal(m: Machine, es: seq<Event>)
    requires Inv(m) && HasFailed(m) && Legal(m, es)
    ensures var m' := Run(m, es);
            && Inv(m') && HasFailed(m') && m'.dev.running
            && m'.issued == m.issued && m'.delivered == m.delivered && m'.freed == m.freed
            && |m'.closed| <= |m.delivered| + 2
  {
    if es != [] {
      var es', e := es[..|es| - 1], es[|es| - 1];
      ErrorIsFinal(m, es');
      StepKeeps(Run(m, es'), e);
      ErrorStep(Run(m, es'), e);
    }
    RunningChunks(Run(m, es));
  }

  lemma RunningChunks(m: Machine)
    requires Inv(m) && HasFailed(m)
    ensures m.dev.running && |m.closed| <= |m.delivered| + 2
  {
  }

  lemma ErrorStep(m: Machine, e: Event)
    requires ShapeOk(m.dev) && TokenOk(m.dev, Current(m.closed, m.freed), m.worker, m.engine, m.cookie)
    requires HasFailed(m) && Enabled(m, e)
    ensures var m' := Step(m, e);
            HasFailed(m') && m'.issued == m.issued && m'.delivered == m.delivered && m'.freed == m.freed
  {
  }
}
