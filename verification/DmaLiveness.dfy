/**
 Progress of the built driver: it drains in at most two deliveries and a bounded number of
 steps, wakes every sleeping poller when it does, and stays busy for good after a DMA error.
 */
module DmaLiveness {
  import opened Frames
  import opened DmaSections
  import opened Transfers
  import opened DmaProtocol
  import opened DmaInvariant
  import opened DmaTheorems

  // ---------------------------------------------------------------- draining

  /** The steps of setup code, engine and callback, without errors. */
  predicate Service(e: Event) {
    e.PadByte? || e.Submit? || e.Transmit? || e.TransferDone?
    || e.Callback? || e.CallbackPad? || e.CallbackSubmit? || e.CallbackWake?
  }

  ghost predicate AllService(es: seq<Event>) {
    forall i :: 0 <= i < |es| ==> Service(es[i])
  }

  function JobRank(j: Job): int {
    j.aligned - j.next + BUF_SIZE + 5
  }

  /** The job of the one call that is setting up a transfer. */
  ghost function SettingRank(calls: Calls): int {
    if t :| Setting(calls, t) then JobRank(calls[t].job) else 0
  }

  function EngineRank(engine: Option<Transfer>): int {
    match engine
    case None => 0
    case Some(x) =>
      match x.status
      case InProgress => x.len - |x.sent| + 3
      case Completed => 2
      case Failed => 1
      case FailedSeen => 0
  }

  function CallbackRank(callback: CallbackPc): int {
    match callback
    case CbIdle => 0
    case CbPreparing(j) => JobRank(j) + 1
    case CbWaking => 1
  }

  /** An upper bound on the number of service steps left. */
  ghost function Rank(m: Machine): int {
    SettingRank(m.calls) + EngineRank(m.engine) + CallbackRank(m.callback)
    + if Occupancy(m.dev) == 2 then BUF_SIZE + 100 else 0
  }

  lemma RankNonnegative(m: Machine)
    requires Inv(m)
    ensures Rank(m) >= 0
  {
  }

  lemma SettingRankOf(calls: Calls, t: nat)
    requires Setting(calls, t) && forall u :: Setting(calls, u) ==> u == t
    ensures SettingRank(calls) == JobRank(calls[t].job)
  {
  }

  lemma CallServiceDecreases(m: Machine, e: Event)
    requires Inv(m) && (e.PadByte? || e.Submit?) && Enabled(m, e)
    ensures Rank(Step(m, e)) < Rank(m)
  {
    var m' := Step(m, e);
    assert Setting(m.calls, e.t);
    assert JobOk(m.dev, Current(m.closed, m.delivered), m.calls[e.t].job);
    SettingRankOf(m.calls, e.t);
    assert forall u :: Setting(m'.calls, u) ==> Setting(m.calls, u);
    if e.PadByte? {
      SettingRankOf(m'.calls, e.t);
    }
  }

  lemma CallbackDecreases(m: Machine)
    requires Inv(m) && Enabled(m, Callback)
    ensures Rank(Step(m, Callback)) < Rank(m)
  {
    if CookieStatus(m.engine.value, m.cookie) == Completed {
      CompleteData(m.dev, m.engine.value, m.cookie, m.closed, m.delivered);
    }
  }

  /** Every service step uses up rank. */
  lemma ServiceDecreases(m: Machine, e: Event)
    requires Inv(m) && Service(e) && Enabled(m, e)
    ensures Rank(Step(m, e)) < Rank(m)
  {
    if e.PadByte? || e.Submit? {
      CallServiceDecreases(m, e);
    } else if e.Callback? {
      CallbackDecreases(m);
    }
  }

  ghost predicate Quiet(m: Machine) {
    forall e :: Service(e) ==> !Enabled(m, e)
  }

  ghost predicate NotFailed(m: Machine) {
    m.engine.Some? ==> m.engine.value.status == InProgress || m.engine.value.status == Completed
  }

  /** Without an error, service stops only when nothing is outstanding and nobody needs waking. */
  lemma QuietIsIdle(m: Machine)
    requires Inv(m) && Quiet(m) && NotFailed(m)
    ensures m.dev.active == -1 && m.callback.CbIdle? && Occupancy(m.dev) == 0
    ensures forall p :: p in m.pollers ==> m.pollers[p] != Sleeping(false)
  {
    assert !Enabled(m, CallbackPad) && !Enabled(m, CallbackSubmit) && !Enabled(m, CallbackWake);
    assert !Enabled(m, Transmit) && !Enabled(m, TransferDone) && !Enabled(m, Callback);
    assert forall t :: Setting(m.calls, t) ==> Enabled(m, PadByte(t)) || Enabled(m, Submit(t));
  }

  lemma ServiceDelivers(m: Machine, e: Event)
    requires Inv(m) && Service(e) && Enabled(m, e) && NotFailed(m)
    ensures var m' := Step(m, e);
            && NotFailed(m') && m'.closed == m.closed && |m'.delivered| >= |m.delivered|
            && (e == Callback ==> |m'.delivered| == |m.delivered| + 1)
            && (e != Callback ==> |m'.delivered| == |m.delivered|)
  {
  }

  function CountCallbacks(es: seq<Event>): nat {
    if es == [] then 0
    else CountCallbacks(es[..|es| - 1]) + if es[|es| - 1] == Callback then 1 else 0
  }

  /**
   With no new writes, every run of service steps is bounded by the rank, each completion lowers
   the occupancy by one, and the closed chunks stay what they were.
   */
  lemma {:induction false} ServiceRun(m: Machine, es: seq<Event>)
    requires Inv(m) && NotFailed(m) && Legal(m, es) && AllService(es)
    ensures var m' := Run(m, es);
            && Inv(m') && NotFailed(m') && m'.closed == m.closed
            && |es| <= Rank(m) - Rank(m')
            && Occupancy(m'.dev) + CountCallbacks(es) == Occupancy(m.dev)
            && |m'.delivered| == |m.delivered| + CountCallbacks(es)
  {
    if es != [] {
      var es', e := es[..|es| - 1], es[|es| - 1];
      ServiceRun(m, es');
      var m1 := Run(m, es');
      StepKeeps(m1, e);
      ServiceDecreases(m1, e);
      ServiceDelivers(m1, e);
    }
  }

  /**
   Draining: from any reachable state without an error, a run of service steps that cannot be
   continued has sent every closed chunk, padded, in at most two completions, has left no
   buffer active, and has triggered every sleeping poller.
   */
  lemma Drains(m: Machine, es: seq<Event>)
    requires Reachable(m) && NotFailed(m) && Legal(m, es) && AllService(es) && Quiet(Run(m, es))
    ensures var m' := Run(m, es);
            && |es| <= Rank(m) && CountCallbacks(es) == Occupancy(m.dev) <= 2
            && m'.dev.active == -1 && m'.closed == m.closed && |m'.delivered| == |m.closed|
            && (forall i :: 0 <= i < |m.closed| ==>
                  IsChunk(m.closed[i]) && m'.delivered[i] == Padded(m.closed[i]))
            && forall p :: p in m'.pollers ==> m'.pollers[p] != Sleeping(false)
  {
    ReachableInv(m);
    ServiceRun(m, es);
    QuietIsIdle(Run(m, es));
    RankNonnegative(Run(m, es));
  }

  // ---------------------------------------------------------------- after an error

  ghost predicate HasFailed(m: Machine) {
    m.engine.Some? && (m.engine.value.status == Failed || m.engine.value.status == FailedSeen)
  }

  /**
   A transfer error is final: whatever happens afterwards, nothing more is delivered, so at most
   two chunks can ever be outstanding and after that every write is refused.
   */
  lemma {:induction false} ErrorIsFinal(m: Machine, es: seq<Event>)
    requires Inv(m) && HasFailed(m) && Legal(m, es)
    ensures var m' := Run(m, es);
            Inv(m') && HasFailed(m') && m'.delivered == m.delivered && |m'.closed| <= |m.delivered| + 2
  {
    if es != [] {
      var es', e := es[..|es| - 1], es[|es| - 1];
      ErrorIsFinal(m, es');
      StepKeeps(Run(m, es'), e);
      ErrorStep(Run(m, es'), e);
    }
  }

  lemma ErrorStep(m: Machine, e: Event)
    requires Inv(m) && HasFailed(m) && Enabled(m, e)
    ensures HasFailed(Step(m, e)) && Step(m, e).delivered == m.delivered
  {
    assert forall t :: Setting(m.calls, t) ==> m.engine.None?;
  }

  // ---------------------------------------------------------------- poll

  /** Steps that advance `pos` or close the open buffer. */
  predicate Commits(e: Event) {
    e.FinishWrite? || (e.Flush? && e.value == 1)
  }

  /** Writability and `pos` survive every step except a commit: in particular every callback step. */
  lemma WritableStep(m: Machine, e: Event)
    requires Inv(m) && Enabled(m, e) && !Commits(e) && CanWrite(m.dev)
    ensures CanWrite(Step(m, e).dev) && Step(m, e).dev.pos == m.dev.pos
  {
  }

  lemma {:induction false} WritableRun(m: Machine, es: seq<Event>)
    requires Inv(m) && Legal(m, es) && CanWrite(m.dev)
    requires forall i :: 0 <= i < |es| ==> !Commits(es[i])
    ensures Inv(Run(m, es)) && CanWrite(Run(m, es).dev) && Run(m, es).dev.pos == m.dev.pos
  {
    if es != [] {
      WritableRun(m, es[..|es| - 1]);
      StepKeeps(Run(m, es[..|es| - 1]), es[|es| - 1]);
      WritableStep(Run(m, es[..|es| - 1]), es[|es| - 1]);
    }
  }

  /**
   Poll soundness: poll reports writable exactly when no closed chunk fills the second buffer,
   and then, until some other write or flush commits, the next nonempty write is accepted for
   min(count, BUF_SIZE - pos) bytes, at least one.
   */
  lemma PollSound(m: Machine, p: nat, m1: Machine, es: seq<Event>, t: nat, user: seq<byte>)
    requires Reachable(m) && Enabled(m, PollCheck(p)) && m1 == Step(m, PollCheck(p)) && Legal(m1, es)
    requires forall i :: 0 <= i < |es| ==> !Commits(es[i])
    requires Enabled(Run(m1, es), BeginWrite(t, user)) && user != []
    ensures p in m1.pollers && (m1.pollers[p] == Writable <==> Occupancy(m.dev) < 2)
    ensures m1.pollers[p] == Writable ==> Accepts(Run(m1, es), t, user, BUF_SIZE - m.dev.pos)
  {
    ReachableInv(m);
    PollChecked(m, p);
    if CanWrite(m.dev) {
      WritableUntilWrite(m1, es, t, user);
    }
  }

  lemma PollChecked(m: Machine, p: nat)
    requires Inv(m) && Enabled(m, PollCheck(p))
    ensures var m' := Step(m, PollCheck(p));
            Inv(m') && m'.dev == m.dev && (m'.pollers[p] == Writable <==> CanWrite(m.dev))
    ensures CanWrite(m.dev) <==> Occupancy(m.dev) < 2
  {
    PollKeeps(m, PollCheck(p));
  }

  lemma WritableUntilWrite(m: Machine, es: seq<Event>, t: nat, user: seq<byte>)
    requires Inv(m) && CanWrite(m.dev) && Legal(m, es) && user != []
    requires forall i :: 0 <= i < |es| ==> !Commits(es[i])
    requires Enabled(Run(m, es), BeginWrite(t, user))
    ensures Accepts(Run(m, es), t, user, BUF_SIZE - m.dev.pos)
  {
    WritableRun(m, es);
    WritableAccepts(Run(m, es), t, user);
  }

  /** A write begun now is admitted and takes what fits in `room` bytes, at least one. */
  predicate Accepts(m: Machine, t: nat, user: seq<byte>, room: int)
    requires Enabled(m, BeginWrite(t, user))
  {
    && room >= 1
    && Step(m, BeginWrite(t, user)).calls[t]
       == Copying(user, m.dev.fill, if |user| <= room then |user| else room, 0)
  }

  lemma WritableAccepts(m: Machine, t: nat, user: seq<byte>)
    requires Inv(m) && CanWrite(m.dev) && Enabled(m, BeginWrite(t, user)) && user != []
    ensures Accepts(m, t, user, BUF_SIZE - m.dev.pos)
  {
  }

  /**
   No lost wakeup: a poller that sleeps untriggered although it could write has the callback
   still before its wake-up, and that wake-up triggers it, so that it can check again.
   */
  lemma NoLostWakeup(m: Machine, p: nat)
    requires Reachable(m) && p in m.pollers && m.pollers[p] == Sleeping(false) && CanWrite(m.dev)
    ensures !m.callback.CbIdle?
    ensures m.callback.CbWaking? ==> Enabled(m, CallbackWake) && Enabled(Step(m, CallbackWake), PollRetry(p))
    ensures m.callback.CbPreparing? ==> Enabled(m, CallbackPad) || Enabled(m, CallbackSubmit)
  {
    ReachableInv(m);
  }
}
