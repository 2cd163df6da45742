/**
 The thread version's device class and protocol agree: a dma_write whose steps run without
 interruption does to the data what the method of the class is proved to do.
 */
module ThreadCalls {
  import opened Frames
  import D = DmaSections
  import opened Transfers
  import opened ThreadSections
  import opened ThreadProtocol
  import opened ThreadInvariant

  /** The machine after `k` copy steps: the first `k` bytes are stored. */
  function CopyState(m: Machine, t: nat, k: nat): Machine
    requires IsCopying(m.calls, t) && k <= |m.calls[t].user|
  {
    var pc := m.calls[t];
    m.(dev := m.dev.(buffers := D.StoreBytes(m.dev.buffers, pc.buf, m.dev.pos, pc.user[..k])),
       calls := m.calls[t := pc.(done := k)])
  }

  lemma CopyStateStep(m: Machine, t: nat, k: nat)
    requires IsCopying(m.calls, t) && k < |m.calls[t].user| && k < m.calls[t].n
    ensures Enabled(CopyState(m, t, k), CopyByte(t))
    ensures Step(CopyState(m, t, k), CopyByte(t)) == CopyState(m, t, k + 1)
  {
    var pc := m.calls[t];
    assert pc.user[..k + 1][..k] == pc.user[..k];
    assert m.calls[t := pc.(done := k)][t := pc.(done := k + 1)] == m.calls[t := pc.(done := k + 1)];
  }

  /** The call is past its section under the mutex, with this data and result, and an event to raise if full. */
  ghost predicate Ended(m: Machine, t: nat, user: seq<byte>, spec: (Dev, bool, int)) {
    t in m.calls && m.dev == spec.0
    && m.calls[t] == if spec.1 then Raising(user, spec.2) else Returned(user, spec.2)
  }

  function LastStep(t: nat, n: nat, copied: nat): Event {
    if copied < n then CopyFault(t, Zeros(n - copied)) else FinishWrite(t)
  }

  ghost predicate CopiesThenEnds(m: Machine, t: nat, user: seq<byte>, copied: nat, spec: (Dev, bool, int))
    requires IsCopying(m.calls, t)
  {
    var n := m.calls[t].n;
    && 0 < n <= |user| && m.calls[t].user == user && m == CopyState(m, t, 0)
    && (forall k: nat :: k < n && k < copied ==>
          Enabled(CopyState(m, t, k), CopyByte(t))
          && Step(CopyState(m, t, k), CopyByte(t)) == CopyState(m, t, k + 1))
    && var last, m2 := LastStep(t, n, copied), CopyState(m, t, if copied < n then copied else n);
       Enabled(m2, last) && Ended(Step(m2, last), t, user, spec)
  }

  /**
   A write with nothing in between, of which `copied` bytes arrive, leaves the data and the result
   that dma_write is specified to leave, and an event to raise exactly if the buffer is full.
   */
  lemma UninterruptedWrite(m: Machine, t: nat, user: seq<byte>, copied: nat)
    requires Inv(m) && Enabled(m, BeginWrite(t, user))
    ensures var m1, spec := Step(m, BeginWrite(t, user)), WriteCall(m.dev, user, copied);
            && (IsCopying(m1.calls, t) <==> CanWrite(m.dev) && user != [])
            && (if IsCopying(m1.calls, t) then CopiesThenEnds(m1, t, user, copied, spec) else Ended(m1, t, user, spec))
  {
    var m1 := Step(m, BeginWrite(t, user));
    if IsCopying(m1.calls, t) {
      assert m1.calls[t := m1.calls[t]] == m1.calls;
      WriteEnds(m1, t, copied);
    }
  }

  /** A call that has just begun its copy into the open buffer. */
  predicate JustBegun(m: Machine, t: nat) {
    IsCopying(m.calls, t)
    && var d, pc := m.dev, m.calls[t];
       CanWrite(d) && pc.buf == d.fill && 0 < pc.n == D.WriteCount(d.pos, |pc.user|) && pc.done == 0
  }

  lemma FaultEnds(m: Machine, t: nat, copied: nat)
    requires JustBegun(m, t) && copied < m.calls[t].n
    ensures var m2, last := CopyState(m, t, copied), LastStep(t, m.calls[t].n, copied);
            && Enabled(m2, last)
            && Ended(Step(m2, last), t, m.calls[t].user, WriteCall(m.dev, m.calls[t].user, copied))
  {
    var d, pc := m.dev, m.calls[t];
    var m2 := CopyState(m, t, copied);
    assert m2.calls[t] == pc.(done := copied) && m2.dev.pos == d.pos;
    D.FaultedCopy(d.buffers, pc.buf, d.pos, pc.user, pc.n, copied);
  }

  lemma CommitEnds(m: Machine, t: nat, copied: nat)
    requires JustBegun(m, t) && copied >= m.calls[t].n
    ensures var m2, last := CopyState(m, t, m.calls[t].n), LastStep(t, m.calls[t].n, copied);
            && Enabled(m2, last)
            && Ended(Step(m2, last), t, m.calls[t].user, WriteCall(m.dev, m.calls[t].user, copied))
  {
    var n, user := m.calls[t].n, m.calls[t].user;
    assert D.Arrived(user, n, copied) == user[..n];
  }

  lemma WriteEnds(m: Machine, t: nat, copied: nat)
    requires JustBegun(m, t) && m.calls[t := m.calls[t]] == m.calls
    ensures CopiesThenEnds(m, t, m.calls[t].user, copied, WriteCall(m.dev, m.calls[t].user, copied))
  {
    var pc := m.calls[t];
    forall k: nat | k < pc.n
      ensures Enabled(CopyState(m, t, k), CopyByte(t))
      ensures Step(CopyState(m, t, k), CopyByte(t)) == CopyState(m, t, k + 1)
    {
      CopyStateStep(m, t, k);
    }
    if copied < pc.n {
      FaultEnds(m, t, copied);
    } else {
      CommitEnds(m, t, copied);
    }
  }
}
