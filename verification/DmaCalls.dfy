/**
 The device class and the protocol agree: a dma_write or a transfer setup whose steps run without
 interruption does to the data what the method of the class is proved to do.
 */
module DmaCalls {
  import opened Frames
  import opened DmaSections
  import opened Transfers
  import opened DmaProtocol
  import opened DmaInvariant
  import opened DmaDevice

  /** The machine after `k` copy steps: the first `k` bytes are stored. */
  function CopyState(m: Machine, t: nat, k: nat): Machine
    requires IsCopying(m.calls, t) && k <= |m.calls[t].user|
  {
    var pc := m.calls[t];
    m.(dev := m.dev.(buffers := StoreBytes(m.dev.buffers, pc.buf, m.dev.pos, pc.user[..k])),
       calls := m.calls[t := pc.(done := k)])
  }

  lemma CopyStateStep(m: Machine, t: nat, k: nat)
    requires IsCopying(m.calls, t) && k < |m.calls[t].user| && k < m.calls[t].n
    ensures Enabled(CopyState(m, t, k), CopyByte(t))
    ensures Step(CopyState(m, t, k), CopyByte(t)) == CopyState(m, t, k + 1)
  {
    var pc := m.calls[t];
    assert pc.user[..k + 1][..k] == pc.user[..k];
    assert m.calls[t := pc.(done := k)][t := pc.(done := k + 1)] == m.calls[t := pc.(done := k + 1)];
  }

  /**
   A write with nothing in between, of which `copied` bytes arrive: a busy or empty one ends at
   once; otherwise the copies lead through the states `CopyState(m1, t, 0..)` to the fault or to
   the commit. Either way data and result are what dma_write is specified to leave.
   */
  lemma UninterruptedWrite(m: Machine, t: nat, user: seq<byte>, copied: nat)
    requires Inv(m) && Enabled(m, BeginWrite(t, user))
    ensures var m1, spec := Step(m, BeginWrite(t, user)), DmaSections.WriteCall(m.dev, user, copied);
            && (IsCopying(m1.calls, t) <==> CanWrite(m.dev) && user != [])
            && (if IsCopying(m1.calls, t) then CopiesThenEnds(m1, t, user, copied, spec) else Ended(m1, t, user, spec))
  {
    var m1 := Step(m, BeginWrite(t, user));
    if IsCopying(m1.calls, t) {
      assert m1.calls[t := m1.calls[t]] == m1.calls;
      WriteEnds(m1, t, copied);
    }
  }

  /** The call is past its locked section, with this data, claim and result. */
  ghost predicate Ended(m: Machine, t: nat, user: seq<byte>, spec: (Dev, Option<Claim>, int)) {
    t in m.calls && m.dev == spec.0 && m.calls[t] == After(DmaProtocol.WriteCall(user), spec.1, spec.2)
  }

  /** The last step of a copy of which `copied` bytes arrive. */
  function LastStep(t: nat, n: nat, copied: nat): Event {
    if copied < n then CopyFault(t, Zeros(n - copied)) else FinishWrite(t)
  }

  ghost predicate CopiesThenEnds(m: Machine, t: nat, user: seq<byte>, copied: nat, spec: (Dev, Option<Claim>, int))
    requires IsCopying(m.calls, t)
  {
    var n := m.calls[t].n;
    && 0 < n <= |user| && m.calls[t].user == user && m == CopyState(m, t, 0)
    && (forall k: nat :: k < n && k < copied ==>
          Enabled(CopyState(m, t, k), CopyByte(t))
          && Step(CopyState(m, t, k), CopyByte(t)) == CopyState(m, t, k + 1))
    && var last, m2 := LastStep(t, n, copied), CopyState(m, t, if copied < n then copied else n);
       Enabled(m2, last) && Ended(Step(m2, last), t, user, spec)
  }

  /** A call that has just begun its copy into the open buffer. */
  predicate JustBegun(m: Machine, t: nat) {
    IsCopying(m.calls, t)
    && var d, pc := m.dev, m.calls[t];
       CanWrite(d) && pc.buf == d.fill && 0 < pc.n == WriteCount(d.pos, |pc.user|) && pc.done == 0
  }

  lemma FaultEnds(m: Machine, t: nat, copied: nat)
    requires JustBegun(m, t) && copied < m.calls[t].n
    ensures var m2, last := CopyState(m, t, copied), LastStep(t, m.calls[t].n, copied);
            && Enabled(m2, last)
            && Ended(Step(m2, last), t, m.calls[t].user, DmaSections.WriteCall(m.dev, m.calls[t].user, copied))
  {
    var d, pc := m.dev, m.calls[t];
    var m2 := CopyState(m, t, copied);
    assert m2.calls[t] == pc.(done := copied) && m2.dev.pos == d.pos;
    FaultedCopy(d.buffers, pc.buf, d.pos, pc.user, pc.n, copied);
  }

  lemma CommitEnds(m: Machine, t: nat, copied: nat)
    requires JustBegun(m, t) && copied >= m.calls[t].n
    ensures var m2, last := CopyState(m, t, m.calls[t].n), LastStep(t, m.calls[t].n, copied);
            && Enabled(m2, last)
            && Ended(Step(m2, last), t, m.calls[t].user, DmaSections.WriteCall(m.dev, m.calls[t].user, copied))
  {
    var n, user := m.calls[t].n, m.calls[t].user;
    assert Arrived(user, n, copied) == user[..n];
  }

  lemma WriteEnds(m: Machine, t: nat, copied: nat)
    requires JustBegun(m, t) && m.calls[t := m.calls[t]] == m.calls
    ensures CopiesThenEnds(m, t, m.calls[t].user, copied, DmaSections.WriteCall(m.dev, m.calls[t].user, copied))
  {
    var pc := m.calls[t];
    forall k: nat | k < pc.n
      ensures Enabled(CopyState(m, t, k), CopyByte(t))
      ensures Step(CopyState(m, t, k), CopyByte(t)) == CopyState(m, t, k + 1)
    {
      CopyStateStep(m, t, k);
    }
    if copied < pc.n {
      FaultEnds(m, t, copied);
    } else {
      CommitEnds(m, t, copied);
    }
  }

  /** The machine after `k` padding steps: `k` zeros are stored behind the chunk. */
  function PadState(m: Machine, t: nat, k: nat): Machine
    requires Setting(m.calls, t)
  {
    var pc := m.calls[t];
    m.(dev := m.dev.(buffers := StoreBytes(m.dev.buffers, pc.job.buf, pc.job.count, Zeros(k))),
       calls := m.calls[t := pc.(job := pc.job.(next := pc.job.count + k))])
  }

  lemma PadStateStep(m: Machine, t: nat, k: nat)
    requires Setting(m.calls, t) && m.calls[t].job.count + k < m.calls[t].job.aligned
    ensures Enabled(PadState(m, t, k), PadByte(t))
    ensures Step(PadState(m, t, k), PadByte(t)) == PadState(m, t, k + 1)
  {
    var pc := m.calls[t];
    assert Zeros(k + 1)[..k] == Zeros(k);
    var pc1, pc2 := pc.(job := pc.job.(next := pc.job.count + k)), pc.(job := pc.job.(next := pc.job.count + k + 1));
    assert m.calls[t := pc1][t := pc2] == m.calls[t := pc2];
  }

  /**
   A setup that runs through: the padding steps lead through `PadState(m, t, 0..)`, and what is
   then submitted is the buffer and length the padding method of the class leaves.
   */
  lemma UninterruptedSetup(m: Machine, t: nat)
    requires Inv(m) && Setting(m.calls, t) && m.calls[t].job.next == m.calls[t].job.count
    ensures var j := m.calls[t].job; var k := j.aligned - j.count;
            && k >= 0 && m == PadState(m, t, 0)
            && (forall i: nat :: i < k ==>
                  Enabled(PadState(m, t, i), PadByte(t))
                  && Step(PadState(m, t, i), PadByte(t)) == PadState(m, t, i + 1))
            && Enabled(PadState(m, t, k), Submit(t))
            && j.buf in {0, 1} && 0 < j.count <= BUF_SIZE
            && |m.dev.buffers| == 2 && |m.dev.buffers[j.buf]| == BUF_SIZE
            && var m' := Step(PadState(m, t, k), Submit(t));
               && m'.dev == Device.Prepared(m.dev, Some(Claim(j.buf, j.count)))
               && m'.engine == Some(Transfer(m.issued + 1, j.buf, AlignedLength(j.count), [], InProgress))
  {
    var j := m.calls[t].job;
    assert JobOk(m.dev, Current(m.closed, m.delivered), j);
    assert m.calls[t := m.calls[t]] == m.calls;
    PadSteps(m, t);
    PaddingPrepares(m.dev, j.buf, j.count);
  }

  lemma PadSteps(m: Machine, t: nat)
    requires Setting(m.calls, t)
    ensures var j := m.calls[t].job;
            forall i: nat :: i < j.aligned - j.count ==>
              Enabled(PadState(m, t, i), PadByte(t))
              && Step(PadState(m, t, i), PadByte(t)) == PadState(m, t, i + 1)
  {
    forall i: nat | i < m.calls[t].job.aligned - m.calls[t].job.count
      ensures Enabled(PadState(m, t, i), PadByte(t))
      ensures Step(PadState(m, t, i), PadByte(t)) == PadState(m, t, i + 1)
    {
      PadStateStep(m, t, i);
    }
  }

  /** The same for the callback: the machine after `k` of its padding steps. */
  function CallbackPadState(m: Machine, k: nat): Machine
    requires m.callback.CbPreparing?
  {
    var j := m.callback.job;
    m.(dev := m.dev.(buffers := StoreBytes(m.dev.buffers, j.buf, j.count, Zeros(k))),
       callback := CbPreparing(j.(next := j.count + k)))
  }

  lemma CallbackPadStateStep(m: Machine, k: nat)
    requires m.callback.CbPreparing? && m.callback.job.count + k < m.callback.job.aligned
    ensures Enabled(CallbackPadState(m, k), CallbackPad)
    ensures Step(CallbackPadState(m, k), CallbackPad) == CallbackPadState(m, k + 1)
  {
    assert Zeros(k + 1)[..k] == Zeros(k);
  }

  /** The callback's setup leaves and submits what the setup method does. */
  lemma UninterruptedCallback(m: Machine)
    requires Inv(m) && m.callback.CbPreparing? && m.callback.job.next == m.callback.job.count
    ensures var j := m.callback.job; var k := j.aligned - j.count;
            && k >= 0 && m == CallbackPadState(m, 0)
            && (forall i: nat :: i < k ==>
                  Enabled(CallbackPadState(m, i), CallbackPad)
                  && Step(CallbackPadState(m, i), CallbackPad) == CallbackPadState(m, i + 1))
            && Enabled(CallbackPadState(m, k), CallbackSubmit)
            && j.buf in {0, 1} && 0 < j.count <= BUF_SIZE
            && |m.dev.buffers| == 2 && |m.dev.buffers[j.buf]| == BUF_SIZE
            && var m' := Step(CallbackPadState(m, k), CallbackSubmit);
               && m'.dev == Device.Prepared(m.dev, Some(Claim(j.buf, j.count)))
               && m'.engine == Some(Transfer(m.issued + 1, j.buf, AlignedLength(j.count), [], InProgress))
  {
    var j := m.callback.job;
    forall i: nat | i < j.aligned - j.count
      ensures Enabled(CallbackPadState(m, i), CallbackPad)
      ensures Step(CallbackPadState(m, i), CallbackPad) == CallbackPadState(m, i + 1)
    {
      CallbackPadStateStep(m, i);
    }
    PaddingPrepares(m.dev, j.buf, j.count);
  }

  lemma PaddingPrepares(d: Dev, buf: int, count: nat)
    requires ShapeOk(d) && buf in {0, 1} && 0 < count <= BUF_SIZE
    ensures AlignedLength(count) >= count
    ensures d.(buffers := StoreBytes(d.buffers, buf, count, Zeros(AlignedLength(count) - count)))
            == Device.Prepared(d, Some(Claim(buf, count)))
  {
    AlignedLeast(count);
    var b, k := d.buffers[buf], AlignedLength(count) - count;
    StoredBytes(d.buffers, buf, count, Zeros(k));
    assert b[..count] + Zeros(k) + b[count + k..] == Padded(b[..count]) + b[count + k..];
  }
}
