/**
 What both drivers share: the setup of one transfer, the DMA engine's view of it, the log of
 accepted writes, and the filled part of a buffer.
 */
module Transfers {
  import opened Frames
  import opened DmaSections

  /** setup_DMA_transfer in progress on a claimed buffer; `next` is the padding loop's `count`. */
  datatype Job = Job(buf: int, count: int, next: int, aligned: int)

  datatype Status = InProgress | Completed | Failed | FailedSeen

  /** The engine reads `buf` byte by byte into `sent`, up to `len`. */
  datatype Transfer = Transfer(id: nat, buf: int, len: int, sent: seq<byte>, status: Status)

  /** An accepted write prefix, with the call it came from. */
  datatype Accepted = Accepted(call: nat, bytes: seq<byte>)

  function NewJob(c: Claim): Job {
    Job(c.buf, c.count, c.count, if c.count >= 0 then AlignedLength(c.count) else 0)
  }

  function Pad(j: Job): Job {
    j.(next := j.next + 1)
  }

  /** Prepared and submitted, with a fresh cookie, and issued. */
  function Issued(j: Job, id: nat): Transfer {
    Transfer(id, j.buf, j.aligned, [], InProgress)
  }

  /** The byte the engine reads next. */
  function EngineByte(buffers: seq<seq<byte>>, x: Transfer): byte {
    if 0 <= x.buf < |buffers| && |x.sent| < |buffers[x.buf]| then buffers[x.buf][|x.sent|] else 0
  }

  /** dma_async_is_tx_complete: the status of the transfer the cookie names. */
  function CookieStatus(x: Transfer, cookie: nat): Status {
    if x.id == cookie then x.status else InProgress
  }

  /** The first `n` bytes of a buffer. */
  function Filled(buffers: seq<seq<byte>>, b: int, n: int): seq<byte> {
    if 0 <= b < |buffers| && 0 <= n <= |buffers[b]| then buffers[b][..n] else []
  }

  function Bytes(log: seq<Accepted>): (r: seq<seq<byte>>)
    ensures |r| == |log|
  {
    seq(|log|, i requires 0 <= i < |log| => log[i].bytes)
  }

  /** What a write call was given and what it reports. */
  datatype Outcome = Outcome(user: seq<byte>, ret: int)

  /**
   The log has exactly one entry for each call that reports accepted bytes: the first `ret` bytes
   it was given.
   */
  ghost predicate LogExact(outcomes: map<nat, Outcome>, log: seq<Accepted>) {
    && (forall i :: 0 <= i < |log| ==>
          && log[i].call in outcomes
          && outcomes[log[i].call].ret == |log[i].bytes| > 0
          && log[i].bytes <= outcomes[log[i].call].user)
    && (forall i, j :: 0 <= i < j < |log| ==> log[i].call != log[j].call)
    && (forall t :: t in outcomes ==> exists i :: 0 <= i < |log| && log[i].call == t)
  }

  lemma LogAppend(outcomes: map<nat, Outcome>, log: seq<Accepted>, t: nat, user: seq<byte>, bytes: seq<byte>)
    requires LogExact(outcomes, log) && t !in outcomes && bytes != [] && bytes <= user
    ensures LogExact(outcomes[t := Outcome(user, |bytes|)], log + [Accepted(t, bytes)])
  {
    var outcomes', log' := outcomes[t := Outcome(user, |bytes|)], log + [Accepted(t, bytes)];
    forall u | u in outcomes'
      ensures exists i :: 0 <= i < |log'| && log'[i].call == u
    {
      if u == t {
        assert log'[|log|].call == t;
      } else {
        var i :| 0 <= i < |log| && log[i].call == u;
        assert log'[i].call == u;
      }
    }
  }
}
