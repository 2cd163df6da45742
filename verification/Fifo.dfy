/**
 The specification both drivers implement: at most two closed chunks waiting to go out, in
 order, plus one open chunk of up to 16384 bytes that writes append to.
 */
module Fifo {
  import opened Frames

  /** `accepted` and `delivered` are the history: accepted write prefixes and delivered chunks. */
  datatype Queue = Queue(accepted: seq<seq<byte>>, delivered: seq<seq<byte>>,
                         waiting: seq<seq<byte>>, open: seq<byte>)

  datatype Op = Stutter | Append(bytes: seq<byte>) | Close | Deliver

  const EMPTY := Queue([], [], [], [])

  predicate Admits(q: Queue, op: Op) {
    match op
    case Stutter => true
    case Append(bytes) => |q.waiting| < 2 && 0 < |bytes| && |q.open| + |bytes| <= 16384
    case Close => |q.waiting| < 2 && q.open != []
    case Deliver => q.waiting != []
  }

  /** A chunk that fills the buffer is closed by the append that fills it. */
  function Apply(q: Queue, op: Op): Queue
    requires Admits(q, op)
  {
    match op
    case Stutter => q
    case Append(bytes) =>
      var open := q.open + bytes;
      var q' := q.(accepted := q.accepted + [bytes]);
      if |open| == 16384 then q'.(waiting := q.waiting + [open], open := []) else q'.(open := open)
    case Close => q.(waiting := q.waiting + [q.open], open := [])
    case Deliver => q.(delivered := q.delivered + [q.waiting[0]], waiting := q.waiting[1..])
  }

  predicate Legal(q: Queue, ops: seq<Op>)
    decreases |ops|, 0
  {
    ops == [] || (Legal(q, ops[..|ops| - 1]) && Admits(Run(q, ops[..|ops| - 1]), ops[|ops| - 1]))
  }

  function Run(q: Queue, ops: seq<Op>): Queue
    requires Legal(q, ops)
    decreases |ops|, 1
  {
    if ops == [] then q else Apply(Run(q, ops[..|ops| - 1]), ops[|ops| - 1])
  }

  /** Every accepted byte is delivered, waiting or open: once, and in the order of acceptance. */
  ghost predicate Conserved(q: Queue) {
    Flatten(q.accepted) == Flatten(q.delivered + q.waiting) + q.open
  }

  /** Sizes: at most two chunks wait, whole or cut short by a flush, and with two nothing is open. */
  ghost predicate Sized(waiting: seq<seq<byte>>, open: seq<byte>) {
    && |waiting| <= 2 && (|waiting| == 2 ==> open == []) && |open| < 16384
    && forall i :: 0 <= i < |waiting| ==> IsChunk(waiting[i])
  }

  ghost predicate Inv(q: Queue) {
    Sized(q.waiting, q.open) && Conserved(q)
  }

  lemma CloseConserves(accepted: seq<seq<byte>>, delivered: seq<seq<byte>>, waiting: seq<seq<byte>>, open: seq<byte>)
    requires Conserved(Queue(accepted, delivered, waiting, open))
    ensures Conserved(Queue(accepted, delivered, waiting + [open], []))
  {
    assert delivered + (waiting + [open]) == (delivered + waiting) + [open];
    FlattenAppend(delivered + waiting, open);
  }

  lemma AppendConserves(q: Queue, bytes: seq<byte>)
    requires Conserved(q)
    ensures Conserved(q.(accepted := q.accepted + [bytes], open := q.open + bytes))
  {
  }

  lemma ApplyConserves(q: Queue, op: Op)
    requires Conserved(q) && Admits(q, op)
    ensures Conserved(Apply(q, op))
  {
    match op
    case Stutter =>
    case Append(bytes) =>
      AppendConserves(q, bytes);
      CloseConserves(q.accepted + [bytes], q.delivered, q.waiting, q.open + bytes);
    case Close =>
      CloseConserves(q.accepted, q.delivered, q.waiting, q.open);
    case Deliver =>
      assert q.delivered + q.waiting == (q.delivered + [q.waiting[0]]) + q.waiting[1..];
  }

  lemma ApplySized(q: Queue, op: Op)
    requires Sized(q.waiting, q.open) && Admits(q, op)
    ensures Sized(Apply(q, op).waiting, Apply(q, op).open)
  {
  }

  lemma ApplyKeeps(q: Queue, op: Op)
    requires Inv(q) && Admits(q, op)
    ensures Inv(Apply(q, op))
  {
    ApplyConserves(q, op);
    ApplySized(q, op);
  }

  /**
   Conservation over whole runs: every accepted byte is delivered, waiting or in the open chunk,
   once and in order; and there are never more than two chunks waiting.
   */
  lemma {:induction false} RunKeeps(ops: seq<Op>)
    requires Legal(EMPTY, ops)
    ensures Inv(Run(EMPTY, ops))
  {
    if ops != [] {
      RunKeeps(ops[..|ops| - 1]);
      ApplyKeeps(Run(EMPTY, ops[..|ops| - 1]), ops[|ops| - 1]);
    }
  }
}
