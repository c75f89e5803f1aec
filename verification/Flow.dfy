/**
 * What one track's sender knows of frames sent and acknowledged.
 *
 * Frame ids are cut to eight bits on the wire.  The sender keeps the full
 * checkpoint and expands each byte that comes back to the most recent sent id
 * it can stand for.
 */
module Flow {
  import opened Common

  const MAX_UNACKED_FRAMES := 120

  /** The fields of the window; ids are -1 before the first frame. */
  datatype Window = Window(
    lastSent: int,
    checkpoint: int,
    newest: Option<u64>,
    lastProgress: nat)

  function Fresh(now: nat): Window {
    Window(-1, -1, None, now)
  }

  function Pending(w: Window): int {
    w.lastSent - w.checkpoint
  }

  predicate CanSend(w: Window) {
    Pending(w) < MAX_UNACKED_FRAMES
  }

  /** What every window that was only sent on and acknowledged satisfies. */
  predicate Bounded(w: Window) {
    -1 <= w.checkpoint <= w.lastSent && Pending(w) <= MAX_UNACKED_FRAMES
  }

  function AfterSent(w: Window, now: nat): Window {
    w.(lastSent := w.lastSent + 1,
       lastProgress := if Pending(w) == 0 then now else w.lastProgress)
  }

  /** The id a wire byte stands for: `(lastSent & !0xff) | wire`, one cycle less when that is ahead. */
  function Expand(lastSent: int, wire: byte): int {
    var candidate := lastSent - lastSent % 256 + wire;
    if candidate > lastSent then candidate - 256 else candidate
  }

  /** Feedback whose reference time is older than one already applied. */
  predicate Stale(w: Window, time: Option<u64>) {
    time.Some? && w.newest.Some? && time.value < w.newest.value
  }

  predicate Accepts(w: Window, wire: byte, time: Option<u64>) {
    !Stale(w, time) && w.checkpoint <= Expand(w.lastSent, wire)
  }

  function AfterAck(w: Window, wire: byte, time: Option<u64>, now: nat): Window {
    if !Accepts(w, wire, time) then w
    else
      var id := Expand(w.lastSent, wire);
      Window(w.lastSent, id,
             if time.Some? then time else w.newest,
             if id > w.checkpoint then now else w.lastProgress)
  }

  /** On 64-bit words, `last & !0xff` is `last` less its remainder modulo 256 ... */
  lemma MaskIsRemainder(last: bv64)
    ensures (last & !0xff) + (last & 0xff) == last
    ensures last & 0xff == last % 256
  {
  }

  /** ... and joining a byte to it by `|` adds that byte, as `Expand` does. */
  lemma JoinIsSum(last: bv64, wire: bv64)
    requires wire < 256
    ensures (last & !0xff) | wire == (last & !0xff) + wire
  {
  }

  /** A byte names exactly one id among the 256 most recent ones, and `Expand` finds it. */
  lemma ExpandUnique(lastSent: int, wire: byte, id: int)
    ensures id == Expand(lastSent, wire) <==> lastSent - 256 < id <= lastSent && id % 256 == wire
  {
  }

  /** A true id is recovered from its low byte exactly when fewer than 256 ids were sent since. */
  lemma ExpandExact(lastSent: int, id: int)
    requires -1 <= id
    ensures Expand(lastSent, id % 256) == id <==> lastSent - 256 < id <= lastSent
  {
  }

  /** Without a reference time, a checkpoint the window still covers is applied exactly. */
  lemma CoveredIdApplied(w: Window, id: int, time: Option<u64>, now: nat)
    requires Bounded(w) && w.checkpoint <= id <= w.lastSent && !Stale(w, time)
    ensures Accepts(w, id % 256, time)
    ensures AfterAck(w, id % 256, time, now).checkpoint == id
  {
  }

  lemma BytesDiffer(a: int, b: int)
    requires a < b < a + 256
    ensures a % 256 != b % 256
  {
  }

  /** Ids not sent yet are refused, for as far ahead as a byte can tell. */
  lemma FutureIdRefused(w: Window, id: int, time: Option<u64>)
    requires Bounded(w) && w.lastSent < id <= w.checkpoint + 255
    ensures !Accepts(w, id % 256, time)
  {
    var e := Expand(w.lastSent, id % 256);
    ExpandUnique(w.lastSent, id % 256, e);
    if w.checkpoint <= e {
      BytesDiffer(e, id);
    }
  }

  /** Ids the checkpoint already passed are refused while they are within one cycle of the last sent. */
  lemma PastIdRefused(w: Window, id: int, time: Option<u64>)
    requires Bounded(w) && -1 <= id && w.lastSent - 256 < id < w.checkpoint
    ensures !Accepts(w, id % 256, time)
  {
    ExpandUnique(w.lastSent, id % 256, id);
  }

  /** Both operations keep the window bounded and the checkpoint never moves back. */
  lemma BoundsKept(w: Window, wire: byte, time: Option<u64>, now: nat)
    requires Bounded(w)
    ensures CanSend(w) ==> Bounded(AfterSent(w, now))
    ensures Bounded(AfterAck(w, wire, time, now))
    ensures w.checkpoint <= AfterAck(w, wire, time, now).checkpoint
  {
  }

  datatype Op = OpSend(now: nat) | OpAck(wire: byte, time: Option<u64>, now: nat)

  function AfterOp(w: Window, op: Op): Window {
    match op
    case OpSend(now) => if CanSend(w) then AfterSent(w, now) else w
    case OpAck(wire, time, now) => AfterAck(w, wire, time, now)
  }

  function AfterOps(w: Window, ops: seq<Op>): Window
    decreases |ops|
  {
    if ops == [] then w else AfterOps(AfterOp(w, ops[0]), ops[1..])
  }

  /**
   * The stall deadline: while frames are outstanding nothing but a checkpoint
   * that moves renews it, neither more frames nor repeated or stale feedback;
   * and every run keeps the window bounded and the checkpoint from moving back.
   */
  lemma {:induction false} DeadlineOnlyByProgress(w: Window, ops: seq<Op>)
    requires Bounded(w) && Pending(w) > 0
    ensures Bounded(AfterOps(w, ops)) && w.checkpoint <= AfterOps(w, ops).checkpoint
    ensures AfterOps(w, ops).checkpoint == w.checkpoint ==>
              AfterOps(w, ops).lastProgress == w.lastProgress && Pending(AfterOps(w, ops)) > 0
    decreases |ops|
  {
    if ops != [] {
      var next := AfterOp(w, ops[0]);
      OpKeepsBounds(w, ops[0]);
      if Pending(next) > 0 {
        DeadlineOnlyByProgress(next, ops[1..]);
      } else {
        BoundedOverRun(next, ops[1..]);
      }
    }
  }

  lemma OpKeepsBounds(w: Window, op: Op)
    requires Bounded(w)
    ensures Bounded(AfterOp(w, op)) && w.checkpoint <= AfterOp(w, op).checkpoint
  {
  }

  lemma {:induction false} BoundedOverRun(w: Window, ops: seq<Op>)
    requires Bounded(w)
    ensures Bounded(AfterOps(w, ops)) && w.checkpoint <= AfterOps(w, ops).checkpoint
    decreases |ops|
  {
    if ops != [] {
      OpKeepsBounds(w, ops[0]);
      BoundedOverRun(AfterOp(w, ops[0]), ops[1..]);
    }
  }

  lemma {:induction false} ThenOp(w: Window, ops: seq<Op>, op: Op)
    ensures AfterOps(w, ops + [op]) == AfterOp(AfterOps(w, ops), op)
    decreases |ops|
  {
    if ops == [] {
      assert [op][1..] == [];
    } else {
      ThenOp(AfterOp(w, ops[0]), ops[1..], op);
      assert (ops + [op])[1..] == ops[1..] + [op];
    }
  }

  function TimeOf(op: Op): nat {
    op.now
  }

  /** A frame was sent that found nothing pending, or the checkpoint was raised. */
  predicate Progress(before: Window, after: Window) {
    (after.lastSent > before.lastSent && before.lastSent == before.checkpoint) || after.checkpoint > before.checkpoint
  }

  /** Operation `k` of a run made progress and none after it did. */
  ghost predicate LastProgress(w: Window, ops: seq<Op>, k: nat) {
    && k < |ops| && Progress(AfterOps(w, ops[..k]), AfterOps(w, ops[..k + 1]))
    && forall j | k < j < |ops| :: !Progress(AfterOps(w, ops[..j]), AfterOps(w, ops[..j + 1]))
  }

  /** One operation restarts the deadline exactly when it makes progress. */
  lemma DeadlineStep(w: Window, op: Op)
    requires Bounded(w)
    ensures AfterOp(w, op).lastProgress == if Progress(w, AfterOp(w, op)) then TimeOf(op) else w.lastProgress
  {
  }

  lemma LastProgressEarlier(w: Window, ops: seq<Op>, op: Op, k: nat)
    requires k < |ops|
    ensures LastProgress(w, ops + [op], k)
       <==> LastProgress(w, ops, k) && !Progress(AfterOps(w, ops), AfterOps(w, ops + [op]))
  {
    var longer := ops + [op];
    assert forall j | 0 <= j <= |ops| :: longer[..j] == ops[..j];
    assert longer[..|ops| + 1] == longer && ops[..|ops|] == ops;
  }

  /** The deadline runs from the last progress, whenever there was any, and from the start otherwise. */
  lemma {:induction false} DeadlineIsLastProgress(w: Window, ops: seq<Op>)
    requires Bounded(w)
    ensures Bounded(AfterOps(w, ops))
    ensures forall k: nat | LastProgress(w, ops, k) :: AfterOps(w, ops).lastProgress == TimeOf(ops[k])
    ensures (exists k: nat :: LastProgress(w, ops, k))
            || (AfterOps(w, ops).lastProgress == w.lastProgress && (Pending(w) == 0 ==> Pending(AfterOps(w, ops)) == 0))
  {
    BoundedOverRun(w, ops);
    if ops != [] {
      var front, op := ops[..|ops| - 1], ops[|ops| - 1];
      DeadlineIsLastProgress(w, front);
      assert ops == front + [op];
      ThenOp(w, front, op);
      DeadlineStep(AfterOps(w, front), op);
      assert ops[..|front|] == front && ops[..|front| + 1] == ops;
      forall k: nat | k < |front|
        ensures LastProgress(w, ops, k) <==> LastProgress(w, front, k) && !Progress(AfterOps(w, front), AfterOps(w, ops))
      {
        LastProgressEarlier(w, front, op, k);
      }
      forall k: nat | LastProgress(w, ops, k)
        ensures AfterOps(w, ops).lastProgress == TimeOf(ops[k])
      {
        if k < |front| {
          assert LastProgress(w, front, k) && front[k] == ops[k];
        }
      }
      if Progress(AfterOps(w, front), AfterOps(w, ops)) {
        assert LastProgress(w, ops, |front|);
      } else if k: nat :| LastProgress(w, front, k) {
        assert LastProgress(w, ops, k);
      }
    }
  }

  /**
   * The stall deadline, exactly: in every run from the start, while frames are
   * outstanding it runs from the latest operation that sent a frame into an
   * idle track or raised the checkpoint.
   */
  lemma DeadlineExact(start: nat, ops: seq<Op>)
    requires Pending(AfterOps(Fresh(start), ops)) > 0
    ensures exists k: nat :: LastProgress(Fresh(start), ops, k) && AfterOps(Fresh(start), ops).lastProgress == TimeOf(ops[k])
  {
    DeadlineIsLastProgress(Fresh(start), ops);
    var k: nat :| LastProgress(Fresh(start), ops, k);
  }

  /** The time applied last never goes back, whatever comes between. */
  lemma {:induction false} NewestNeverFalls(w: Window, ops: seq<Op>)
    ensures w.newest.Some? ==> AfterOps(w, ops).newest.Some? && w.newest.value <= AfterOps(w, ops).newest.value
    decreases |ops|
  {
    if ops != [] {
      NewestNeverFalls(AfterOp(w, ops[0]), ops[1..]);
    }
  }

  /**
   * Reordering is told by time alone: once a report of some time was accepted,
   * every report of an earlier time changes nothing, whatever was sent or
   * heard in between, with times or without.
   */
  lemma OlderChangesNothing(w: Window, report: Op, between: seq<Op>, older: Op)
    requires report.OpAck? && report.time.Some? && Accepts(w, report.wire, report.time)
    requires older.OpAck? && older.time.Some? && older.time.value < report.time.value
    ensures var w' := AfterOps(AfterOp(w, report), between);
            AfterOp(w', older) == w'
  {
    NewestNeverFalls(AfterOp(w, report), between);
  }

  /** The window as the sender holds it. */
  class AckWindow {
    var lastSent: int
    var checkpoint: int
    var newest: Option<u64>
    var lastProgress: nat

    function View(): Window
      reads this
    {
      Window(lastSent, checkpoint, newest, lastProgress)
    }

    ghost predicate Valid()
      reads this
    {
      Bounded(View())
    }

    constructor (now: nat)
      ensures Valid() && View() == Fresh(now)
    {
      lastSent, checkpoint, newest, lastProgress := -1, -1, None, now;
    }

    /** Records a frame as sent; the ids have to be consecutive and the window open. */
    method Sent(frameId: u32, now: nat)
      requires Valid() && CanSend(View()) && frameId == lastSent + 1
      modifies this
      ensures Valid() && View() == AfterSent(old(View()), now)
    {
      if lastSent - checkpoint == 0 {
        lastProgress := now;
      }
      lastSent := frameId;
    }

    /** Applies a checkpoint byte from the wire; refused bytes change nothing. */
    method Acknowledge(wire: byte, time: Option<u64>, now: nat) returns (accepted: bool)
      requires Valid()
      modifies this
      ensures accepted == Accepts(old(View()), wire, time)
      ensures Valid() && View() == AfterAck(old(View()), wire, time, now)
    {
      BoundsKept(View(), wire, time, now);
      if time.Some? && newest.Some? && time.value < newest.value {
        return false;
      }
      var expanded := lastSent - lastSent % 256 + wire;
      if expanded > lastSent {
        expanded := expanded - 256;
      }
      if expanded < checkpoint {
        return false;
      }
      if expanded > checkpoint {
        lastProgress := now;
        checkpoint := expanded;
      }
      if time.Some? {
        newest := time;
      }
      return true;
    }
  }
}
