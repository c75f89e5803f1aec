/**
 * The mirroring transport of one track: a sender with its ACK window, a receiver
 * that reports the last frame it holds complete, and a network that may lose,
 * duplicate, reorder and delay every report without bound.  Reports travel as
 * the bytes of compound RTCP datagrams, in the company of reports about other
 * tracks, and are read by the sender's parser.
 */
module Mirror {
  import opened Common
  import opened Flow
  import opened Rtcp
  import opened RtcpPrint

  /**
   * The negotiated SSRCs; whether the receiver sends reference times (`xr`);
   * and whether the network is known to deliver nothing once 256 later frames
   * were sent (`prompt`).
   */
  datatype Session = Session(receiver: u32, sender: u32, xr: bool, prompt: bool)

  /** A report in the network: its bytes, and, unseen by the sender, when it was made and what it meant. */
  datatype Report = Report(data: bytes, time: u64, meant: int)

  /**
   * `held` is the receiver's true checkpoint.  Reports stay in `air` for good:
   * one that is never delivered is lost, one delivered twice is duplicated.
   */
  datatype State = State(window: Window, held: int, clock: u64, air: set<Report>, delivered: set<Report>)

  const START := State(Fresh(0), -1, 0, {}, {})

  datatype Step =
    | Send(now: nat)
    | Complete(upTo: int)
    | Tell(time: u64, nacks: seq<Nack>, before: seq<Feedback>, after: seq<Feedback>)
    | TellOthers(time: u64)
    | Deliver(report: Report, now: nat)

  function FeedbackFor(session: Session, time: u64, checkpoint: int, nacks: seq<Nack>): Feedback {
    Feedback(session.receiver, if session.xr then Some(time) else None, session.sender, checkpoint % 256, nacks)
  }

  predicate IsFor(session: Session, fb: Feedback) {
    fb.receiver == session.receiver && fb.sender == session.sender
  }

  /** The compound datagram with the track's own feedback between those about other tracks. */
  function Compound(session: Session, time: u64, checkpoint: int, nacks: seq<Nack>, before: seq<Feedback>, after: seq<Feedback>)
    : seq<Feedback>
  {
    before + [FeedbackFor(session, time, checkpoint, nacks)] + after
  }

  ghost predicate Sendable(session: Session, time: u64, checkpoint: int, nacks: seq<Nack>, before: seq<Feedback>, after: seq<Feedback>) {
    var fbs := Compound(session, time, checkpoint, nacks, before, after);
    && (forall fb | fb in fbs :: Printable(fb)) && Consistent(fbs)
    && forall fb | fb in before + after :: !IsFor(session, fb)
  }

  ghost function ReportFor(session: Session, time: u64, checkpoint: int, nacks: seq<Nack>, before: seq<Feedback>, after: seq<Feedback>)
    : Report
    requires Sendable(session, time, checkpoint, nacks, before, after)
  {
    Report(Print(Compound(session, time, checkpoint, nacks, before, after)), time, checkpoint)
  }

  /** The sender applies every feedback about its stream that the datagram carries. */
  function Apply(session: Session, w: Window, feedbacks: seq<Feedback>, now: nat): Window
    decreases |feedbacks|
  {
    if feedbacks == [] then w
    else
      var fb := feedbacks[0];
      Apply(session, if IsFor(session, fb) then AfterAck(w, fb.checkpoint, fb.time, now) else w, feedbacks[1..], now)
  }

  ghost predicate Enabled(session: Session, s: State, step: Step) {
    match step
    case Send(now) => CanSend(s.window)
    // A frame is complete only when it, and all before it, arrived; which do is up to the network.
    case Complete(upTo) => s.held <= upTo <= s.window.lastSent
    case Tell(time, nacks, before, after) => s.clock < time && Sendable(session, time, s.held, nacks, before, after)
    case TellOthers(time) => s.clock < time
    case Deliver(report, now) =>
      report in s.air && (session.prompt ==> s.window.lastSent - 256 < report.meant)
  }

  ghost function After(session: Session, s: State, step: Step): State
    requires Enabled(session, s, step)
  {
    match step
    case Send(now) => s.(window := AfterSent(s.window, now))
    case Complete(upTo) => s.(held := upTo)
    case Tell(time, nacks, before, after) =>
      s.(clock := time, air := s.air + {ReportFor(session, time, s.held, nacks, before, after)})
    case TellOthers(time) => s.(clock := time)
    case Deliver(report, now) => AfterDelivery(session, s, report, now)
  }

  function AfterDelivery(session: Session, s: State, report: Report, now: nat): State {
    Delivered(s, Apply(session, s.window, Feedbacks(report.data), now), report)
  }

  function Delivered(s: State, window: Window, report: Report): State {
    s.(window := window, delivered := s.delivered + {report})
  }

  /** The state after a run; a step that is not possible when its turn comes does not happen. */
  ghost function StateAfter(session: Session, run: seq<Step>): State {
    if run == [] then START
    else
      var before, step := StateAfter(session, run[..|run| - 1]), run[|run| - 1];
      if Enabled(session, before, step) then After(session, before, step) else before
  }

  // ---------------------------------------------------------------- safety

  /** The feedbacks of a datagram that are about this track. */
  function Own(session: Session, feedbacks: seq<Feedback>): seq<Feedback> {
    if feedbacks == [] then []
    else (if IsFor(session, feedbacks[0]) then [feedbacks[0]] else []) + Own(session, feedbacks[1..])
  }

  /** The datagram tells this track one thing, what it was made to tell. */
  ghost predicate Reads(session: Session, r: Report) {
    exists nacks :: Own(session, Feedbacks(r.data)) == [FeedbackFor(session, r.time, r.meant, nacks)]
  }

  lemma {:induction false} OwnAmongOthers(session: Session, before: seq<Feedback>, own: Feedback, after: seq<Feedback>)
    requires IsFor(session, own) && forall fb | fb in before + after :: !IsFor(session, fb)
    ensures Own(session, before + [own] + after) == [own]
  {
    if before == [] {
      NoneOwn(session, after);
      assert ([own] + after)[1..] == after && before + [own] + after == [own] + after;
    } else {
      OwnAmongOthers(session, before[1..], own, after);
      assert before[0] in before + after;
      assert (before + [own] + after)[1..] == before[1..] + [own] + after;
    }
  }

  lemma {:induction false} NoneOwn(session: Session, feedbacks: seq<Feedback>)
    requires forall fb | fb in feedbacks :: !IsFor(session, fb)
    ensures Own(session, feedbacks) == []
  {
    if feedbacks != [] {
      NoneOwn(session, feedbacks[1..]);
    }
  }

  /** Applying a datagram is applying what it says about the track. */
  lemma {:induction false} ApplyOwn(session: Session, w: Window, feedbacks: seq<Feedback>, now: nat)
    ensures Apply(session, w, feedbacks, now) == Apply(session, w, Own(session, feedbacks), now)
    decreases |feedbacks|
  {
    if feedbacks != [] {
      var fb := feedbacks[0];
      var w' := if IsFor(session, fb) then AfterAck(w, fb.checkpoint, fb.time, now) else w;
      ApplyOwn(session, w', feedbacks[1..], now);
      if IsFor(session, fb) {
        assert Own(session, feedbacks)[1..] == Own(session, feedbacks[1..]);
      } else {
        assert Own(session, feedbacks) == Own(session, feedbacks[1..]);
      }
    }
  }

  lemma ReportReads(session: Session, time: u64, checkpoint: int, nacks: seq<Nack>, before: seq<Feedback>, after: seq<Feedback>)
    requires Sendable(session, time, checkpoint, nacks, before, after)
    ensures Reads(session, ReportFor(session, time, checkpoint, nacks, before, after))
  {
    FeedbackRoundTrip(Compound(session, time, checkpoint, nacks, before, after));
    OwnAmongOthers(session, before, FeedbackFor(session, time, checkpoint, nacks), after);
  }

  /** Delivering a report is one acknowledgement, of the low byte of what it meant. */
  lemma DeliveryIsOneAck(session: Session, w: Window, r: Report, now: nat)
    requires Reads(session, r)
    ensures Apply(session, w, Feedbacks(r.data), now)
         == AfterAck(w, r.meant % 256, if session.xr then Some(r.time) else None, now)
  {
    ApplyOwn(session, w, Feedbacks(r.data), now);
  }

  /** The sender believes exactly the highest checkpoint delivered, and never more than the receiver holds. */
  ghost predicate Truthful(s: State) {
    && Bounded(s.window)
    && s.window.checkpoint <= s.held <= s.window.lastSent
    && (forall r | r in s.delivered :: r.meant <= s.window.checkpoint)
    && (s.window.checkpoint == -1 || exists r :: r in s.delivered && r.meant == s.window.checkpoint)
  }

  /** Reports are genuine, ordered by their times, and no newer than the receiver. */
  ghost predicate Sound(session: Session, s: State) {
    && s.delivered <= s.air
    && (forall r | r in s.air :: Reads(session, r) && -1 <= r.meant <= s.held && r.time <= s.clock)
    && (forall r, q | r in s.air && q in s.air && r.time <= q.time :: r.meant <= q.meant)
  }

  /** The newest time applied is that of a delivered report, the one the checkpoint came from. */
  ghost predicate NewestTold(s: State) {
    match s.window.newest
    case None => s.window.checkpoint == -1 && s.delivered == {}
    case Some(n) =>
      && (exists r :: r in s.delivered && r.time == n && r.meant == s.window.checkpoint)
      && (forall r | r in s.delivered :: r.time <= n)
  }

  lemma TellKeepsSound(session: Session, s: State, step: Step)
    requires step.Tell? && Sound(session, s) && Enabled(session, s, step) && -1 <= s.held
    ensures Sound(session, After(session, s, step))
  {
    ReportReads(session, step.time, s.held, step.nacks, step.before, step.after);
    AirGrows(session, s, ReportFor(session, step.time, s.held, step.nacks, step.before, step.after));
  }

  lemma AirGrows(session: Session, s: State, r: Report)
    requires Sound(session, s) && Reads(session, r) && s.clock < r.time && r.meant == s.held && -1 <= s.held
    ensures Sound(session, s.(clock := r.time, air := s.air + {r}))
  {
  }

  /** What a delivery does when the report is not stale and its id is still within reach of its byte. */
  lemma DeliveryInReach(session: Session, s: State, r: Report, now: nat)
    requires Sound(session, s) && Truthful(s) && r in s.air
    requires s.window.lastSent - 256 < r.meant
    requires session.xr ==> !Stale(s.window, Some(r.time))
    ensures var w' := AfterDelivery(session, s, r, now).window;
            && w'.checkpoint == Max(s.window.checkpoint, r.meant)
            && w'.lastSent == s.window.lastSent
            && w'.newest == if session.xr && s.window.checkpoint <= r.meant then Some(r.time) else s.window.newest
  {
    DeliveryIsOneAck(session, s.window, r, now);
    ExpandExact(s.window.lastSent, r.meant);
  }

  lemma DeliveryTruthful(s: State, r: Report, w: Window)
    requires Truthful(s) && r.meant <= s.held
    requires w.checkpoint == Max(s.window.checkpoint, r.meant) && w.lastSent == s.window.lastSent
    ensures Truthful(Delivered(s, w, r))
  {
  }

  lemma NewestKept(s: State, r: Report, w: Window)
    requires NewestTold(s) && s.delivered <= s.air && s.window.newest.Some?
    requires r.time <= s.window.newest.value && w.newest == s.window.newest && w.checkpoint == s.window.checkpoint
    ensures NewestTold(Delivered(s, w, r))
  {
  }

  lemma NewestMoves(s: State, r: Report, w: Window)
    requires NewestTold(s) && !Stale(s.window, Some(r.time))
    requires w.newest == Some(r.time) && w.checkpoint == r.meant
    ensures NewestTold(Delivered(s, w, r))
  {
  }

  /** With reference times every delivery is either stale, and changes nothing, or exact. */
  lemma DeliveryWithTime(session: Session, s: State, r: Report, now: nat)
    requires session.xr && Sound(session, s) && Truthful(s) && NewestTold(s) && r in s.air
    ensures var s' := AfterDelivery(session, s, r, now);
            && Truthful(s') && NewestTold(s')
            && (if Stale(s.window, Some(r.time)) then s'.window == s.window else s'.window.checkpoint == r.meant)
  {
    if Stale(s.window, Some(r.time)) {
      StaleDelivery(session, s, r, now);
    } else {
      FreshDelivery(session, s, r, now);
    }
  }

  lemma StaleDelivery(session: Session, s: State, r: Report, now: nat)
    requires session.xr && Sound(session, s) && Truthful(s) && NewestTold(s) && r in s.air
    requires Stale(s.window, Some(r.time))
    ensures var s' := AfterDelivery(session, s, r, now);
            Truthful(s') && NewestTold(s') && s'.window == s.window
  {
    DeliveryIsOneAck(session, s.window, r, now);
    NewestNotAhead(session, s, r);
    DeliveryTruthful(s, r, s.window);
    NewestKept(s, r, s.window);
  }

  /** Times order reports as their meanings: an older report means no more, a newer one no less. */
  lemma NewestNotAhead(session: Session, s: State, r: Report)
    requires Sound(session, s) && NewestTold(s) && r in s.air
    ensures Stale(s.window, Some(r.time)) ==> r.meant <= s.window.checkpoint
    ensures !Stale(s.window, Some(r.time)) ==> s.window.checkpoint <= r.meant
  {
  }

  lemma FreshDelivery(session: Session, s: State, r: Report, now: nat)
    requires session.xr && Sound(session, s) && Truthful(s) && NewestTold(s) && r in s.air
    requires !Stale(s.window, Some(r.time))
    ensures var s' := AfterDelivery(session, s, r, now);
            Truthful(s') && NewestTold(s') && s'.window.checkpoint == r.meant
  {
    NewestNotAhead(session, s, r);
    DeliveryInReach(session, s, r, now);
    var w := AfterDelivery(session, s, r, now).window;
    DeliveryTruthful(s, r, w);
    NewestMoves(s, r, w);
  }

  /** The same without reference times, when the network is prompt. */
  lemma DeliveryWhenPrompt(session: Session, s: State, r: Report, now: nat)
    requires !session.xr && Sound(session, s) && Truthful(s)
    requires r in s.air && s.window.lastSent - 256 < r.meant
    ensures Truthful(AfterDelivery(session, s, r, now))
  {
    DeliveryInReach(session, s, r, now);
    DeliveryTruthful(s, r, AfterDelivery(session, s, r, now).window);
  }

  ghost predicate SafeState(session: Session, s: State) {
    Sound(session, s) && Truthful(s) && (session.xr ==> NewestTold(s))
  }

  lemma DeliverySafe(session: Session, s: State, r: Report, now: nat)
    requires session.xr || session.prompt
    requires SafeState(session, s) && Enabled(session, s, Deliver(r, now))
    ensures SafeState(session, AfterDelivery(session, s, r, now))
  {
    if session.xr {
      DeliveryWithTime(session, s, r, now);
    } else {
      DeliveryWhenPrompt(session, s, r, now);
    }
  }

  /** Sending, completing and telling keep the state safe. */
  lemma OtherStepsSafe(session: Session, s: State, step: Step)
    requires SafeState(session, s) && Enabled(session, s, step) && !step.Deliver?
    ensures SafeState(session, After(session, s, step))
  {
    match step
    case Send(now) => assert s.window.checkpoint == AfterSent(s.window, now).checkpoint;
    case Complete(upTo) =>
    case Tell(_, _, _, _) => TellKeepsSound(session, s, step);
    case TellOthers(time) =>
  }

  /**
   * Safety over every run, under any loss, duplication and reordering, and,
   * with reference times, any delay: the sender's checkpoint is the highest
   * true checkpoint delivered so far, it never passes what the receiver holds,
   * and at most 120 frames are outstanding.
   */
  lemma {:induction false} Safe(session: Session, run: seq<Step>)
    requires session.xr || session.prompt
    ensures Sound(session, StateAfter(session, run)) && Truthful(StateAfter(session, run))
    ensures session.xr ==> NewestTold(StateAfter(session, run))
  {
    if run != [] {
      var before, step := StateAfter(session, run[..|run| - 1]), run[|run| - 1];
      Safe(session, run[..|run| - 1]);
      if Enabled(session, before, step) {
        if step.Deliver? {
          DeliverySafe(session, before, step.report, step.now);
        } else {
          OtherStepsSafe(session, before, step);
        }
      }
    }
  }

  /**
   * One delivery without reference times: an accepted report is read as what
   * it meant exactly when fewer than 256 frames were sent since.
   */
  lemma ExactIffPrompt(session: Session, s: State, r: Report, now: nat)
    requires !session.xr && Sound(session, s) && Bounded(s.window) && s.held <= s.window.lastSent && r in s.air
    requires Accepts(s.window, r.meant % 256, None)
    ensures AfterDelivery(session, s, r, now).window.checkpoint == r.meant <==> s.window.lastSent - 256 < r.meant
  {
    DeliveryIsOneAck(session, s.window, r, now);
    ExpandExact(s.window.lastSent, r.meant);
  }

  /** A report is accepted exactly when it is not behind what is known, in its meaning or in its time. */
  lemma AcceptedExactly(session: Session, s: State, r: Report)
    requires session.xr || session.prompt
    requires SafeState(session, s) && r in s.air && (!session.xr ==> s.window.lastSent - 256 < r.meant)
    ensures Accepts(s.window, r.meant % 256, if session.xr then Some(r.time) else None)
       <==> s.window.checkpoint <= r.meant && (session.xr && s.window.newest.Some? ==> s.window.newest.value <= r.time)
  {
    ExpandExact(s.window.lastSent, r.meant);
    if session.xr && !Stale(s.window, Some(r.time)) {
      NewestNotAhead(session, s, r);
    }
  }

  // -------------------------------------------------------------- aliasing

  ghost function ReportOf(session: Session, id: nat): Report
    requires id < 256
  {
    AloneSendable(session, id + 1, id);
    ReportFor(session, id + 1, id, [], [], [])
  }

  lemma AloneSendable(session: Session, time: u64, checkpoint: int)
    ensures Sendable(session, time, checkpoint, [], [], [])
  {
  }

  lemma ThenStep(session: Session, run: seq<Step>, step: Step)
    requires Enabled(session, StateAfter(session, run), step)
    ensures StateAfter(session, run + [step]) == After(session, StateAfter(session, run), step)
  {
  }

  /** Sender and receiver agree on the last of `count` frames, all reported. */
  ghost predicate InStep(s: State, count: nat) {
    s.window.(lastProgress := 0) == Window(count - 1, count - 1, None, 0) && s.held == count - 1 && s.clock == count
  }

  /** The same with one more frame sent and complete, but not reported. */
  ghost predicate OneAhead(s: State, count: nat) {
    s.window.(lastProgress := 0) == Window(count, count - 1, None, 0) && s.held == count && s.clock == count
  }

  lemma SendAndComplete(session: Session, run: seq<Step>, id: nat)
    requires !session.xr && !session.prompt && id < 256 && InStep(StateAfter(session, run), id)
    ensures var s := StateAfter(session, run + [Send(0)] + [Complete(id)]);
            OneAhead(s, id) && s.air == StateAfter(session, run).air
  {
    ThenStep(session, run, Send(0));
    ThenStep(session, run + [Send(0)], Complete(id));
  }

  lemma ReportDelivered(session: Session, w: Window, id: nat)
    requires !session.xr && id < 256 && w.(lastProgress := 0) == Window(id, id - 1, None, 0)
    ensures Apply(session, w, Feedbacks(ReportOf(session, id).data), 0).(lastProgress := 0) == Window(id, id, None, 0)
  {
    AloneSendable(session, id + 1, id);
    ReportReads(session, id + 1, id, [], [], []);
    DeliveryIsOneAck(session, w, ReportOf(session, id), 0);
    ExpandExact(id, id);
  }

  lemma TellAndDeliver(session: Session, run: seq<Step>, id: nat)
    requires !session.xr && !session.prompt && id < 256 && OneAhead(StateAfter(session, run), id)
    ensures var s := StateAfter(session, run + [Tell(id + 1, [], [], [])] + [Deliver(ReportOf(session, id), 0)]);
            InStep(s, id + 1) && s.air == StateAfter(session, run).air + {ReportOf(session, id)}
  {
    var told, r := run + [Tell(id + 1, [], [], [])], ReportOf(session, id);
    AloneSendable(session, id + 1, id);
    ThenStep(session, run, Tell(id + 1, [], [], []));
    ThenStep(session, told, Deliver(r, 0));
    ReportDelivered(session, StateAfter(session, told).window, id);
  }

  /** Send a frame, complete it, report it, deliver the report. */
  lemma OneRoundTrip(session: Session, run: seq<Step>, id: nat) returns (longer: seq<Step>)
    requires !session.xr && !session.prompt && id < 256 && InStep(StateAfter(session, run), id)
    ensures InStep(StateAfter(session, longer), id + 1)
    ensures StateAfter(session, longer).air == StateAfter(session, run).air + {ReportOf(session, id)}
  {
    SendAndComplete(session, run, id);
    var complete := run + [Send(0)] + [Complete(id)];
    TellAndDeliver(session, complete, id);
    longer := complete + [Tell(id + 1, [], [], [])] + [Deliver(ReportOf(session, id), 0)];
  }

  lemma {:induction false} ManyRoundTrips(session: Session, count: nat) returns (run: seq<Step>)
    requires !session.xr && !session.prompt && count <= 256
    ensures InStep(StateAfter(session, run), count)
    ensures count > 0 ==> ReportOf(session, 0) in StateAfter(session, run).air
  {
    run := [];
    if count > 0 {
      var shorter := ManyRoundTrips(session, count - 1);
      run := OneRoundTrip(session, shorter, count - 1);
    }
  }

  /**
   * Why reference times are needed: without them a report 256 frames old is
   * taken for a new one, and the sender believes frame 256 complete while the
   * receiver holds only 255.
   */
  lemma StaleReportAliases(session: Session) returns (run: seq<Step>)
    requires !session.xr && !session.prompt
    ensures StateAfter(session, run).window.checkpoint == 256
    ensures StateAfter(session, run).held == 255
  {
    run := ManyRoundTrips(session, 256);
    ThenStep(session, run, Send(0));
    run := run + [Send(0)];
    var first := ReportOf(session, 0);
    AloneSendable(session, 1, 0);
    ReportReads(session, 1, 0, [], [], []);
    DeliveryIsOneAck(session, StateAfter(session, run).window, first, 0);
    ExpandExact(256, 256);
    ThenStep(session, run, Deliver(first, 0));
    run := run + [Deliver(first, 0)];
  }
}
