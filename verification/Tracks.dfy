/**
 * Several tracks over one socket: a receiver's compound datagram reports about
 * any of them, and each feedback is routed to the window of the track whose
 * pair of SSRCs it names.  Seen from one track, a run of the whole session is a
 * run of `Mirror`, so every track is safe at once.
 */
module Tracks {
  import opened Common
  import opened Flow
  import opened Mirror
  import opened Rtcp
  import opened RtcpPrint

  // --------------------------------------------------------------- routing

  /** Feedback has to name one of our streams together with the receiver that answered for it. */
  predicate Routed(receivers: map<u32, u32>, windows: map<u32, Window>, fb: Feedback) {
    fb.sender in receivers && receivers[fb.sender] == fb.receiver && fb.sender in windows
  }

  predicate Heard(receivers: map<u32, u32>, windows: map<u32, Window>, fb: Feedback) {
    Routed(receivers, windows, fb) && Accepts(windows[fb.sender], fb.checkpoint, fb.time)
  }

  function AfterOne(receivers: map<u32, u32>, windows: map<u32, Window>, fb: Feedback, now: nat): map<u32, Window> {
    if !Routed(receivers, windows, fb) then windows
    else windows[fb.sender := AfterAck(windows[fb.sender], fb.checkpoint, fb.time, now)]
  }

  function RouteAll(receivers: map<u32, u32>, windows: map<u32, Window>, fbs: seq<Feedback>, now: nat): map<u32, Window>
    decreases |fbs|
  {
    if fbs == [] then windows
    else RouteAll(receivers, AfterOne(receivers, windows, fbs[0], now), fbs[1..], now)
  }

  /** The feedbacks that were accepted, each a sign of life. */
  function AllHeard(receivers: map<u32, u32>, windows: map<u32, Window>, fbs: seq<Feedback>, now: nat): seq<Feedback>
    decreases |fbs|
  {
    if fbs == [] then []
    else (if Heard(receivers, windows, fbs[0]) then [fbs[0]] else [])
         + AllHeard(receivers, AfterOne(receivers, windows, fbs[0], now), fbs[1..], now)
  }

  lemma RouteFirst(receivers: map<u32, u32>, windows: map<u32, Window>, fbs: seq<Feedback>, i: nat, now: nat, heard: seq<Feedback>)
    requires i < |fbs|
    ensures var after := AfterOne(receivers, windows, fbs[i], now);
            && RouteAll(receivers, windows, fbs[i..], now) == RouteAll(receivers, after, fbs[i + 1..], now)
            && heard + AllHeard(receivers, windows, fbs[i..], now)
               == (if Heard(receivers, windows, fbs[i]) then heard + [fbs[i]] else heard)
                  + AllHeard(receivers, after, fbs[i + 1..], now)
  {
    assert fbs[i..][1..] == fbs[i + 1..];
  }

  class FeedbackRoutes {
    const receivers: map<u32, u32>
    var tracks: map<u32, AckWindow>

    ghost predicate Valid()
      reads this, tracks.Values
    {
      && (forall k | k in tracks :: tracks[k].Valid())
      && (forall j, k | j in tracks && k in tracks && j != k :: tracks[j] != tracks[k])
    }

    ghost function View(): map<u32, Window>
      reads this, tracks.Values
    {
      map k | k in tracks :: tracks[k].View()
    }

    constructor (receivers: map<u32, u32>)
      ensures Valid() && this.receivers == receivers && tracks == map[]
    {
      this.receivers, this.tracks := receivers, map[];
    }

    /** One feedback: the named track's window, if any, and whether it was accepted. */
    method RouteOne(fb: Feedback, now: nat) returns (heard: bool)
      requires Valid()
      modifies tracks.Values
      ensures Valid() && View() == AfterOne(receivers, old(View()), fb, now)
      ensures heard == Heard(receivers, old(View()), fb)
    {
      heard := false;
      if fb.sender in receivers && receivers[fb.sender] == fb.receiver && fb.sender in tracks {
        heard := tracks[fb.sender].Acknowledge(fb.checkpoint, fb.time, now);
      }
    }

    /** Applies one datagram; what was accepted is handed on, for its signs of life and its requests. */
    method Route(packet: bytes, now: nat) returns (heard: seq<Feedback>)
      requires Valid()
      modifies tracks.Values
      ensures Valid() && View() == RouteAll(receivers, old(View()), Feedbacks(packet), now)
      ensures heard == AllHeard(receivers, old(View()), Feedbacks(packet), now)
    {
      var fbs := ParseCastFeedbacks(packet);
      heard := [];
      for i := 0 to |fbs|
        invariant Valid()
        invariant RouteAll(receivers, View(), fbs[i..], now) == RouteAll(receivers, old(View()), fbs, now)
        invariant heard + AllHeard(receivers, View(), fbs[i..], now) == AllHeard(receivers, old(View()), fbs, now)
      {
        RouteFirst(receivers, View(), fbs, i, now, heard);
        var accepted := RouteOne(fbs[i], now);
        if accepted {
          heard := heard + [fbs[i]];
        }
      }
    }
  }

  // ------------------------------------------------------------ the session

  /** The negotiated tracks, each sender SSRC with its receiver's; the rest as for one track. */
  datatype Net = Net(receivers: map<u32, u32>, xr: bool, prompt: bool)

  function SessionOf(net: Net, k: u32): Session
    requires k in net.receivers
  {
    Session(net.receivers[k], k, net.xr, net.prompt)
  }

  /** Routing is what each track would do with the datagram on its own. */
  lemma {:induction false} RouteProjects(net: Net, windows: map<u32, Window>, fbs: seq<Feedback>, now: nat, k: u32)
    requires k in net.receivers && k in windows
    ensures RouteAll(net.receivers, windows, fbs, now).Keys == windows.Keys
    ensures RouteAll(net.receivers, windows, fbs, now)[k] == Apply(SessionOf(net, k), windows[k], fbs, now)
    decreases |fbs|
  {
    if fbs != [] {
      RouteProjects(net, AfterOne(net.receivers, windows, fbs[0], now), fbs[1..], now, k);
    }
  }

  /** What a datagram is to say about one track, besides its checkpoint. */
  datatype About = About(sender: u32, nacks: seq<Nack>)

  /** A datagram in the network, what it is about, and the checkpoint it meant for each of those tracks. */
  datatype Datagram = Datagram(data: bytes, time: u64, abouts: seq<About>, meant: map<u32, int>)

  datatype NetState = NetState(
    windows: map<u32, Window>, held: map<u32, int>, clock: u64, air: set<Datagram>, delivered: set<Datagram>)

  datatype NetStep =
    | NetSend(sender: u32, now: nat)
    | NetComplete(sender: u32, upTo: int)
    | NetTell(time: u64, abouts: seq<About>)
    | NetDeliver(datagram: Datagram, now: nat)

  ghost predicate Known(net: Net, s: NetState) {
    s.windows.Keys == net.receivers.Keys && s.held.Keys == net.receivers.Keys
  }

  ghost predicate AboutTracks(net: Net, abouts: seq<About>) {
    && (forall i | 0 <= i < |abouts| :: abouts[i].sender in net.receivers && |abouts[i].nacks| <= 255)
    && (forall i, j | 0 <= i < j < |abouts| :: abouts[i].sender != abouts[j].sender)
  }

  /** The feedbacks of a datagram, all made at one time. */
  ghost function Told(net: Net, held: map<u32, int>, time: u64, abouts: seq<About>): (fbs: seq<Feedback>)
    requires AboutTracks(net, abouts) && held.Keys == net.receivers.Keys
    ensures |fbs| == |abouts|
    ensures forall i | 0 <= i < |abouts| ::
              fbs[i] == FeedbackFor(SessionOf(net, abouts[i].sender), time, held[abouts[i].sender], abouts[i].nacks)
  {
    seq(|abouts|, i requires 0 <= i < |abouts| =>
      FeedbackFor(SessionOf(net, abouts[i].sender), time, held[abouts[i].sender], abouts[i].nacks))
  }

  ghost predicate NetEnabled(net: Net, s: NetState, step: NetStep)
    requires Known(net, s)
  {
    match step
    case NetSend(k, now) => k in net.receivers && CanSend(s.windows[k])
    case NetComplete(k, upTo) => k in net.receivers && s.held[k] <= upTo <= s.windows[k].lastSent
    case NetTell(time, abouts) => s.clock < time && AboutTracks(net, abouts)
    case NetDeliver(d, now) =>
      d in s.air && forall k | k in net.receivers && k in d.meant && net.prompt :: s.windows[k].lastSent - 256 < d.meant[k]
  }

  ghost function DatagramFor(net: Net, held: map<u32, int>, time: u64, abouts: seq<About>): Datagram
    requires AboutTracks(net, abouts) && held.Keys == net.receivers.Keys
  {
    Datagram(Print(Told(net, held, time, abouts)), time, abouts, map i | 0 <= i < |abouts| :: abouts[i].sender := held[abouts[i].sender])
  }

  ghost function NetNext(net: Net, s: NetState, step: NetStep): (s': NetState)
    requires Known(net, s) && NetEnabled(net, s, step)
    ensures Known(net, s')
  {
    match step
    case NetSend(k, now) => s.(windows := s.windows[k := AfterSent(s.windows[k], now)])
    case NetComplete(k, upTo) => s.(held := s.held[k := upTo])
    case NetTell(time, abouts) => s.(clock := time, air := s.air + {DatagramFor(net, s.held, time, abouts)})
    case NetDeliver(d, now) =>
      RouteKeys(net, s.windows, Feedbacks(d.data), now);
      s.(windows := RouteAll(net.receivers, s.windows, Feedbacks(d.data), now), delivered := s.delivered + {d})
  }

  lemma {:induction false} RouteKeys(net: Net, windows: map<u32, Window>, fbs: seq<Feedback>, now: nat)
    ensures RouteAll(net.receivers, windows, fbs, now).Keys == windows.Keys
    decreases |fbs|
  {
    if fbs != [] {
      RouteKeys(net, AfterOne(net.receivers, windows, fbs[0], now), fbs[1..], now);
    }
  }

  ghost function NetAfter(net: Net, run: seq<NetStep>): (s: NetState)
    ensures Known(net, s)
  {
    if run == [] then
      NetState(map k | k in net.receivers :: Fresh(0), map k | k in net.receivers :: -1, 0, {}, {})
    else
      var before, step := NetAfter(net, run[..|run| - 1]), run[|run| - 1];
      if NetEnabled(net, before, step) then NetNext(net, before, step) else before
  }

  // ------------------------------------------------------------- one track

  ghost function Seen(datagrams: set<Datagram>, k: u32): set<Report> {
    set d | d in datagrams && k in d.meant :: Report(d.data, d.time, d.meant[k])
  }

  /** The session as one of its tracks sees it. */
  ghost function Project(net: Net, s: NetState, k: u32): State
    requires Known(net, s) && k in net.receivers
  {
    State(s.windows[k], s.held[k], s.clock, Seen(s.air, k), Seen(s.delivered, k))
  }

  function IndexOf(abouts: seq<About>, k: u32): (i: nat)
    ensures i <= |abouts| && (i < |abouts| ==> abouts[i].sender == k)
    ensures i == |abouts| ==> forall j | 0 <= j < |abouts| :: abouts[j].sender != k
  {
    if abouts == [] || abouts[0].sender == k then 0 else 1 + IndexOf(abouts[1..], k)
  }

  ghost function TellSeen(net: Net, held: map<u32, int>, time: u64, abouts: seq<About>, k: u32): Step
    requires AboutTracks(net, abouts) && held.Keys == net.receivers.Keys && k in net.receivers
  {
    var i, fbs := IndexOf(abouts, k), Told(net, held, time, abouts);
    if i < |abouts| then Tell(time, abouts[i].nacks, fbs[..i], fbs[i + 1..]) else TellOthers(time)
  }

  /** What a step is to track `k`. */
  ghost function StepSeen(net: Net, s: NetState, step: NetStep, k: u32): seq<Step>
    requires Known(net, s) && k in net.receivers
  {
    if !NetEnabled(net, s, step) then []
    else
      match step
      case NetSend(j, now) => if j == k then [Send(now)] else []
      case NetComplete(j, upTo) => if j == k then [Complete(upTo)] else []
      case NetTell(time, abouts) => [TellSeen(net, s.held, time, abouts, k)]
      case NetDeliver(d, now) => if k in d.meant then [Deliver(Report(d.data, d.time, d.meant[k]), now)] else []
  }

  ghost function RunSeen(net: Net, run: seq<NetStep>, k: u32): seq<Step>
    requires k in net.receivers
  {
    if run == [] then []
    else
      var front := run[..|run| - 1];
      RunSeen(net, front, k) + StepSeen(net, NetAfter(net, front), run[|run| - 1], k)
  }

  /** A datagram says nothing to a track it is not about. */
  ghost predicate Discreet(net: Net, datagrams: set<Datagram>) {
    forall d, k | d in datagrams && k in net.receivers && k !in d.meant :: Own(SessionOf(net, k), Feedbacks(d.data)) == []
  }

  lemma PrintedSendable(net: Net, held: map<u32, int>, time: u64, abouts: seq<About>)
    requires AboutTracks(net, abouts) && held.Keys == net.receivers.Keys
    ensures var fbs := Told(net, held, time, abouts);
            (forall fb | fb in fbs :: Printable(fb)) && Consistent(fbs) && Feedbacks(Print(fbs)) == fbs
  {
    FeedbackRoundTrip(Told(net, held, time, abouts));
  }

  lemma TellIsDiscreet(net: Net, held: map<u32, int>, time: u64, abouts: seq<About>)
    requires AboutTracks(net, abouts) && held.Keys == net.receivers.Keys
    ensures Discreet(net, {DatagramFor(net, held, time, abouts)})
  {
    var fbs, d := Told(net, held, time, abouts), DatagramFor(net, held, time, abouts);
    PrintedSendable(net, held, time, abouts);
    forall k | k in net.receivers && k !in d.meant
      ensures Own(SessionOf(net, k), Feedbacks(d.data)) == []
    {
      forall fb | fb in fbs
        ensures !IsFor(SessionOf(net, k), fb)
      {
        var i :| 0 <= i < |fbs| && fbs[i] == fb;
        assert abouts[i].sender in d.meant;
      }
      NoneOwn(SessionOf(net, k), fbs);
    }
  }

  lemma SeenMore(datagrams: set<Datagram>, d: Datagram, k: u32)
    ensures Seen(datagrams + {d}, k)
         == Seen(datagrams, k) + if k in d.meant then {Report(d.data, d.time, d.meant[k])} else {}
  {
  }

  lemma OthersAreForeign(net: Net, held: map<u32, int>, time: u64, abouts: seq<About>, i: nat)
    requires AboutTracks(net, abouts) && held.Keys == net.receivers.Keys && i < |abouts|
    ensures var fbs := Told(net, held, time, abouts);
            forall fb | fb in fbs[..i] + fbs[i + 1..] :: !IsFor(SessionOf(net, abouts[i].sender), fb)
  {
    var fbs := Told(net, held, time, abouts);
    forall fb | fb in fbs[..i] + fbs[i + 1..]
      ensures fb.sender != abouts[i].sender
    {
      var j :| 0 <= j < |fbs| && j != i && fbs[j] == fb;
    }
  }

  lemma Around(fbs: seq<Feedback>, i: nat)
    requires i < |fbs|
    ensures fbs[..i] + [fbs[i]] + fbs[i + 1..] == fbs
  {
  }

  /** Around a track's own feedback the rest of the datagram is about others. */
  lemma TellIsCompound(net: Net, held: map<u32, int>, time: u64, abouts: seq<About>, i: nat)
    requires AboutTracks(net, abouts) && held.Keys == net.receivers.Keys && i < |abouts|
    ensures var fbs, session := Told(net, held, time, abouts), SessionOf(net, abouts[i].sender);
            && Compound(session, time, held[abouts[i].sender], abouts[i].nacks, fbs[..i], fbs[i + 1..]) == fbs
            && Sendable(session, time, held[abouts[i].sender], abouts[i].nacks, fbs[..i], fbs[i + 1..])
  {
    Around(Told(net, held, time, abouts), i);
    PrintedSendable(net, held, time, abouts);
    OthersAreForeign(net, held, time, abouts, i);
  }

  lemma TellSeenRight(net: Net, s: NetState, time: u64, abouts: seq<About>, k: u32)
    requires Known(net, s) && k in net.receivers && s.clock < time && AboutTracks(net, abouts)
    ensures var step, d := TellSeen(net, s.held, time, abouts, k), DatagramFor(net, s.held, time, abouts);
            && Enabled(SessionOf(net, k), Project(net, s, k), step)
            && After(SessionOf(net, k), Project(net, s, k), step)
               == Project(net, s.(clock := time, air := s.air + {d}), k)
  {
    var i, d := IndexOf(abouts, k), DatagramFor(net, s.held, time, abouts);
    SeenMore(s.air, d, k);
    if i < |abouts| {
      TellIsCompound(net, s.held, time, abouts, i);
      assert abouts[i].sender in d.meant;
    } else {
      assert k !in d.meant;
    }
  }

  lemma StepSeenRight(net: Net, s: NetState, step: NetStep, k: u32)
    requires Known(net, s) && k in net.receivers && NetEnabled(net, s, step) && Discreet(net, s.air)
    ensures var seen := StepSeen(net, s, step, k);
            if seen == [] then Project(net, NetNext(net, s, step), k) == Project(net, s, k)
            else |seen| == 1 && Enabled(SessionOf(net, k), Project(net, s, k), seen[0])
                 && After(SessionOf(net, k), Project(net, s, k), seen[0]) == Project(net, NetNext(net, s, step), k)
  {
    match step
    case NetSend(j, now) =>
    case NetComplete(j, upTo) =>
    case NetTell(time, abouts) => TellSeenRight(net, s, time, abouts, k);
    case NetDeliver(d, now) =>
      RouteProjects(net, s.windows, Feedbacks(d.data), now, k);
      SeenMore(s.delivered, d, k);
      if k !in d.meant {
        ApplyOwn(SessionOf(net, k), s.windows[k], Feedbacks(d.data), now);
      } else {
        assert Report(d.data, d.time, d.meant[k]) in Seen(s.air, k);
      }
  }

  lemma StepDiscreet(net: Net, s: NetState, step: NetStep)
    requires Known(net, s) && NetEnabled(net, s, step) && Discreet(net, s.air)
    ensures Discreet(net, NetNext(net, s, step).air)
  {
    if step.NetTell? {
      TellIsDiscreet(net, s.held, step.time, step.abouts);
    }
  }

  /**
   * Refinement: whatever the other tracks do and whatever company its reports
   * travel in, each track goes through a run of the single-track protocol.
   */
  lemma {:induction false} EachTrackIsMirror(net: Net, run: seq<NetStep>, k: u32)
    requires k in net.receivers
    ensures Project(net, NetAfter(net, run), k) == StateAfter(SessionOf(net, k), RunSeen(net, run, k))
    ensures Discreet(net, NetAfter(net, run).air)
  {
    var session := SessionOf(net, k);
    if run == [] {
      assert Seen({}, k) == {};
    } else {
      var front, step := run[..|run| - 1], run[|run| - 1];
      var s := NetAfter(net, front);
      EachTrackIsMirror(net, front, k);
      var seen := StepSeen(net, s, step, k);
      if NetEnabled(net, s, step) {
        StepSeenRight(net, s, step, k);
        StepDiscreet(net, s, step);
      }
      if seen == [] {
        assert RunSeen(net, run, k) == RunSeen(net, front, k);
      } else {
        assert RunSeen(net, run, k) == RunSeen(net, front, k) + [seen[0]];
        ThenStep(session, RunSeen(net, front, k), seen[0]);
      }
    }
  }

  /**
   * Safety of a whole session over every run: for every track at once the
   * sender's checkpoint is the highest true checkpoint delivered so far, it
   * never passes what the receiver holds, and at most 120 frames are
   * outstanding.
   */
  lemma AllTracksSafe(net: Net, run: seq<NetStep>, k: u32)
    requires (net.xr || net.prompt) && k in net.receivers
    ensures SafeState(SessionOf(net, k), Project(net, NetAfter(net, run), k))
  {
    EachTrackIsMirror(net, run, k);
    Safe(SessionOf(net, k), RunSeen(net, run, k));
  }

  // ------------------------------------------------------------- handing on

  ghost predicate SaysSomething(net: Net, d: Datagram) {
    AboutTracks(net, d.abouts) && forall i | 0 <= i < |d.abouts| :: d.abouts[i].sender in d.meant
  }

  /** What a datagram was made to say about its `i`-th track. */
  function Says(net: Net, d: Datagram, i: nat): Feedback
    requires i < |d.abouts| && d.abouts[i].sender in net.receivers && d.abouts[i].sender in d.meant
  {
    var about := d.abouts[i];
    FeedbackFor(SessionOf(net, about.sender), d.time, d.meant[about.sender], about.nacks)
  }

  /** The datagram reads as what it was made to say, in that order. */
  ghost predicate Genuine(net: Net, d: Datagram) {
    && SaysSomething(net, d) && |Feedbacks(d.data)| == |d.abouts|
    && forall i | 0 <= i < |d.abouts| :: Feedbacks(d.data)[i] == Says(net, d, i)
  }

  lemma ToldIsGenuine(net: Net, held: map<u32, int>, time: u64, abouts: seq<About>)
    requires AboutTracks(net, abouts) && held.Keys == net.receivers.Keys
    ensures Genuine(net, DatagramFor(net, held, time, abouts))
  {
    PrintedSendable(net, held, time, abouts);
  }

  lemma {:induction false} AllGenuine(net: Net, run: seq<NetStep>)
    ensures forall d | d in NetAfter(net, run).air :: Genuine(net, d)
  {
    if run != [] {
      var front, step := run[..|run| - 1], run[|run| - 1];
      AllGenuine(net, front);
      var s := NetAfter(net, front);
      if step.NetTell? && NetEnabled(net, s, step) {
        ToldIsGenuine(net, s.held, step.time, step.abouts);
      }
    }
  }

  /** What a datagram meant for track `k` is not behind what is known of it, nor older than what was applied. */
  predicate InTime(net: Net, s: NetState, d: Datagram, k: u32)
    requires k in s.windows && k in d.meant
  {
    && s.windows[k].checkpoint <= d.meant[k]
    && (net.xr && s.windows[k].newest.Some? ==> s.windows[k].newest.value <= d.time)
  }

  /** Of what a datagram says from its `i`-th track on, that which is in time, in its order. */
  ghost function SaidInTime(net: Net, s: NetState, d: Datagram, i: nat): seq<Feedback>
    requires Known(net, s) && SaysSomething(net, d) && i <= |d.abouts|
    decreases |d.abouts| - i
  {
    if i == |d.abouts| then []
    else (if InTime(net, s, d, d.abouts[i].sender) then [Says(net, d, i)] else []) + SaidInTime(net, s, d, i + 1)
  }

  /** A track's feedback is accepted exactly when it is in time. */
  lemma HeardInTime(net: Net, run: seq<NetStep>, d: Datagram, now: nat, i: nat)
    requires net.xr || net.prompt
    requires NetEnabled(net, NetAfter(net, run), NetDeliver(d, now)) && Genuine(net, d) && i < |d.abouts|
    ensures var s, k := NetAfter(net, run), d.abouts[i].sender;
            Heard(net.receivers, s.windows, Says(net, d, i)) <==> InTime(net, s, d, k)
  {
    var s, k := NetAfter(net, run), d.abouts[i].sender;
    var r := Report(d.data, d.time, d.meant[k]);
    AllTracksSafe(net, run, k);
    assert r in Seen(s.air, k);
    AcceptedExactly(SessionOf(net, k), Project(net, s, k), r);
  }

  lemma {:induction false} HeardFrom(net: Net, run: seq<NetStep>, d: Datagram, now: nat, windows: map<u32, Window>, i: nat)
    requires net.xr || net.prompt
    requires NetEnabled(net, NetAfter(net, run), NetDeliver(d, now)) && Genuine(net, d) && i <= |d.abouts|
    requires windows.Keys == net.receivers.Keys
    requires forall j | i <= j < |d.abouts| :: windows[d.abouts[j].sender] == NetAfter(net, run).windows[d.abouts[j].sender]
    ensures AllHeard(net.receivers, windows, Feedbacks(d.data)[i..], now) == SaidInTime(net, NetAfter(net, run), d, i)
    decreases |d.abouts| - i
  {
    if i < |d.abouts| {
      var fbs := Feedbacks(d.data);
      HeardInTime(net, run, d, now, i);
      assert fbs[i..][0] == Says(net, d, i) && fbs[i..][1..] == fbs[i + 1..];
      HeardFrom(net, run, d, now, AfterOne(net.receivers, windows, fbs[i], now), i + 1);
    }
  }

  /** Whatever arrives, only what names one of our tracks with its own receiver is handed on. */
  lemma {:induction false} HeardIsNamed(receivers: map<u32, u32>, windows: map<u32, Window>, fbs: seq<Feedback>, now: nat)
    ensures forall fb | fb in AllHeard(receivers, windows, fbs, now) ::
              fb in fbs && fb.sender in windows && fb.sender in receivers && receivers[fb.sender] == fb.receiver
    decreases |fbs|
  {
    if fbs != [] {
      HeardIsNamed(receivers, AfterOne(receivers, windows, fbs[0], now), fbs[1..], now);
      assert forall fb | fb in fbs[1..] :: fb in fbs;
    }
  }

  /**
   * What is handed on, over every run of a session: of a delivered datagram
   * exactly what it says about tracks that have not heard more or newer, each
   * once, in its order, with its own requests.  What is refused is no sign of
   * life and its repairs are not served.
   */
  lemma HandedOnInTime(net: Net, run: seq<NetStep>, d: Datagram, now: nat)
    requires net.xr || net.prompt
    requires NetEnabled(net, NetAfter(net, run), NetDeliver(d, now))
    ensures Genuine(net, d)
    ensures AllHeard(net.receivers, NetAfter(net, run).windows, Feedbacks(d.data), now) == SaidInTime(net, NetAfter(net, run), d, 0)
  {
    AllGenuine(net, run);
    HeardFrom(net, run, d, now, NetAfter(net, run).windows, 0);
    assert Feedbacks(d.data)[0..] == Feedbacks(d.data);
  }
}
