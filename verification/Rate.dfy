/**
 * The bitrate of the mirroring encoder: a fifth off at once for a congested
 * window, a tenth back after four healthy ones, between a floor and the
 * negotiated ceiling.
 */
module Rate {
  import opened Common
  import opened Rtcp

  const FLOOR_KBPS := 300
  const HEALTHY_WINDOWS_BEFORE_RAISING := 4
  /** Above this ceiling the 32-bit product `current * 11` would overflow. */
  const LARGEST_CEILING := 0xFFFF_FFFF / 11

  datatype Window = Window(sent: nat, resent: nat, dropped: nat)

  /** Frames dropped, or more than 2 % of the packets resent. */
  predicate Congested(w: Window) {
    w.dropped > 0 || (w.sent > 0 && w.resent * 50 > w.sent)
  }

  datatype Control = Control(ceiling: nat, current: nat, healthy: nat)

  function Fresh(ceiling: nat): Control {
    Control(Max(ceiling, FLOOR_KBPS), Max(ceiling, FLOOR_KBPS), 0)
  }

  function Lowered(rate: nat): nat {
    Max(rate * 4 / 5, FLOOR_KBPS)
  }

  function Raised(rate: nat, ceiling: nat): nat {
    Min(rate * 11 / 10, ceiling)
  }

  function Observed(c: Control, w: Window): Control {
    if Congested(w) then c.(current := Lowered(c.current), healthy := 0)
    else if c.healthy + 1 >= HEALTHY_WINDOWS_BEFORE_RAISING && c.current < c.ceiling
    then c.(current := Raised(c.current, c.ceiling), healthy := 0)
    else c.(healthy := c.healthy + 1)
  }

  predicate InRange(c: Control) {
    FLOOR_KBPS <= c.current <= c.ceiling
  }

  class RateControl {
    var ceiling: u32
    var current: u32
    var healthy: nat

    function View(): Control
      reads this
    {
      Control(ceiling, current, healthy)
    }

    constructor (ceiling: u32)
      ensures View() == Fresh(ceiling) && InRange(View())
    {
      this.ceiling, this.current, this.healthy := Max(ceiling, FLOOR_KBPS), Max(ceiling, FLOOR_KBPS), 0;
    }

    /** Feeds one window in; an answer only when the rate changed. */
    method Observe(w: Window) returns (changed: Option<u32>)
      requires InRange(View()) && ceiling <= LARGEST_CEILING
      modifies this
      ensures View() == Observed(old(View()), w) && InRange(View())
      ensures changed == if current == old(current) then None else Some(current)
    {
      var previous := current;
      if Congested(w) {
        healthy := 0;
        var product: u32 := current * 4;
        current := Max(product / 5, FLOOR_KBPS);
      } else {
        healthy := healthy + 1;
        if healthy >= HEALTHY_WINDOWS_BEFORE_RAISING && current < ceiling {
          healthy := 0;
          var product: u32 := current * 11;
          current := Min(product / 10, ceiling);
        }
      }
      return if current != previous then Some(current) else None;
    }
  }

  // ------------------------------------------------------------------ runs

  /** The control after a run of windows, first to last. */
  function After(c: Control, run: seq<Window>): Control
    decreases |run|
  {
    if run == [] then c else After(Observed(c, run[0]), run[1..])
  }

  ghost predicate AllCongested(run: seq<Window>) {
    forall w | w in run :: Congested(w)
  }

  ghost predicate AllHealthy(run: seq<Window>) {
    forall w | w in run :: !Congested(w)
  }

  /** Every run stays between the floor and the ceiling, which never moves. */
  lemma {:induction false} AlwaysInRange(c: Control, run: seq<Window>)
    requires InRange(c)
    ensures InRange(After(c, run)) && After(c, run).ceiling == c.ceiling
    decreases |run|
  {
    if run != [] {
      AlwaysInRange(Observed(c, run[0]), run[1..]);
    }
  }

  /** The threshold is a share of more than 2 % of the packets sent. */
  lemma CongestedShare(w: Window)
    ensures Congested(w) <==> w.dropped > 0 || (w.sent > 0 && w.resent as real / w.sent as real > 0.02)
  {
    if w.sent > 0 {
      ShareAbove(w.resent as real, w.sent as real);
    }
  }

  lemma ShareAbove(part: real, whole: real)
    requires whole > 0.0
    ensures part / whole > 0.02 <==> part * 50.0 > whole
  {
  }

  /** Slow return: after a change of rate, no three windows raise it. */
  lemma {:induction false} NoEarlyRise(c: Control, run: seq<Window>)
    requires InRange(c) && c.healthy + |run| <= 3
    ensures After(c, run).current <= c.current
    decreases |run|
  {
    if run != [] {
      NoEarlyRise(Observed(c, run[0]), run[1..]);
    }
  }

  /** When the rate rises: after a healthy window that is the fourth in a row, if there is room. */
  predicate Rises(c: Control, w: Window) {
    !Congested(w) && c.healthy >= 3 && c.current < c.ceiling
  }

  /**
   * How far one window moves the rate: a congested one takes a fifth off, to
   * the kilobit, and no more, never below the floor; a rise adds a tenth, or
   * what is left up to the ceiling; any other window leaves the rate alone.
   */
  lemma OneWindow(c: Control, w: Window)
    requires InRange(c)
    ensures var next := Observed(c, w).current;
            && (Congested(w) ==> c.current * 4 - 5 < next * 5 && (next * 5 <= c.current * 4 || next == FLOOR_KBPS))
            && (Rises(c, w) ==> c.current < next && next * 10 <= c.current * 11
                                && (next == c.ceiling || c.current * 11 - 10 < next * 10))
            && (!Congested(w) && !Rises(c, w) ==> next == c.current)
    ensures Observed(c, w).healthy == if Congested(w) || Rises(c, w) then 0 else c.healthy + 1
  {
  }

  function Power(base: nat, n: nat): (p: nat)
    ensures base > 0 ==> p > 0
  {
    if n == 0 then 1 else base * Power(base, n - 1)
  }

  /** The bound `max(300, rate * (4/5)^n)`, cleared of fractions. */
  ghost predicate Decayed(now: nat, before: nat, n: nat) {
    now == FLOOR_KBPS || now * Power(5, n) <= before * Power(4, n)
  }

  lemma DecayStep(now: nat, middle: nat, before: nat, n: nat)
    requires middle * 5 <= before * 4
    requires now * Power(5, n) <= middle * Power(4, n)
    ensures now * Power(5, n + 1) <= before * Power(4, n + 1)
  {
  }

  lemma {:induction false} FloorStays(c: Control, run: seq<Window>)
    requires c.current == FLOOR_KBPS && AllCongested(run)
    ensures After(c, run).current == FLOOR_KBPS
    decreases |run|
  {
    if run != [] {
      assert Congested(run[0]);
      FloorStays(Observed(c, run[0]), run[1..]);
    }
  }

  /** `n` congested windows in a row take the rate down to the floor or to at most (4/5)^n of itself. */
  lemma {:induction false} CongestionDecays(c: Control, run: seq<Window>)
    requires InRange(c) && AllCongested(run)
    ensures Decayed(After(c, run).current, c.current, |run|)
    decreases |run|
  {
    if run != [] {
      assert Congested(run[0]);
      var next := Observed(c, run[0]);
      if next.current == FLOOR_KBPS {
        FloorStays(next, run[1..]);
      } else {
        CongestionDecays(next, run[1..]);
        if After(c, run).current != FLOOR_KBPS {
          DecayStep(After(c, run).current, next.current, c.current, |run| - 1);
        }
      }
    }
  }

  /** Healthy windows still to go before the next rise. */
  function ToNextRise(c: Control): nat {
    if c.healthy >= 3 then 1 else 4 - c.healthy
  }

  /** `ceil((ceiling - current) / 30)`: raises that are always enough, each one at least 30 kbit. */
  function Raises(c: Control): nat {
    if c.ceiling <= c.current then 0 else (c.ceiling - c.current + 29) / 30
  }

  /** An upper bound on the healthy windows left, counting those already seen. */
  function Left(c: Control): nat {
    if c.ceiling <= c.current then 0 else ToNextRise(c) + 4 * (Raises(c) - 1)
  }

  /** Each healthy window brings the ceiling one window nearer. */
  lemma HealthyStep(c: Control, w: Window)
    requires InRange(c) && !Congested(w)
    ensures InRange(Observed(c, w))
    ensures c.current < c.ceiling ==> Left(Observed(c, w)) < Left(c)
    ensures c.current == c.ceiling ==> Observed(c, w).current == c.ceiling
  {
  }

  /**
   * Recovery: from any state in range, healthy windows enough bring the rate
   * to the ceiling, and further healthy ones keep it there.
   */
  lemma {:induction false} HealthRecovers(c: Control, run: seq<Window>)
    requires InRange(c) && AllHealthy(run) && Left(c) <= |run|
    ensures After(c, run).current == c.ceiling
    decreases |run|
  {
    if run != [] {
      assert !Congested(run[0]);
      HealthyStep(c, run[0]);
      HealthRecovers(Observed(c, run[0]), run[1..]);
    }
  }

  /** Whatever happened before, `4 * ceil((ceiling - current) / 30)` healthy windows suffice. */
  lemma RecoveryBound(ceiling: nat, past: seq<Window>, run: seq<Window>)
    requires AllHealthy(run) && 4 * Raises(After(Fresh(ceiling), past)) <= |run|
    ensures After(After(Fresh(ceiling), past), run).current == Max(ceiling, FLOOR_KBPS)
  {
    AlwaysInRange(Fresh(ceiling), past);
    HealthRecovers(After(Fresh(ceiling), past), run);
  }

  // -------------------------------------------------------------- counters

  /** `wrapping_sub` on 32 bits. */
  function WrappingSub(a: u32, b: u32): u32 {
    if a >= b then a - b else a - b + 0x1_0000_0000
  }

  /** A difference below 2^32 survives the cut to 32 bits on both sides. */
  lemma {:induction false} DifferenceSurvives(before: nat, after: nat)
    requires before <= after < before + 0x1_0000_0000
    ensures WrappingSub(Low32(after), Low32(before)) == after - before
  {
    if before >= 0x1_0000_0000 {
      DifferenceSurvives(before - 0x1_0000_0000, after - 0x1_0000_0000);
    } else if after >= 0x1_0000_0000 {
      assert Wrap(after - 0x1_0000_0000, 0x1_0000_0000) == after - 0x1_0000_0000;
    }
  }

  /** What the totals were when the last window was handed out. */
  datatype Baseline = Baseline(packets: u32, resent: nat, dropped: nat)

  const ORIGIN := Baseline(0, 0, 0)

  /** The window from a baseline to the present totals. */
  function Since(base: Baseline, packets: u32, resent: nat, dropped: nat): Window
    requires base.resent <= resent && base.dropped <= dropped
  {
    Window(WrappingSub(packets, base.packets), resent - base.resent, dropped - base.dropped)
  }

  /** The counters of the sender reports and the baseline of the rate windows, with the true counts beside them. */
  class Counters {
    var stats: SenderStats
    var base: Baseline
    ghost var sent: nat
    ghost var octets: nat
    ghost var sentAtCall: nat

    ghost predicate Valid()
      reads this
    {
      stats == SenderStats(Low32(sent), Low32(octets)) && base.packets == Low32(sentAtCall) && sentAtCall <= sent
    }

    constructor ()
      ensures Valid() && sent == octets == sentAtCall == 0 && stats == SenderStats(0, 0) && base == ORIGIN
    {
      stats, base := SenderStats(0, 0), ORIGIN;
      sent, octets, sentAtCall := 0, 0, 0;
    }

    /** Counts one packet. */
    method Record(payload: nat)
      requires Valid()
      modifies this`stats, this`sent, this`octets
      ensures Valid() && sent == old(sent) + 1 && octets == old(octets) + payload
      ensures stats == Recorded(old(stats), payload)
    {
      WrapSum(sent, 1, 0x1_0000_0000);
      WrapSum(payload, stats.octets, 0x1_0000_0000);
      WrapSum(octets, payload, 0x1_0000_0000);
      stats := SenderStats(if stats.packets == 0xFFFF_FFFF then 0 else stats.packets + 1,
                           Low32(stats.octets + Low32(payload)));
      sent, octets := sent + 1, octets + payload;
    }

    /** The window since the previous call: the true counts, unless 2^32 packets left in between. */
    method Advance(resent: nat, dropped: nat) returns (w: Window)
      requires Valid() && base.resent <= resent && base.dropped <= dropped
      modifies this`base, this`sentAtCall
      ensures Valid() && sentAtCall == sent && base == Baseline(stats.packets, resent, dropped)
      ensures w == Since(old(base), stats.packets, resent, dropped)
      ensures sent < old(sentAtCall) + 0x1_0000_0000 ==>
                w == Window(sent - old(sentAtCall), resent - old(base).resent, dropped - old(base).dropped)
    {
      if sent < sentAtCall + 0x1_0000_0000 {
        DifferenceSurvives(sentAtCall, sent);
      }
      w := Window(WrappingSub(stats.packets, base.packets), resent - base.resent, dropped - base.dropped);
      base := Baseline(stats.packets, resent, dropped);
      sentAtCall := sent;
    }
  }

  datatype Event = Packet(payload: nat) | Resend | Drop | Call

  /** What truly happened, in unbounded numbers. */
  datatype Truth = Truth(sent: nat, octets: nat, resent: nat, dropped: nat)

  function TruthOf(events: seq<Event>): Truth {
    if events == [] then Truth(0, 0, 0, 0)
    else
      var t := TruthOf(events[..|events| - 1]);
      match events[|events| - 1]
      case Packet(payload) => t.(sent := t.sent + 1, octets := t.octets + payload)
      case Resend => t.(resent := t.resent + 1)
      case Drop => t.(dropped := t.dropped + 1)
      case Call => t
  }

  /** How many events were over when the last window was asked for. */
  function LastCall(events: seq<Event>): (n: nat)
    ensures n <= |events|
  {
    if events == [] then 0
    else if events[|events| - 1].Call? then |events|
    else LastCall(events[..|events| - 1])
  }

  /** What the program keeps over a session; `reported` adds up the windows handed out so far. */
  datatype Meter = Meter(stats: SenderStats, resent: nat, dropped: nat, base: Baseline, reported: Window)

  function Add(a: Window, b: Window): Window {
    Window(a.sent + b.sent, a.resent + b.resent, a.dropped + b.dropped)
  }

  function Tick(m: Meter, e: Event): Meter
    requires m.base.resent <= m.resent && m.base.dropped <= m.dropped
  {
    match e
    case Packet(payload) => m.(stats := Recorded(m.stats, payload))
    case Resend => m.(resent := m.resent + 1)
    case Drop => m.(dropped := m.dropped + 1)
    case Call =>
      m.(base := Baseline(m.stats.packets, m.resent, m.dropped),
         reported := Add(m.reported, Since(m.base, m.stats.packets, m.resent, m.dropped)))
  }

  function Metered(events: seq<Event>): (m: Meter)
    ensures m.base.resent <= m.resent && m.base.dropped <= m.dropped
  {
    if events == [] then Meter(SenderStats(0, 0), 0, 0, ORIGIN, Window(0, 0, 0))
    else Tick(Metered(events[..|events| - 1]), events[|events| - 1])
  }

  /** Fewer than 2^32 packets left since the last window was asked for. */
  predicate CalledInTime(events: seq<Event>) {
    TruthOf(events).sent < TruthOf(events[..LastCall(events)]).sent + 0x1_0000_0000
  }

  ghost predicate CalledOften(events: seq<Event>) {
    forall k | 0 <= k <= |events| :: CalledInTime(events[..k])
  }

  /** The truth as the counters show it, and as it was at the last call. */
  ghost predicate Shows(m: Meter, now: Truth, earlier: Truth) {
    && m.stats == SenderStats(Low32(now.sent), Low32(now.octets)) && m.resent == now.resent && m.dropped == now.dropped
    && m.base == Baseline(Low32(earlier.sent), earlier.resent, earlier.dropped)
    && m.reported == Window(earlier.sent, earlier.resent, earlier.dropped)
  }

  lemma PacketShows(m: Meter, now: Truth, earlier: Truth, payload: nat)
    requires Shows(m, now, earlier)
    ensures Shows(m.(stats := Recorded(m.stats, payload)), now.(sent := now.sent + 1, octets := now.octets + payload), earlier)
  {
    WrapSum(now.sent, 1, 0x1_0000_0000);
    WrapSum(payload, m.stats.octets, 0x1_0000_0000);
    WrapSum(now.octets, payload, 0x1_0000_0000);
  }

  lemma CallShows(m: Meter, now: Truth, earlier: Truth)
    requires Shows(m, now, earlier) && earlier.sent <= now.sent < earlier.sent + 0x1_0000_0000
    requires m.base.resent <= m.resent && m.base.dropped <= m.dropped
    ensures Shows(Tick(m, Call), now, now)
  {
    DifferenceSurvives(earlier.sent, now.sent);
  }

  lemma {:induction false} TruthGrows(events: seq<Event>, k: nat)
    requires k <= |events|
    ensures TruthOf(events[..k]).sent <= TruthOf(events).sent
  {
    if k < |events| {
      TruthGrows(events[..|events| - 1], k);
      assert events[..|events| - 1][..k] == events[..k];
    } else {
      assert events[..k] == events;
    }
  }

  lemma EventShows(m: Meter, now: Truth, earlier: Truth, e: Event, after: Truth)
    requires Shows(m, now, earlier) && !e.Call? && m.base.resent <= m.resent && m.base.dropped <= m.dropped
    requires after == match e
                      case Packet(payload) => now.(sent := now.sent + 1, octets := now.octets + payload)
                      case Resend => now.(resent := now.resent + 1)
                      case Drop => now.(dropped := now.dropped + 1)
    ensures Shows(Tick(m, e), after, earlier)
  {
    if e.Packet? {
      PacketShows(m, now, earlier, e.payload);
    }
  }

  /**
   * Conservation: however often the 32-bit counters wrap, the windows reported
   * so far add up to every packet sent, resent and dropped before the last
   * call, and the sender reports show the true counts modulo 2^32.
   */
  lemma {:induction false} WindowsConserve(events: seq<Event>)
    requires CalledOften(events)
    ensures Shows(Metered(events), TruthOf(events), TruthOf(events[..LastCall(events)]))
  {
    if events != [] {
      var front, e := events[..|events| - 1], events[|events| - 1];
      assert forall k | 0 <= k <= |front| :: front[..k] == events[..k];
      WindowsConserve(front);
      var m, now, earlier := Metered(front), TruthOf(front), TruthOf(front[..LastCall(front)]);
      if e.Call? {
        TruthGrows(front, LastCall(front));
        assert CalledInTime(events[..|front|]) && events[..|front|] == front;
        CallShows(m, now, earlier);
        assert events[..|events|] == events;
      } else {
        EventShows(m, now, earlier, e, TruthOf(events));
      }
    }
  }
}
