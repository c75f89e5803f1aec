/**
 * Opening the WFD ports for a session, with a journal of the rules opened so
 * that a run that dies leaves them on record for the next one to close.
 *
 * Every effect on the firewall or the journal adds one world to the history;
 * a crash may happen at any of them, so what is proved of all worlds of a
 * history holds at every crash point.
 */
module Firewall {
  import opened Common
  import opened FirewallLease

  datatype Rule = Rule(zone: string, port: Port)

  /** The open runtime rules, the journal, and `ours`: which of the rules this code opened. */
  datatype World = World(rules: set<Rule>, journal: Option<string>, ours: set<Rule>)

  type History = h: seq<World> | h != [] witness [World({}, None, {})]

  function Last(h: History): World {
    h[|h| - 1]
  }

  function RulesOf(lease: Lease): set<Rule> {
    set p | p in lease.ports :: Rule(lease.zone, p)
  }

  function JournalRules(journal: Option<string>): set<Rule> {
    if journal.Some? && FromFile(journal.value).Some? then RulesOf(FromFile(journal.value).value) else {}
  }

  /** How D-Bus answers during one call: reachable or not, and the calls that fail. */
  datatype Bus = Bus(connected: bool, queryFails: set<Rule>, addFails: set<Rule>, removeFails: set<Rule>)

  const WORKING := Bus(true, {}, {}, {})

  // --------------------------------------------------------------- closing

  predicate CloseFails(w: World, rule: Rule, bus: Bus) {
    rule in bus.queryFails || (rule in w.rules && rule in bus.removeFails)
  }

  function AfterClose(w: World, rule: Rule, bus: Bus): World {
    if CloseFails(w, rule, bus) then w else w.(rules := w.rules - {rule}, ours := w.ours - {rule})
  }

  function CloseAll(h: History, zone: string, ports: seq<Port>, bus: Bus): History
    decreases |ports|
  {
    if ports == [] then h
    else CloseAll(h + [AfterClose(Last(h), Rule(zone, ports[0]), bus)], zone, ports[1..], bus)
  }

  predicate AllClose(w: World, zone: string, ports: seq<Port>, bus: Bus)
    decreases |ports|
  {
    ports == [] ||
    (!CloseFails(w, Rule(zone, ports[0]), bus)
     && AllClose(AfterClose(w, Rule(zone, ports[0]), bus), zone, ports[1..], bus))
  }

  /** The journal is erased when every rule is gone and it still holds this very lease. */
  predicate Erases(w: World, lease: Lease) {
    w.journal.Some? && FromFile(w.journal.value) == Some(lease)
  }

  function Released(h: History, lease: Lease, bus: Bus): History {
    if lease.ports == [] || !bus.connected then h
    else
      var closed := CloseAll(h, lease.zone, lease.ports, bus);
      if AllClose(Last(h), lease.zone, lease.ports, bus) && Erases(Last(closed), lease)
      then closed + [Last(closed).(journal := None)]
      else closed
  }

  /** What a previous run left on record is closed first; a record that makes no sense is dropped. */
  function StaleReleased(h: History, bus: Bus): History {
    match Last(h).journal
    case None => h
    case Some(contents) =>
      match FromFile(contents)
      case None => h + [Last(h).(journal := None)]
      case Some(lease) => Released(h, lease, bus)
  }

  // --------------------------------------------------------------- opening

  function AfterAdd(w: World, rule: Rule): World {
    w.(rules := w.rules + {rule}, ours := w.ours + {rule})
  }

  function AfterRemember(w: World, lease: Lease): World {
    if lease.ports == [] then w else w.(journal := Some(ToFile(lease)))
  }

  /** The history after one more port is opened and recorded. */
  function WithPort(h: History, lease: Lease, port: Port): History {
    var added := AfterAdd(Last(h), Rule(lease.zone, port));
    h + [added] + [AfterRemember(added, lease.(ports := lease.ports + [port]))]
  }

  datatype Opening = Opened(lease: Lease) | Refused

  /** The loop over the ports still to open; a failure releases what this call opened. */
  function OpenAll(h: History, lease: Lease, ports: seq<Port>, bus: Bus, rollback: Bus): (History, Opening)
    decreases |ports|
  {
    if ports == [] then (h, Opened(lease))
    else
      var rule := Rule(lease.zone, ports[0]);
      if rule in bus.queryFails then (Released(h, lease, rollback), Refused)
      else if rule in Last(h).rules then OpenAll(h, lease, ports[1..], bus, rollback)
      else if rule in bus.addFails then (Released(h, lease, rollback), Refused)
      else OpenAll(WithPort(h, lease, ports[0]), lease.(ports := lease.ports + [ports[0]]), ports[1..], bus, rollback)
  }

  /** firewalld's answer to which zone the interface is in. */
  datatype ZoneAnswer = Zone(name: string) | Absent | ZoneFails

  const NOOP := Lease("", [])

  function Ensured(h: History, connected: bool, zone: ZoneAnswer, stale: Bus, bus: Bus, rollback: Bus): (History, Opening) {
    if !connected then (h, Opened(NOOP))
    else
      var h' := StaleReleased(h, stale);
      match zone
      case Absent => (h', Opened(NOOP))
      case ZoneFails => (h', Refused)
      case Zone(name) => OpenAll(h', Lease(name, []), WFD_PORTS, bus, rollback)
  }

  // ------------------------------------------------------------ the process

  /** The machine the process runs on; `history` records every crash point. */
  class Machine {
    var rules: set<Rule>
    var journal: Option<string>
    ghost var ours: set<Rule>
    ghost var history: seq<World>

    ghost predicate Valid()
      reads this
    {
      history != [] && history[|history| - 1] == World(rules, journal, ours)
    }

    constructor (rules: set<Rule>, journal: Option<string>)
      ensures Valid() && history == [World(rules, journal, {})]
    {
      this.rules, this.journal, this.ours := rules, journal, {};
      this.history := [World(rules, journal, {})];
    }

    ghost method Note()
      requires history != []
      modifies this`history
      ensures history == old(history) + [World(rules, journal, ours)] && Valid()
    {
      history := history + [World(rules, journal, ours)];
    }

    /** Queries and removes one rule; absence is success. */
    method Close(rule: Rule, bus: Bus) returns (done: bool)
      requires Valid()
      modifies this
      ensures Valid() && history == old(history) + [AfterClose(Last(old(history)), rule, bus)]
      ensures done == !CloseFails(Last(old(history)), rule, bus)
    {
      done := true;
      if rule in bus.queryFails {
        done := false;
      } else if rule in rules {
        if rule in bus.removeFails {
          done := false;
        } else {
          rules := rules - {rule};
        }
      }
      if done {
        ours := ours - {rule};
      }
      assert World(rules, journal, ours).rules == AfterClose(Last(history), rule, bus).rules;
      Note();
    }

    method Release(lease: Lease, bus: Bus)
      requires Valid()
      modifies this
      ensures Valid() && history == Released(old(history), lease, bus)
    {
      if lease.ports == [] || !bus.connected {
        return;
      }
      var complete := true;
      for i := 0 to |lease.ports|
        invariant Valid()
        invariant CloseAll(history, lease.zone, lease.ports[i..], bus) == CloseAll(old(history), lease.zone, lease.ports, bus)
        invariant AllClose(Last(old(history)), lease.zone, lease.ports, bus)
             <==> complete && AllClose(Last(history), lease.zone, lease.ports[i..], bus)
      {
        assert lease.ports[i..][1..] == lease.ports[i + 1..];
        var done := Close(Rule(lease.zone, lease.ports[i]), bus);
        complete := complete && done;
      }
      if complete && journal.Some? && FromFile(journal.value) == Some(lease) {
        journal := None;
        Note();
      }
    }

    method ReleaseStale(bus: Bus)
      requires Valid()
      modifies this
      ensures Valid() && history == StaleReleased(old(history), bus)
    {
      if journal.None? {
        return;
      }
      var lease := FromFile(journal.value);
      if lease.None? {
        journal := None;
        Note();
        return;
      }
      Release(lease.value, bus);
    }

    /** Opens one port and writes the lease down. */
    method Open(lease: Lease, port: Port) returns (longer: Lease)
      requires Valid()
      modifies this
      ensures longer == lease.(ports := lease.ports + [port])
      ensures Valid() && history == WithPort(old(history), lease, port)
    {
      rules := rules + {Rule(lease.zone, port)};
      ours := ours + {Rule(lease.zone, port)};
      Note();
      longer := lease.(ports := lease.ports + [port]);
      journal := Some(ToFile(longer));
      Note();
    }

    method EnsurePortsOpen(connected: bool, zone: ZoneAnswer, stale: Bus, bus: Bus, rollback: Bus) returns (r: Opening)
      requires Valid()
      modifies this
      ensures Valid() && (history, r) == Ensured(old(history), connected, zone, stale, bus, rollback)
    {
      if !connected {
        return Opened(NOOP);
      }
      ReleaseStale(stale);
      if zone.Absent? {
        return Opened(NOOP);
      }
      if zone.ZoneFails? {
        return Refused;
      }
      var lease := Lease(zone.name, []);
      ghost var start := history;
      for i := 0 to |WFD_PORTS|
        invariant Valid() && lease.zone == zone.name
        invariant OpenAll(history, lease, WFD_PORTS[i..], bus, rollback)
               == OpenAll(start, Lease(zone.name, []), WFD_PORTS, bus, rollback)
      {
        assert WFD_PORTS[i..][1..] == WFD_PORTS[i + 1..];
        var rule := Rule(zone.name, WFD_PORTS[i]);
        if rule !in bus.queryFails && rule in rules {
          continue;
        }
        if rule in bus.queryFails || rule in bus.addFails {
          Release(lease, rollback);
          return Refused;
        }
        lease := Open(lease, WFD_PORTS[i]);
      }
      return Opened(lease);
    }
  }

  // ---------------------------------------------------- what releasing does

  predicate Sane(w: World) {
    w.ours <= w.rules
  }

  function PortRules(zone: string, ports: seq<Port>): set<Rule> {
    set p | p in ports :: Rule(zone, p)
  }

  /** Some of `gone` was closed, nothing else changed. */
  ghost predicate Shrunk(w: World, w': World, gone: set<Rule>) {
    && w'.journal == w.journal && w'.rules <= w.rules && w.rules - w'.rules <= gone
    && w'.ours == w.ours * w'.rules
  }

  lemma CloseShrinks(w: World, rule: Rule, bus: Bus)
    requires Sane(w)
    ensures Shrunk(w, AfterClose(w, rule, bus), {rule})
    ensures !CloseFails(w, rule, bus) ==> AfterClose(w, rule, bus).rules == w.rules - {rule}
  {
  }

  lemma ShrunkTwice(a: World, b: World, c: World, gone: set<Rule>, more: set<Rule>)
    requires Shrunk(a, b, gone) && Shrunk(b, c, more)
    ensures Shrunk(a, c, gone + more)
  {
  }

  lemma PortRulesCons(zone: string, ports: seq<Port>)
    requires ports != []
    ensures PortRules(zone, ports) == {Rule(zone, ports[0])} + PortRules(zone, ports[1..])
  {
  }

  /** `longer` continues `h`, and all that is new satisfies the closing rule. */
  ghost predicate Closing(h: History, longer: History, gone: set<Rule>) {
    && h <= longer
    && forall i | |h| <= i + 1 <= |longer| && 0 <= i :: Shrunk(Last(h), longer[i], gone)
  }

  lemma {:induction false} CloseAllShrinks(h: History, zone: string, ports: seq<Port>, bus: Bus)
    requires Sane(Last(h))
    ensures Closing(h, CloseAll(h, zone, ports, bus), PortRules(zone, ports))
    ensures AllClose(Last(h), zone, ports, bus) ==>
              Last(CloseAll(h, zone, ports, bus)).rules == Last(h).rules - PortRules(zone, ports)
    decreases |ports|
  {
    if ports != [] {
      var rule := Rule(zone, ports[0]);
      var w := AfterClose(Last(h), rule, bus);
      CloseShrinks(Last(h), rule, bus);
      CloseAllShrinks(h + [w], zone, ports[1..], bus);
      PortRulesCons(zone, ports);
      var longer := CloseAll(h, zone, ports, bus);
      forall i | |h| <= i + 1 <= |longer| && 0 <= i
        ensures Shrunk(Last(h), longer[i], PortRules(zone, ports))
      {
        if i >= |h| {
          ShrunkTwice(Last(h), w, longer[i], {rule}, PortRules(zone, ports[1..]));
        } else {
          assert longer[i] == Last(h);
        }
      }
    }
  }

  /**
   * A world seen while `lease` is released from `w`: only rules of the lease
   * were closed, and the journal went only if it held this lease and, by then,
   * every rule of the lease was gone.
   */
  ghost predicate ReleasePoint(w: World, w': World, lease: Lease) {
    && w'.rules <= w.rules && w.rules - w'.rules <= RulesOf(lease) && w'.ours == w.ours * w'.rules
    && (w'.journal == w.journal
        || (w'.journal.None? && Erases(w, lease) && w'.rules == w.rules - RulesOf(lease)))
  }

  ghost predicate Releasing(h: History, longer: History, lease: Lease) {
    && h <= longer
    && (forall i | |h| <= i < |longer| :: ReleasePoint(Last(h), longer[i], lease))
    && ReleasePoint(Last(h), Last(longer), lease)
  }

  lemma ReleasePoints(h: History, lease: Lease, bus: Bus)
    requires Sane(Last(h))
    ensures Releasing(h, Released(h, lease, bus), lease)
  {
    if lease.ports != [] && bus.connected {
      CloseAllShrinks(h, lease.zone, lease.ports, bus);
      var closed := CloseAll(h, lease.zone, lease.ports, bus);
      assert forall i | |h| <= i < |closed| :: ReleasePoint(Last(h), closed[i], lease);
      assert Shrunk(Last(h), closed[|closed| - 1], PortRules(lease.zone, lease.ports));
    }
  }

  /** The rules of these ports that will not go: their query fails, or they are open and their removal does. */
  function Stuck(w: World, zone: string, ports: seq<Port>, bus: Bus): set<Rule> {
    set p | p in ports && CloseFails(w, Rule(zone, p), bus) :: Rule(zone, p)
  }

  lemma StuckCons(w: World, zone: string, ports: seq<Port>, bus: Bus)
    requires ports != []
    ensures var rule := Rule(zone, ports[0]);
            Stuck(w, zone, ports, bus) == (if CloseFails(w, rule, bus) then {rule} else {}) + Stuck(w, zone, ports[1..], bus)
  {
  }

  /** Closing one rule does not unstick another. */
  lemma StuckAfter(w: World, rule: Rule, zone: string, ports: seq<Port>, bus: Bus)
    ensures Stuck(AfterClose(w, rule, bus), zone, ports, bus) - {rule} == Stuck(w, zone, ports, bus) - {rule}
    ensures CloseFails(w, rule, bus) ==> AfterClose(w, rule, bus) == w
    ensures !CloseFails(w, rule, bus) ==> rule !in Stuck(AfterClose(w, rule, bus), zone, ports, bus) && rule !in Stuck(w, zone, ports, bus)
  {
  }

  /** Whatever D-Bus does, a release closes each rule that it lets it close, and is complete when none is stuck. */
  lemma {:induction false} ClosesWhatItCan(h: History, zone: string, ports: seq<Port>, bus: Bus)
    ensures Last(CloseAll(h, zone, ports, bus)).rules == Last(h).rules - (PortRules(zone, ports) - Stuck(Last(h), zone, ports, bus))
    ensures AllClose(Last(h), zone, ports, bus) <==> Stuck(Last(h), zone, ports, bus) == {}
    decreases |ports|
  {
    if ports != [] {
      var rule, w := Rule(zone, ports[0]), Last(h);
      var w' := AfterClose(w, rule, bus);
      ClosesWhatItCan(h + [w'], zone, ports[1..], bus);
      PortRulesCons(zone, ports);
      StuckCons(w, zone, ports, bus);
      StuckAfter(w, rule, zone, ports[1..], bus);
    }
  }

  /**
   * A release, exactly: with D-Bus reachable each rule of the lease goes unless
   * its query or its removal fails, and the record goes with them exactly when
   * none of them failed and it still holds this lease.
   */
  lemma ReleaseExactly(h: History, lease: Lease, bus: Bus)
    requires lease.ports != [] && bus.connected && Sane(Last(h))
    ensures var (w, w') := (Last(h), Last(Released(h, lease, bus)));
            var stuck := Stuck(w, lease.zone, lease.ports, bus);
            && w'.rules == w.rules - (RulesOf(lease) - stuck)
            && w'.journal == if stuck == {} && Erases(w, lease) then None else w.journal
  {
    ClosesWhatItCan(h, lease.zone, lease.ports, bus);
    CloseAllShrinks(h, lease.zone, lease.ports, bus);
    var closed := CloseAll(h, lease.zone, lease.ports, bus);
    assert Shrunk(Last(h), closed[|closed| - 1], PortRules(lease.zone, lease.ports));
  }

  lemma {:induction false} WorkingCloses(w: World, zone: string, ports: seq<Port>)
    ensures AllClose(w, zone, ports, WORKING)
    decreases |ports|
  {
    if ports != [] {
      WorkingCloses(AfterClose(w, Rule(zone, ports[0]), WORKING), zone, ports[1..]);
    }
  }

  /** With D-Bus working, a release closes its whole lease and erases the record of it. */
  lemma ReleaseWorks(h: History, lease: Lease)
    requires Sane(Last(h))
    ensures var w := Last(Released(h, lease, WORKING));
            && w.rules == Last(h).rules - RulesOf(lease)
            && w.ours == Last(h).ours - RulesOf(lease)
            && (lease.ports != [] ==> w.journal == if Erases(Last(h), lease) then None else Last(h).journal)
  {
    WorkingCloses(Last(h), lease.zone, lease.ports);
    CloseAllShrinks(h, lease.zone, lease.ports, WORKING);
    var closed := CloseAll(h, lease.zone, lease.ports, WORKING);
    assert Shrunk(Last(h), closed[|closed| - 1], PortRules(lease.zone, lease.ports));
  }

  /** The record is erased only after all the rules on it are absent, whatever D-Bus does. */
  lemma RecordOutlivesRules(h: History, bus: Bus, i: nat)
    requires Sane(Last(h)) && |h| <= i < |StaleReleased(h, bus)|
    requires StaleReleased(h, bus)[i].journal.None?
    ensures JournalRules(Last(h).journal) !! StaleReleased(h, bus)[i].rules
  {
    var contents := Last(h).journal;
    if contents.Some? && FromFile(contents.value).Some? {
      ReleasePoints(h, FromFile(contents.value).value, bus);
      assert ReleasePoint(Last(h), StaleReleased(h, bus)[i], FromFile(contents.value).value);
    }
  }

  /** Likewise when a session releases its own lease. */
  lemma OwnRecordOutlivesRules(h: History, lease: Lease, bus: Bus, i: nat)
    requires Sane(Last(h)) && |h| <= i < |Released(h, lease, bus)|
    requires Last(h).journal.Some? && Released(h, lease, bus)[i].journal.None?
    ensures JournalRules(Last(h).journal) !! Released(h, lease, bus)[i].rules
  {
    ReleasePoints(h, lease, bus);
    assert ReleasePoint(Last(h), Released(h, lease, bus)[i], lease);
  }

  // ---------------------------------------------------- what opening does

  /** Rules this code opened that no journal knows of. */
  function Untracked(w: World): set<Rule> {
    w.ours - JournalRules(w.journal)
  }

  /** The state between two ports: `start` plus the lease so far, which is on record. */
  ghost predicate InLoop(start: World, w: World, lease: Lease) {
    && WfdLease(lease) && FromFile(ToFile(lease)) == Some(lease)
    && RulesOf(lease) !! start.rules
    && w.rules == start.rules + RulesOf(lease) && w.ours == start.ours + RulesOf(lease)
    && w.journal == if lease.ports == [] then start.journal else Some(ToFile(lease))
  }

  /**
   * At every crash point the user's rules are as they were, only WFD ports of
   * the zone were opened, at most one rule opened since is not on record, and
   * the record names no open rule of the user's that the one before did not
   * name.
   */
  ghost predicate OpenPoint(start: World, w: World, zone: string) {
    && Sane(w) && w.rules - w.ours == start.rules - start.ours
    && w.ours <= start.ours + PortRules(zone, WFD_PORTS)
    && (exists r: Rule :: Untracked(w) - start.ours <= {r})
    && JournalRules(w.journal) * (w.rules - w.ours) <= JournalRules(start.journal)
  }

  lemma LoopPoint(start: World, w: World, lease: Lease)
    requires Sane(start) && InLoop(start, w, lease)
    ensures OpenPoint(start, w, lease.zone)
  {
    if lease.ports == [] {
      assert RulesOf(lease) == {};
    }
    assert Untracked(w) - start.ours <= {Rule("", RTSP)};
  }

  lemma AddPoint(start: World, w: World, lease: Lease, rule: Rule)
    requires Sane(start) && InLoop(start, w, lease) && rule !in w.rules && rule in PortRules(lease.zone, WFD_PORTS)
    ensures OpenPoint(start, AfterAdd(w, rule), lease.zone)
  {
  }

  lemma NextInLoop(start: World, w: World, lease: Lease, port: Port)
    requires Sane(start) && InLoop(start, w, lease) && CleanZone(lease.zone)
    requires port in WFD_PORTS && |lease.ports| < 2 && Rule(lease.zone, port) !in w.rules
    ensures var longer := lease.(ports := lease.ports + [port]);
            InLoop(start, AfterRemember(AfterAdd(w, Rule(lease.zone, port)), longer), longer)
  {
    var longer := lease.(ports := lease.ports + [port]);
    assert RulesOf(longer) == RulesOf(lease) + {Rule(lease.zone, port)};
    if |longer.ports| == 2 {
      assert Rule(lease.zone, lease.ports[0]) in RulesOf(lease);
    }
    LeaseRoundTrip(longer);
  }

  lemma RollbackPoint(start: World, w: World, w': World, lease: Lease)
    requires Sane(start) && InLoop(start, w, lease) && ReleasePoint(w, w', lease) && lease.ports != []
    ensures OpenPoint(start, w', lease.zone)
  {
    assert Untracked(w') - start.ours <= {Rule("", RTSP)};
  }

  ghost predicate OpeningPoints(start: World, h: History, longer: History, zone: string) {
    h <= longer && forall i | |h| <= i < |longer| :: OpenPoint(start, longer[i], zone)
  }

  lemma RollbackPoints(start: World, h: History, lease: Lease, rollback: Bus)
    requires Sane(start) && InLoop(start, Last(h), lease)
    ensures OpeningPoints(start, h, Released(h, lease, rollback), lease.zone)
    ensures rollback == WORKING ==> Last(Released(h, lease, rollback)).rules == start.rules
                                    && Last(Released(h, lease, rollback)).ours == start.ours
  {
    LoopPoint(start, Last(h), lease);
    ReleasePoints(h, lease, rollback);
    if rollback == WORKING {
      ReleaseWorks(h, lease);
    }
    var longer := Released(h, lease, rollback);
    forall i | |h| <= i < |longer|
      ensures OpenPoint(start, longer[i], lease.zone)
    {
      RollbackPoint(start, Last(h), longer[i], lease);
    }
  }

  lemma OpeningTwice(start: World, h: History, middle: History, longer: History, zone: string)
    requires OpeningPoints(start, h, middle, zone) && OpeningPoints(start, middle, longer, zone)
    ensures OpeningPoints(start, h, longer, zone)
  {
  }

  lemma TwoMorePoints(start: World, h: History, a: World, b: World, zone: string)
    requires OpenPoint(start, a, zone) && OpenPoint(start, b, zone)
    ensures OpeningPoints(start, h, h + [a] + [b], zone)
  {
  }

  lemma PortPoints(start: World, h: History, lease: Lease, port: Port)
    requires Sane(start) && InLoop(start, Last(h), lease) && CleanZone(lease.zone)
    requires port in WFD_PORTS && |lease.ports| < 2 && Rule(lease.zone, port) !in Last(h).rules
    ensures OpeningPoints(start, h, WithPort(h, lease, port), lease.zone)
    ensures InLoop(start, Last(WithPort(h, lease, port)), lease.(ports := lease.ports + [port]))
  {
    var rule, longer := Rule(lease.zone, port), lease.(ports := lease.ports + [port]);
    var added := AfterAdd(Last(h), rule);
    assert rule in PortRules(lease.zone, WFD_PORTS);
    AddPoint(start, Last(h), lease, rule);
    NextInLoop(start, Last(h), lease, port);
    LoopPoint(start, AfterRemember(added, longer), longer);
    TwoMorePoints(start, h, added, AfterRemember(added, longer), lease.zone);
  }

  /** What opening the remaining ports guarantees, at every crash point and at its end. */
  ghost predicate OpensWell(start: World, h: History, zone: string, longer: History, r: Opening, rollback: Bus) {
    && OpeningPoints(start, h, longer, zone)
    && (r.Opened? ==> r.lease.zone == zone && InLoop(start, Last(longer), r.lease))
    && (r.Refused? && rollback == WORKING ==> Last(longer).rules == start.rules && Last(longer).ours == start.ours)
  }

  lemma {:induction false} OpenAllPoints(start: World, h: History, lease: Lease, ports: seq<Port>, bus: Bus, rollback: Bus)
    requires Sane(start) && InLoop(start, Last(h), lease) && CleanZone(lease.zone)
    requires (forall p | p in ports :: p in WFD_PORTS) && |lease.ports| + |ports| <= 2
    ensures var (longer, r) := OpenAll(h, lease, ports, bus, rollback);
            OpensWell(start, h, lease.zone, longer, r, rollback)
    decreases |ports|
  {
    if ports != [] {
      var rule := Rule(lease.zone, ports[0]);
      if rule in bus.queryFails {
        RollbackPoints(start, h, lease, rollback);
      } else if rule in Last(h).rules {
        OpenAllPoints(start, h, lease, ports[1..], bus, rollback);
      } else if rule in bus.addFails {
        RollbackPoints(start, h, lease, rollback);
      } else {
        PortPoints(start, h, lease, ports[0]);
        var middle := WithPort(h, lease, ports[0]);
        OpenAllPoints(start, middle, lease.(ports := lease.ports + [ports[0]]), ports[1..], bus, rollback);
        OpeningTwice(start, h, middle, OpenAll(h, lease, ports, bus, rollback).0, lease.zone);
      }
    }
  }

  lemma StartsInLoop(w: World, zone: string)
    requires CleanZone(zone)
    ensures InLoop(w, w, Lease(zone, []))
  {
    LeaseRoundTrip(Lease(zone, []));
  }

  // ---------------------------------------------------------- main results

  /** A port that cannot be served: its query fails, or it was closed and does not open. */
  predicate Unserved(w: World, rule: Rule, bus: Bus) {
    rule in bus.queryFails || (rule !in w.rules && rule in bus.addFails)
  }

  /** Opening a port settles that port and no other. */
  lemma WithPortRules(h: History, lease: Lease, port: Port)
    ensures Last(WithPort(h, lease, port)).rules == Last(h).rules + {Rule(lease.zone, port)}
  {
  }

  ghost predicate SomeUnserved(w: World, zone: string, ports: seq<Port>, bus: Bus) {
    exists p :: p in ports && Unserved(w, Rule(zone, p), bus)
  }

  lemma SomeUnservedCons(w: World, zone: string, ports: seq<Port>, bus: Bus)
    requires ports != []
    ensures SomeUnserved(w, zone, ports, bus) <==> Unserved(w, Rule(zone, ports[0]), bus) || SomeUnserved(w, zone, ports[1..], bus)
  {
    assert forall p :: p in ports <==> p == ports[0] || p in ports[1..];
  }

  /** Distinct ports: opening the first changes nothing for the rest. */
  lemma OthersServedAlike(w: World, w': World, zone: string, port: Port, rest: seq<Port>, bus: Bus)
    requires port !in rest && w'.rules == w.rules + {Rule(zone, port)}
    ensures SomeUnserved(w', zone, rest, bus) <==> SomeUnserved(w, zone, rest, bus)
  {
    assert forall p | p in rest :: Unserved(w', Rule(zone, p), bus) <==> Unserved(w, Rule(zone, p), bus);
  }

  /** The loop refuses exactly when one of its ports cannot be served. */
  lemma {:induction false} OpenAllRefuses(h: History, lease: Lease, ports: seq<Port>, bus: Bus, rollback: Bus)
    requires forall i, j | 0 <= i < j < |ports| :: ports[i] != ports[j]
    ensures OpenAll(h, lease, ports, bus, rollback).1.Refused? <==> SomeUnserved(Last(h), lease.zone, ports, bus)
    decreases |ports|
  {
    if ports != [] {
      SomeUnservedCons(Last(h), lease.zone, ports, bus);
      if Rule(lease.zone, ports[0]) in Last(h).rules {
        OpenAllRefuses(h, lease, ports[1..], bus, rollback);
      } else {
        var next := WithPort(h, lease, ports[0]);
        WithPortRules(h, lease, ports[0]);
        OthersServedAlike(Last(h), Last(next), lease.zone, ports[0], ports[1..], bus);
        OpenAllRefuses(next, lease.(ports := lease.ports + [ports[0]]), ports[1..], bus, rollback);
      }
    }
  }

  /** Otherwise it leaves all its ports open, and leases those it found closed. */
  lemma {:induction false} OpenAllOpens(h: History, lease: Lease, ports: seq<Port>, bus: Bus, rollback: Bus)
    requires forall i, j | 0 <= i < j < |ports| :: ports[i] != ports[j]
    requires OpenAll(h, lease, ports, bus, rollback).1.Opened?
    ensures var (longer, r) := OpenAll(h, lease, ports, bus, rollback);
            && Last(longer).rules == Last(h).rules + PortRules(lease.zone, ports)
            && r.lease.zone == lease.zone
            && forall p :: p in r.lease.ports <==> p in lease.ports || (p in ports && Rule(lease.zone, p) !in Last(h).rules)
    decreases |ports|
  {
    if ports != [] {
      var port, rest := ports[0], ports[1..];
      PortRulesCons(lease.zone, ports);
      assert forall p :: p in ports <==> p == port || p in rest;
      if Rule(lease.zone, port) in Last(h).rules {
        OpenAllOpens(h, lease, rest, bus, rollback);
      } else {
        WithPortRules(h, lease, port);
        OpenAllOpens(WithPort(h, lease, port), lease.(ports := lease.ports + [port]), rest, bus, rollback);
      }
    }
  }

  /**
   * An opened session can be reached: every WFD port of the zone is open, and
   * the lease names exactly those that were not before.  A session in a zone
   * is refused exactly when some port cannot be served, never with D-Bus
   * working; without a zone it opens nothing and touches nothing more.
   */
  lemma OpenedPortsOpen(h: History, zone: ZoneAnswer, stale: Bus, bus: Bus, rollback: Bus)
    ensures var start := Last(StaleReleased(h, stale));
            var (longer, r) := Ensured(h, true, zone, stale, bus, rollback);
            match zone
            case Absent => r == Opened(NOOP) && longer == StaleReleased(h, stale)
            case ZoneFails => r == Refused && longer == StaleReleased(h, stale)
            case Zone(name) =>
              && (r.Refused? <==> SomeUnserved(start, name, WFD_PORTS, bus))
              && (bus == WORKING ==> r.Opened?)
              && (r.Opened? ==>
                    && r.lease.zone == name && (forall p | p in WFD_PORTS :: Rule(name, p) in Last(longer).rules)
                    && forall p :: p in r.lease.ports <==> p in WFD_PORTS && Rule(name, p) !in start.rules)
    ensures Ensured(h, false, zone, stale, bus, rollback) == (h, Opened(NOOP))
  {
    if zone.Zone? {
      var base := StaleReleased(h, stale);
      OpenAllRefuses(base, Lease(zone.name, []), WFD_PORTS, bus, rollback);
      assert WORKING.queryFails == {} && WORKING.addFails == {};
      if Ensured(h, true, zone, stale, bus, rollback).1.Opened? {
        OpenAllOpens(base, Lease(zone.name, []), WFD_PORTS, bus, rollback);
      }
    }
  }

  /**
   * Crash safety of one session: at every crash point after the stale rules
   * were dealt with, the user's own rules are untouched and at most one rule
   * opened since is missing from the journal; a lease names only rules that
   * were closed before, and a refused session with a working D-Bus for its
   * rollback leaves the rules as they were.
   */
  lemma EnsureSafe(h: History, zone: string, stale: Bus, bus: Bus, rollback: Bus)
    requires Sane(Last(h)) && CleanZone(zone)
    ensures var base := StaleReleased(h, stale);
            var (longer, r) := Ensured(h, true, Zone(zone), stale, bus, rollback);
            && Sane(Last(base)) && OpensWell(Last(base), base, zone, longer, r, rollback)
            && (r.Opened? ==> RulesOf(r.lease) !! Last(base).rules)
  {
    StaleSane(h, stale);
    var base := StaleReleased(h, stale);
    StartsInLoop(Last(base), zone);
    OpenAllPoints(Last(base), base, Lease(zone, []), WFD_PORTS, bus, rollback);
  }

  lemma StaleSane(h: History, stale: Bus)
    requires Sane(Last(h))
    ensures Sane(Last(StaleReleased(h, stale)))
  {
    if Last(h).journal.Some? && FromFile(Last(h).journal.value).Some? {
      ReleasePoints(h, FromFile(Last(h).journal.value).value, stale);
    }
  }

  /** A record of a zone without ports: there is nothing to close, and it is left alone. */
  predicate IdleRecord(contents: string) {
    FromFile(contents).Some? && FromFile(contents).value.ports == []
  }

  /** With D-Bus working, what is on record is closed at the next start, and only that; the record goes. */
  lemma StaleWorks(h: History)
    requires Sane(Last(h))
    ensures var w := Last(StaleReleased(h, WORKING));
            && w.rules == Last(h).rules - JournalRules(Last(h).journal)
            && w.ours == Untracked(Last(h))
            && JournalRules(w.journal) == {} && (w.journal.Some? ==> IdleRecord(w.journal.value))
  {
    if Last(h).journal.Some? && FromFile(Last(h).journal.value).Some? {
      ReleaseWorks(h, FromFile(Last(h).journal.value).value);
    }
  }

  /**
   * A session that dies at any crash point after its stale release leaves the
   * next start, with D-Bus working, at most one rule of ours more than was
   * open already; and when no rule of the user's was on record, the user's
   * rules are exactly as they were.
   */
  lemma CrashRecovered(h: History, zone: string, stale: Bus, bus: Bus, rollback: Bus, crash: nat)
    requires Sane(Last(h)) && CleanZone(zone)
    requires |StaleReleased(h, stale)| <= crash < |Ensured(h, true, Zone(zone), stale, bus, rollback).0|
    ensures var start := Last(StaleReleased(h, stale));
            var w := Last(StaleReleased([Ensured(h, true, Zone(zone), stale, bus, rollback).0[crash]], WORKING));
            && (exists r: Rule :: w.ours <= start.ours + {r})
            && (JournalRules(start.journal) !! start.rules - start.ours ==> w.rules - w.ours == start.rules - start.ours)
  {
    EnsureSafe(h, zone, stale, bus, rollback);
    var start := Last(StaleReleased(h, stale));
    var w := Ensured(h, true, Zone(zone), stale, bus, rollback).0[crash];
    assert OpenPoint(start, w, zone);
    var r: Rule :| Untracked(w) - start.ours <= {r};
    StaleWorks([w]);
    assert Untracked(w) <= start.ours + {r};
    if JournalRules(start.journal) !! start.rules - start.ours {
      assert JournalRules(w.journal) !! w.rules - w.ours;
    }
  }

  /**
   * Conservation: a session that opened its ports and then releases them with
   * D-Bus working restores the exact rules and leaves no record.
   */
  lemma SessionRestores(h: History, zone: string, stale: Bus, bus: Bus, rollback: Bus)
    requires Sane(Last(h)) && CleanZone(zone)
    requires Ensured(h, true, Zone(zone), stale, bus, rollback).1.Opened?
    ensures var start := Last(StaleReleased(h, stale));
            var (longer, r) := Ensured(h, true, Zone(zone), stale, bus, rollback);
            var end := Last(Released(longer, r.lease, WORKING));
            && end.rules == start.rules && end.ours == start.ours
            && end.journal == if r.lease.ports == [] then start.journal else None
  {
    EnsureSafe(h, zone, stale, bus, rollback);
    var start := Last(StaleReleased(h, stale));
    var (longer, r) := Ensured(h, true, Zone(zone), stale, bus, rollback);
    LoopPoint(start, Last(longer), r.lease);
    ReleaseWorks(longer, r.lease);
    if r.lease.ports == [] {
      assert RulesOf(r.lease) == {};
    }
  }

  // -------------------------------------------------------------- many lives

  /** One run of the program: a session opened, and closed if it was opened, cut short after `crash` effects. */
  datatype Life = Life(connected: bool, zone: ZoneAnswer, stale: Bus, bus: Bus, rollback: Bus, closing: Bus, crash: nat)

  predicate CleanLife(life: Life) {
    life.zone.Zone? ==> CleanZone(life.zone.name)
  }

  /** Everything a life does when nothing cuts it short. */
  function Lived(w: World, life: Life): History {
    var (h, r) := Ensured([w], life.connected, life.zone, life.stale, life.bus, life.rollback);
    if r.Opened? then Released(h, r.lease, life.closing) else h
  }

  function AfterLife(w: World, life: Life): World {
    var h := Lived(w, life);
    if life.crash < |h| then h[life.crash] else Last(h)
  }

  function AfterLives(w: World, lives: seq<Life>): World {
    if lives == [] then w else AfterLife(AfterLives(w, lives[..|lives| - 1]), lives[|lives| - 1])
  }

  /** No rule on record is open without being ours. */
  ghost predicate RecordIsOurs(w: World) {
    Sane(w) && JournalRules(w.journal) * (w.rules - w.ours) == {}
  }

  /** What any point of a life leaves: the user's rules, and of ours at most the two of one zone more. */
  ghost predicate LifePoint(w: World, w': World, zone: string) {
    && RecordIsOurs(w') && w'.rules - w'.ours == w.rules - w.ours
    && w'.ours <= w.ours + PortRules(zone, WFD_PORTS)
  }

  /** At most one rule went off the record. */
  ghost predicate OneMoreOff(w: World, w': World) {
    exists r: Rule :: Untracked(w') <= Untracked(w) + {r}
  }

  function ZoneOf(life: Life): string {
    if life.zone.Zone? then life.zone.name else ""
  }

  lemma ReleasePointInLife(w: World, w': World, lease: Lease, zone: string)
    requires RecordIsOurs(w) && JournalRules(w.journal) == RulesOf(lease) && ReleasePoint(w, w', lease)
    ensures LifePoint(w, w', zone) && Untracked(w') <= Untracked(w)
  {
    forall x | x in w.rules - w'.rules
      ensures x in w.ours
    {
      assert x in JournalRules(w.journal) && x !in JournalRules(w.journal) * (w.rules - w.ours);
    }
  }

  lemma StalePoint(w: World, stale: Bus, i: nat, zone: string)
    requires RecordIsOurs(w) && i < |StaleReleased([w], stale)|
    ensures LifePoint(w, StaleReleased([w], stale)[i], zone)
    ensures Untracked(StaleReleased([w], stale)[i]) <= Untracked(w)
  {
    if i == 0 {
      StaleExtends([w], stale);
      assert StaleReleased([w], stale)[i] == [w][0];
    } else if w.journal.Some? && FromFile(w.journal.value).Some? {
      var lease := FromFile(w.journal.value).value;
      ReleasePoints([w], lease, stale);
      ReleasePointInLife(w, StaleReleased([w], stale)[i], lease, zone);
    }
  }

  lemma StaleExtends(h: History, stale: Bus)
    requires Sane(Last(h))
    ensures h <= StaleReleased(h, stale)
  {
    if Last(h).journal.Some? && FromFile(Last(h).journal.value).Some? {
      ReleasePoints(h, FromFile(Last(h).journal.value).value, stale);
    }
  }

  /** A point of opening, seen from the start of the life. */
  lemma OpenPointInLife(w: World, start: World, w': World, zone: string)
    requires LifePoint(w, start, zone) && OpenPoint(start, w', zone)
    ensures LifePoint(w, w', zone)
    ensures start.ours <= Untracked(w) ==> OneMoreOff(w, w')
  {
    var r: Rule :| Untracked(w') - start.ours <= {r};
    if start.ours <= Untracked(w) {
      assert Untracked(w') <= Untracked(w) + {r};
    }
  }

  /** From the stale release on, every point of a life is a point of opening. */
  lemma LivedOpens(w: World, life: Life)
    requires RecordIsOurs(w) && CleanLife(life) && life.connected && life.zone.Zone?
    ensures var base := StaleReleased([w], life.stale);
            OpeningPoints(Last(base), base, Lived(w, life), life.zone.name)
  {
    var base, zone := StaleReleased([w], life.stale), life.zone.name;
    EnsureSafe([w], zone, life.stale, life.bus, life.rollback);
    var (h, r) := Ensured([w], true, life.zone, life.stale, life.bus, life.rollback);
    if r.Opened? {
      RollbackPoints(Last(base), h, r.lease, life.closing);
      OpeningTwice(Last(base), base, h, Released(h, r.lease, life.closing), zone);
    }
  }

  /** A point from the stale release on. */
  lemma OpenedInLife(w: World, life: Life, i: nat)
    requires RecordIsOurs(w) && CleanLife(life) && life.connected
    requires |StaleReleased([w], life.stale)| <= i < |Lived(w, life)|
    ensures LifePoint(w, Lived(w, life)[i], ZoneOf(life))
    ensures life.stale == WORKING ==> OneMoreOff(w, Lived(w, life)[i])
  {
    var base := StaleReleased([w], life.stale);
    StalePoint(w, life.stale, |base| - 1, ZoneOf(life));
    assert life.zone.Zone?;
    LivedOpens(w, life);
    OpenPointInLife(w, Last(base), Lived(w, life)[i], ZoneOf(life));
    StaleWorks([w]);
  }

  /** A point before the stale release is over. */
  lemma StaleInLife(w: World, life: Life, i: nat)
    requires RecordIsOurs(w) && CleanLife(life) && life.connected
    requires i < |StaleReleased([w], life.stale)| && i < |Lived(w, life)|
    ensures LifePoint(w, Lived(w, life)[i], ZoneOf(life)) && OneMoreOff(w, Lived(w, life)[i])
  {
    StalePoint(w, life.stale, i, ZoneOf(life));
    if life.zone.Zone? {
      LivedOpens(w, life);
    }
    assert Lived(w, life)[i] == StaleReleased([w], life.stale)[i];
    assert Untracked(Lived(w, life)[i]) <= Untracked(w) + {Rule("", RTSP)};
  }

  lemma LifeKeeps(w: World, life: Life)
    requires RecordIsOurs(w) && CleanLife(life)
    ensures LifePoint(w, AfterLife(w, life), ZoneOf(life))
    ensures life.stale == WORKING ==> OneMoreOff(w, AfterLife(w, life))
  {
    var h := Lived(w, life);
    var i := if life.crash < |h| then life.crash else |h| - 1;
    if !life.connected {
      assert h == [w] && Untracked(w) <= Untracked(w) + {Rule("", RTSP)};
    } else if i < |StaleReleased([w], life.stale)| {
      StaleInLife(w, life, i);
    } else {
      OpenedInLife(w, life, i);
    }
  }

  lemma TwoPortRules(zone: string)
    ensures |PortRules(zone, WFD_PORTS)| == 2
  {
    assert PortRules(zone, WFD_PORTS) == {Rule(zone, RTSP), Rule(zone, RTP)} by {
      assert RTSP in WFD_PORTS && RTP in WFD_PORTS;
    }
  }

  lemma UnionSize<T>(a: set<T>, b: set<T>)
    ensures |a + b| <= |a| + |b|
  {
  }

  /**
   * Over any number of lives, each cut short at any effect or none and D-Bus
   * failing at will: the user's rules never change, and each life leaves at
   * most two more rules of ours open.  Where D-Bus works for the stale
   * releases, each life leaves at most one rule of ours off the record.
   */
  lemma {:induction false} LivesSafe(w: World, lives: seq<Life>)
    requires RecordIsOurs(w) && forall l | l in lives :: CleanLife(l)
    ensures var w' := AfterLives(w, lives);
            && RecordIsOurs(w') && w'.rules - w'.ours == w.rules - w.ours
            && |w'.ours| <= |w.ours| + 2 * |lives|
            && ((forall l | l in lives :: l.stale == WORKING) ==> |Untracked(w')| <= |Untracked(w)| + |lives|)
  {
    if lives != [] {
      var before, life := AfterLives(w, lives[..|lives| - 1]), lives[|lives| - 1];
      LivesSafe(w, lives[..|lives| - 1]);
      LifeKeeps(before, life);
      var after := AfterLife(before, life);
      var more := PortRules(ZoneOf(life), WFD_PORTS);
      TwoPortRules(ZoneOf(life));
      UnionSize(before.ours, more);
      SubsetSize(after.ours, before.ours + more);
      if forall l | l in lives :: l.stale == WORKING {
        var r: Rule :| Untracked(after) <= Untracked(before) + {r};
        SubsetSize(Untracked(after), Untracked(before) + {r});
      }
    }
  }

  // ------------------------------------------------- the overwritten record

  /** Walking the ports in order, one is found closed and opens before any call fails. */
  predicate OpensSome(w: World, zone: string, ports: seq<Port>, bus: Bus) {
    ports != [] &&
    var rule := Rule(zone, ports[0]);
    rule !in bus.queryFails && if rule in w.rules then OpensSome(w, zone, ports[1..], bus) else rule !in bus.addFails
  }

  /** Once a rule of this call is on record, all that was ours before is off it. */
  lemma LoopForgets(start: World, w: World, lease: Lease)
    requires Sane(start) && InLoop(start, w, lease) && lease.ports != []
    ensures Untracked(w) == start.ours
  {
  }

  lemma ReleaseForgets(start: World, w: World, w': World, lease: Lease)
    requires Sane(start) && InLoop(start, w, lease) && lease.ports != [] && ReleasePoint(w, w', lease)
    ensures Untracked(w') == start.ours
  {
  }

  ghost predicate Forgets(start: World, h: History, longer: History) {
    && h <= longer && Untracked(Last(longer)) == start.ours
    && forall i | |h| <= i < |longer| :: start.ours <= Untracked(longer[i])
  }

  lemma RollbackForgets(start: World, h: History, lease: Lease, rollback: Bus)
    requires Sane(start) && InLoop(start, Last(h), lease) && lease.ports != []
    ensures Forgets(start, h, Released(h, lease, rollback))
  {
    var longer := Released(h, lease, rollback);
    ReleasePoints(h, lease, rollback);
    ReleaseForgets(start, Last(h), Last(longer), lease);
    forall i | |h| <= i < |longer|
      ensures start.ours <= Untracked(longer[i])
    {
      ReleaseForgets(start, Last(h), longer[i], lease);
    }
  }

  lemma PortForgets(start: World, h: History, lease: Lease, port: Port)
    requires Sane(start) && InLoop(start, Last(h), lease) && CleanZone(lease.zone) && lease.ports != []
    requires port in WFD_PORTS && |lease.ports| < 2 && Rule(lease.zone, port) !in Last(h).rules
    ensures Forgets(start, h, WithPort(h, lease, port))
  {
    LoopForgets(start, Last(h), lease);
    PortPoints(start, h, lease, port);
    LoopForgets(start, Last(WithPort(h, lease, port)), lease.(ports := lease.ports + [port]));
  }

  lemma ForgetsTwice(start: World, h: History, middle: History, longer: History)
    requires Forgets(start, h, middle) && Forgets(start, middle, longer)
    ensures Forgets(start, h, longer)
  {
  }

  lemma {:induction false} OpenAllForgets(start: World, h: History, lease: Lease, ports: seq<Port>, bus: Bus, rollback: Bus)
    requires Sane(start) && InLoop(start, Last(h), lease) && CleanZone(lease.zone) && lease.ports != []
    requires (forall p | p in ports :: p in WFD_PORTS) && |lease.ports| + |ports| <= 2
    ensures Forgets(start, h, OpenAll(h, lease, ports, bus, rollback).0)
    decreases |ports|
  {
    if ports == [] {
      LoopForgets(start, Last(h), lease);
    } else {
      var rule := Rule(lease.zone, ports[0]);
      if rule in bus.queryFails || (rule !in Last(h).rules && rule in bus.addFails) {
        RollbackForgets(start, h, lease, rollback);
      } else if rule in Last(h).rules {
        OpenAllForgets(start, h, lease, ports[1..], bus, rollback);
      } else {
        var middle := WithPort(h, lease, ports[0]);
        PortPoints(start, h, lease, ports[0]);
        PortForgets(start, h, lease, ports[0]);
        OpenAllForgets(start, middle, lease.(ports := lease.ports + [ports[0]]), ports[1..], bus, rollback);
        ForgetsTwice(start, h, middle, OpenAll(h, lease, ports, bus, rollback).0);
      }
    }
  }

  /** A call that opens a port forgets what was ours before as soon as the port is on record; any other call changes nothing. */
  lemma {:induction false} OpeningForgets(h: History, zone: string, ports: seq<Port>, bus: Bus, rollback: Bus)
    requires Sane(Last(h)) && CleanZone(zone)
    requires (forall p | p in ports :: p in WFD_PORTS) && |ports| <= 2
    ensures var longer := OpenAll(h, Lease(zone, []), ports, bus, rollback).0;
            if OpensSome(Last(h), zone, ports, bus)
            then |h| < |longer| && longer[|h|].journal == Last(h).journal && Forgets(Last(h), h + [longer[|h|]], longer)
            else longer == h
    decreases |ports|
  {
    if ports != [] && Rule(zone, ports[0]) !in bus.queryFails {
      var none, rule := Lease(zone, []), Rule(zone, ports[0]);
      if rule in Last(h).rules {
        OpeningForgets(h, zone, ports[1..], bus, rollback);
      } else if rule !in bus.addFails {
        var middle, lease := WithPort(h, none, ports[0]), none.(ports := none.ports + [ports[0]]);
        StartsInLoop(Last(h), zone);
        PortPoints(Last(h), h, none, ports[0]);
        LoopForgets(Last(h), Last(middle), lease);
        OpenAllForgets(Last(h), middle, lease, ports[1..], bus, rollback);
      }
    }
  }

  /** Up to and through the stale release, nothing of ours goes off the record. */
  lemma StaleTracked(h: History, stale: Bus)
    requires Sane(Last(h)) && Untracked(Last(h)) == {}
    ensures var base := StaleReleased(h, stale);
            h <= base && forall i | |h| - 1 <= i < |base| :: Untracked(base[i]) == {}
  {
    var base := StaleReleased(h, stale);
    StaleExtends(h, stale);
    forall i | |h| - 1 <= i < |base|
      ensures Untracked(base[i]) == {}
    {
      if i == |h| - 1 {
        assert base[i] == Last(h);
      } else if Last(h).journal.Some? && FromFile(Last(h).journal.value).Some? {
        ReleasePoints(h, FromFile(Last(h).journal.value).value, stale);
        assert ReleasePoint(Last(h), base[i], FromFile(Last(h).journal.value).value);
      }
    }
  }

  /**
   * When the only record of an open rule is lost.  Releasing never loses it, but
   * opening overwrites it, whether the session is opened or refused: if all of
   * ours was on record as the call began, what the stale release left open
   * of it stays on record exactly up to the crash point at which this call's
   * first rule has been added and not yet recorded.  So all of ours is on record
   * in the end exactly when nothing was left open or no port was opened.
   */
  lemma RecordOverwritten(h: History, zone: string, stale: Bus, bus: Bus, rollback: Bus)
    requires Sane(Last(h)) && CleanZone(zone) && Untracked(Last(h)) == {}
    ensures var base := StaleReleased(h, stale);
            var left, longer := Last(base).ours, Ensured(h, true, Zone(zone), stale, bus, rollback).0;
            && h <= base <= longer
            && (Untracked(Last(longer)) == {} <==> left == {} || !OpensSome(Last(base), zone, WFD_PORTS, bus))
            && (forall i | |h| - 1 <= i < |base| :: Untracked(longer[i]) == {})
            && (forall i | |base| <= i < |longer| :: Untracked(longer[i]) !! left <==> left == {} || i == |base|)
  {
    StaleTracked(h, stale);
    StaleSane(h, stale);
    var base := StaleReleased(h, stale);
    OpeningForgets(base, zone, WFD_PORTS, bus, rollback);
    var longer := Ensured(h, true, Zone(zone), stale, bus, rollback).0;
    assert Untracked(Last(base)) == {};
    if |base| < |longer| {
      assert Untracked(longer[|base|]) !! Last(base).ours;
    }
    forall i | |base| <= i < |longer|
      ensures Untracked(longer[i]) !! Last(base).ours <==> Last(base).ours == {} || i == |base|
    {
      if i > |base| {
        assert Last(base).ours <= Untracked(longer[i]);
      }
    }
  }

  const BOTH := [RTSP, RTP]

  /** firewalld refuses to close the first of two recorded rules: the second goes, the record stays. */
  lemma HalfClosed(zone: string)
    requires CleanZone(zone)
    ensures var (first, second) := (Rule(zone, RTSP), Rule(zone, RTP));
            var journal := Some(ToFile(Lease(zone, BOTH)));
            var h := [World({first, second}, journal, {first, second})];
            Last(StaleReleased(h, Bus(true, {}, {}, {first}))) == World({first}, journal, {first})
  {
    LeaseRoundTrip(Lease(zone, BOTH));
    var (first, second) := (Rule(zone, RTSP), Rule(zone, RTP));
    var bus := Bus(true, {}, {}, {first});
    var w := World({first, second}, Some(ToFile(Lease(zone, BOTH))), {first, second});
    assert BOTH[1..] == [RTP] && [RTP][1..] == [];
    assert CloseFails(w, first, bus) && AfterClose(w, first, bus) == w;
    var after := AfterClose(w, second, bus);
    assert after == World({first}, w.journal, {first});
    var h: History := [w];
    assert CloseAll(h + [w], zone, [RTP], bus) == h + [w] + [after];
    assert CloseAll(h, zone, BOTH, bus) == h + [w] + [after];
    assert !AllClose(w, zone, BOTH, bus);
  }

  /** Opening with only the first port open opens just the second. */
  lemma OpensSecond(h: History, zone: string)
    requires Rule(zone, RTSP) in Last(h).rules && Rule(zone, RTP) !in Last(h).rules
    ensures OpenAll(h, Lease(zone, []), WFD_PORTS, WORKING, WORKING).1 == Opened(Lease(zone, [RTP]))
  {
    var none := Lease(zone, []);
    assert WFD_PORTS[1..] == [RTP] && [RTP][1..] == [];
    assert none.(ports := none.ports + [RTP]) == Lease(zone, [RTP]);
    assert OpenAll(WithPort(h, none, RTP), Lease(zone, [RTP]), [], WORKING, WORKING).1 == Opened(Lease(zone, [RTP]));
    assert OpenAll(h, none, [RTP], WORKING, WORKING).1 == Opened(Lease(zone, [RTP]));
  }

  /**
   * The promise broken: a run died with both ports open and recorded; at the
   * next start firewalld refuses to close the first, and the new session,
   * finding it open, records only the second.
   */
  lemma RecordLost(zone: string)
    requires CleanZone(zone)
    ensures var (first, second) := (Rule(zone, RTSP), Rule(zone, RTP));
            var h := [World({first, second}, Some(ToFile(Lease(zone, BOTH))), {first, second})];
            var (longer, r) := Ensured(h, true, Zone(zone), Bus(true, {}, {}, {first}), WORKING, WORKING);
            && Untracked(Last(h)) == {} && r == Opened(Lease(zone, [RTP]))
            && first in Last(longer).rules && Untracked(Last(longer)) == {first}
  {
    LeaseRoundTrip(Lease(zone, BOTH));
    assert RulesOf(Lease(zone, BOTH)) == {Rule(zone, RTSP), Rule(zone, RTP)} by {
      assert RTSP in BOTH && RTP in BOTH;
    }
    HalfClosed(zone);
    var (first, second) := (Rule(zone, RTSP), Rule(zone, RTP));
    var h: History := [World({first, second}, Some(ToFile(Lease(zone, BOTH))), {first, second})];
    var stale := Bus(true, {}, {}, {first});
    OpensSecond(StaleReleased(h, stale), zone);
    EnsureSafe(h, zone, stale, WORKING, WORKING);
    assert RulesOf(Lease(zone, [RTP])) == {second} by {
      assert RTP in [RTP];
    }
  }
}
