/**
 * Discovery of renderers: the registry kept over repeated sweeps, and the log
 * of events from which a listener rebuilds it.
 */
module Ssdp {
  import opened Common

  const MAX_RECEIVERS := 256
  const MISSES_BEFORE_REMOVAL := 2

  type Usn = string

  datatype Announcement = Announcement(usn: Usn, location: string)

  /** A listed renderer and the sweeps it has missed in a row. */
  datatype Entry = Entry(location: string, misses: nat)

  type Known = map<Usn, Entry>

  datatype Event = Added(usn: Usn) | Updated(usn: Usn) | Removed(usn: Usn) | Ready | Unavailable

  // --------------------------------------------------------------- searching

  predicate Heard(found: seq<Announcement>, usn: Usn) {
    exists i :: 0 <= i < |found| && found[i].usn == usn
  }

  /** A renderer is heard when any of the replies is its own. */
  lemma HeardAmong(found: seq<Announcement>, usn: Usn)
    ensures Heard(found, usn) <==> exists a :: a in found && a.usn == usn
  {
    if a :| a in found && a.usn == usn {
      var i :| 0 <= i < |found| && found[i] == a;
    }
  }

  /** `a` is the first of its renderer's replies, among the first `n`. */
  ghost predicate FirstOf(replies: seq<Announcement>, n: nat, a: Announcement)
    requires n <= |replies|
  {
    exists k :: 0 <= k < n && replies[k] == a && !Heard(replies[..k], a.usn)
  }

  /** The first reply of each renderer, in order of arrival, until the bound. */
  method FirstReplies(replies: seq<Announcement>) returns (found: seq<Announcement>)
    ensures |found| <= MAX_RECEIVERS
    ensures forall i, j | 0 <= i < j < |found| :: found[i].usn != found[j].usn
    ensures forall i | 0 <= i < |found| :: FirstOf(replies, |replies|, found[i])
    ensures |found| < MAX_RECEIVERS ==> forall k | 0 <= k < |replies| :: Heard(found, replies[k].usn)
  {
    found := [];
    for n := 0 to |replies|
      invariant |found| <= MAX_RECEIVERS
      invariant forall i, j | 0 <= i < j < |found| :: found[i].usn != found[j].usn
      invariant forall i | 0 <= i < |found| :: FirstOf(replies, n, found[i])
      invariant forall i | 0 <= i < |found| :: Heard(replies[..n], found[i].usn)
      invariant |found| < MAX_RECEIVERS ==> forall k | 0 <= k < n :: Heard(found, replies[k].usn)
    {
      ghost var before := found;
      if |found| < MAX_RECEIVERS && !Heard(found, replies[n].usn) {
        NewReply(replies, n, found);
        found := found + [replies[n]];
        assert found[|before|] == replies[n];
      }
      forall i | 0 <= i < |before|
        ensures FirstOf(replies, n + 1, before[i]) && Heard(replies[..n + 1], before[i].usn)
      {
        assert FirstOf(replies, n, before[i]);
        var k :| 0 <= k < n && replies[k] == before[i] && !Heard(replies[..k], before[i].usn);
        assert replies[..n + 1][k] == before[i];
      }
      assert replies[..n + 1][n] == replies[n];
      forall k | 0 <= k <= n && |found| < MAX_RECEIVERS
        ensures Heard(found, replies[k].usn)
      {
        if k < n {
          var i :| 0 <= i < |before| && before[i].usn == replies[k].usn;
          assert found[i] == before[i];
        }
      }
    }
  }

  lemma NewReply(replies: seq<Announcement>, n: nat, found: seq<Announcement>)
    requires n < |replies| && !Heard(found, replies[n].usn)
    requires forall k | 0 <= k < n :: Heard(found, replies[k].usn)
    ensures FirstOf(replies, n + 1, replies[n])
  {
  }

  // ---------------------------------------------------------------- sweeping

  /** A description that came back, with where the renderer is. */
  datatype Description = Description(usn: Usn, location: string, ok: bool)

  predicate Lists(known: Known, d: Description) {
    d.ok && (d.usn in known || |known| < MAX_RECEIVERS)
  }

  function AfterDescription(known: Known, d: Description): Known {
    if Lists(known, d) then known[d.usn := Entry(d.location, 0)] else known
  }

  function Described(known: Known, ds: seq<Description>): Known
    decreases |ds|
  {
    if ds == [] then known else Described(AfterDescription(known, ds[0]), ds[1..])
  }

  function Aged(known: Known, found: seq<Announcement>): Known {
    map u | u in known :: known[u].(misses := if Heard(found, u) then 0 else known[u].misses + 1)
  }

  predicate Gone(e: Entry) {
    e.misses >= MISSES_BEFORE_REMOVAL
  }

  function Kept(known: Known): Known {
    map u | u in known && !Gone(known[u]) :: known[u]
  }

  /** The renderers silent too long. */
  function Silent(known: Known): set<Usn> {
    set u | u in known && Gone(known[u])
  }

  lemma MinusTwice(known: Known, a: set<Usn>, u: Usn)
    ensures known - a - {u} == known - (a + {u})
  {
  }

  lemma KeptOrSilent(known: Known)
    ensures known - Silent(known) == Kept(known)
  {
  }

  /**
   * What a sweep brings: nothing when the search failed, which it does before
   * any reply; else the replies, and the descriptions fetched meanwhile.
   */
  datatype Sweep = Failed | Replied(found: seq<Announcement>, descriptions: seq<Description>)

  function AfterSweep(known: Known, s: Sweep): Known {
    match s
    case Failed => known
    case Replied(found, descriptions) => Kept(Aged(Described(known, descriptions), found))
  }

  // --------------------------------------------------------------------- log

  function KeysAfter(keys: set<Usn>, e: Event): set<Usn> {
    match e
    case Added(u) => keys + {u}
    case Removed(u) => keys - {u}
    case _ => keys
  }

  /** The listener's registry after a log. */
  function Replay(log: seq<Event>): set<Usn> {
    if log == [] then {}
    else
      KeysAfter(Replay(log[..|log| - 1]), log[|log| - 1])
  }

  /** The event makes sense to a listener that lists `keys`. */
  predicate Fits(e: Event, keys: set<Usn>) {
    match e
    case Added(u) => u !in keys
    case Updated(u) => u in keys
    case Removed(u) => u in keys
    case _ => true
  }

  ghost predicate Sensible(log: seq<Event>) {
    forall i | 0 <= i < |log| :: Fits(log[i], Replay(log[..i]))
  }

  lemma LogMore(log: seq<Event>, e: Event)
    requires Sensible(log) && Fits(e, Replay(log))
    ensures Sensible(log + [e])
    ensures Replay(log + [e]) == KeysAfter(Replay(log), e)
  {
    var longer := log + [e];
    assert longer[..|log|] == log;
    forall i | 0 <= i < |longer|
      ensures Fits(longer[i], Replay(longer[..i]))
    {
      if i < |log| {
        assert longer[i] == log[i] && longer[..i] == log[..i];
      }
    }
  }

  /** The events remove these renderers and do nothing else, each once, in some order. */
  predicate EachRemoved(events: seq<Event>, gone: set<Usn>) {
    if events == [] then gone == {}
    else
      var last := events[|events| - 1];
      last.Removed? && last.usn in gone && EachRemoved(events[..|events| - 1], gone - {last.usn})
  }

  lemma OneMoreRemoved(events: seq<Event>, gone: set<Usn>, u: Usn)
    requires EachRemoved(events, gone) && u !in gone
    ensures EachRemoved(events + [Removed(u)], gone + {u})
  {
    assert gone + {u} - {u} == gone;
    assert (events + [Removed(u)])[..|events|] == events;
  }

  /** The events of some descriptions: each renderer listed is new or updated. */
  function Announced(known: Known, ds: seq<Description>): seq<Event>
    decreases |ds|
  {
    if ds == [] then []
    else
      (if Lists(known, ds[0]) then [if ds[0].usn in known then Updated(ds[0].usn) else Added(ds[0].usn)] else [])
      + Announced(AfterDescription(known, ds[0]), ds[1..])
  }

  lemma AnnouncedFirst(known: Known, ds: seq<Description>, i: nat, log: seq<Event>)
    requires i < |ds|
    ensures Described(known, ds[i..]) == Described(AfterDescription(known, ds[i]), ds[i + 1..])
    ensures log + Announced(known, ds[i..])
         == (if Lists(known, ds[i]) then log + [if ds[i].usn in known then Updated(ds[i].usn) else Added(ds[i].usn)] else log)
            + Announced(AfterDescription(known, ds[i]), ds[i + 1..])
  {
    assert ds[i..][1..] == ds[i + 1..];
  }

  /** The events of one sweep that nobody stopped listening to. */
  ghost predicate SweepEvents(events: seq<Event>, known: Known, s: Sweep) {
    match s
    case Failed => events == [Unavailable]
    case Replied(found, ds) =>
      exists removals :: EachRemoved(removals, Silent(Aged(Described(known, ds), found)))
                         && events == Announced(known, ds) + [Ready] + removals
  }

  /** The provider's registry and the events its listener took. */
  class Registry {
    var known: Known
    var log: seq<Event>

    /** The listener's view is the registry. */
    ghost predicate Mirrored()
      reads this
    {
      Sensible(log) && Replay(log) == known.Keys
    }

    constructor ()
      ensures Mirrored() && known == map[] && log == []
    {
      known, log := map[], [];
    }

    /** Offers an event that brings the listener up to `known`; `false` when nobody listens any more. */
    method Send(e: Event) returns (taken: bool)
      requires Sensible(log) && Fits(e, Replay(log))
      requires known.Keys == KeysAfter(Replay(log), e)
      modifies this`log
      ensures Sensible(log) && (taken ==> Mirrored() && log == old(log) + [e])
      ensures !taken ==> log == old(log)
    {
      if * {
        return false;
      }
      LogMore(log, e);
      log := log + [e];
      return true;
    }

    /** Lists what was described, up to the bound. */
    method DescribeAnnounced(ds: seq<Description>) returns (listening: bool)
      requires Mirrored()
      modifies this
      ensures Sensible(log) && old(log) <= log
      ensures listening ==> Mirrored() && known == Described(old(known), ds) && log == old(log) + Announced(old(known), ds)
    {
      for i := 0 to |ds|
        invariant Mirrored() && old(log) <= log
        invariant Described(known, ds[i..]) == Described(old(known), ds)
        invariant log + Announced(known, ds[i..]) == old(log) + Announced(old(known), ds)
      {
        var d := ds[i];
        AnnouncedFirst(known, ds, i, log);
        if !d.ok {
          continue;
        }
        var updated := d.usn in known;
        if !updated && |known| >= MAX_RECEIVERS {
          continue;
        }
        known := known[d.usn := Entry(d.location, 0)];
        var taken := Send(if updated then Updated(d.usn) else Added(d.usn));
        if !taken {
          return false;
        }
      }
      return true;
    }

    /** Takes one renderer off the list and says so. */
    method RemoveOne(usn: Usn) returns (taken: bool)
      requires Mirrored() && usn in known
      modifies this
      ensures Sensible(log) && known == old(known) - {usn}
      ensures if taken then Mirrored() && log == old(log) + [Removed(usn)] else log == old(log)
    {
      known := known - {usn};
      taken := Send(Removed(usn));
    }

    /** The same in the course of removing several: `removed` are gone from `start`, with the events `sent`. */
    method RemoveNext(usn: Usn, ghost start: Known, ghost removed: set<Usn>, ghost before: seq<Event>, ghost sent: seq<Event>)
      returns (taken: bool)
      requires Mirrored() && usn in known && usn !in removed
      requires known == start - removed && log == before + sent && EachRemoved(sent, removed)
      modifies this
      ensures Sensible(log) && before <= log
      ensures taken ==> Mirrored() && known == start - (removed + {usn})
      ensures taken ==> log == before + (sent + [Removed(usn)]) && EachRemoved(sent + [Removed(usn)], removed + {usn})
    {
      OneMoreRemoved(sent, removed, usn);
      MinusTwice(start, removed, usn);
      taken := RemoveOne(usn);
    }

    /** Takes some renderers off the list, with exactly one event each, in any order. */
    method RemoveAll(gone: set<Usn>) returns (listening: bool)
      requires Mirrored() && gone <= known.Keys
      modifies this
      ensures Sensible(log) && old(log) <= log
      ensures listening ==> Mirrored() && known == old(known) - gone && EachRemoved(log[|old(log)|..], gone)
    {
      var left := gone;
      ghost var sent, removed := [], {};
      while left != {}
        invariant Mirrored() && log == old(log) + sent
        invariant left !! removed && left + removed == gone
        invariant known == old(known) - removed && EachRemoved(sent, removed)
        decreases left
      {
        var usn :| usn in left;
        var taken := RemoveNext(usn, old(known), removed, old(log), sent);
        if !taken {
          return false;
        }
        left, removed, sent := left - {usn}, removed + {usn}, sent + [Removed(usn)];
      }
      return true;
    }

    /** Removes what stayed silent too long. */
    method RemoveGone() returns (listening: bool)
      requires Mirrored()
      modifies this
      ensures Sensible(log) && old(log) <= log
      ensures listening ==> Mirrored() && known == Kept(old(known))
      ensures listening ==> EachRemoved(log[|old(log)|..], Silent(old(known)))
    {
      KeptOrSilent(known);
      listening := RemoveAll(Silent(known));
    }

    /** Counts the replies that did not come, and removes what stayed silent too long. */
    method Settle(found: seq<Announcement>) returns (listening: bool)
      requires Mirrored()
      modifies this
      ensures Sensible(log) && old(log) <= log
      ensures listening ==> Mirrored() && known == Kept(Aged(old(known), found))
      ensures listening ==> EachRemoved(log[|old(log)|..], Silent(Aged(old(known), found)))
    {
      var aged := Aged(known, found);
      assert aged.Keys == known.Keys;
      known := aged;
      listening := RemoveGone();
    }

    /** One sweep; `false` once nobody is listening. */
    method SweepOnce(s: Sweep) returns (listening: bool)
      requires Mirrored()
      modifies this
      ensures Sensible(log) && old(log) <= log
      ensures listening ==> Mirrored() && known == AfterSweep(old(known), s)
      ensures listening ==> SweepEvents(log[|old(log)|..], old(known), s)
    {
      if s.Failed? {
        listening := Send(Unavailable);
        return;
      }
      listening := DescribeAnnounced(s.descriptions);
      if !listening {
        return;
      }
      listening := Send(Ready);
      if !listening {
        return;
      }
      ghost var ready := log;
      listening := Settle(s.found);
      SweepLogged(old(log), Announced(old(known), s.descriptions), ready, log);
    }
  }

  lemma SweepLogged(before: seq<Event>, announced: seq<Event>, ready: seq<Event>, log: seq<Event>)
    requires ready == before + announced + [Ready] && ready <= log
    ensures before <= log && log[|before|..] == announced + [Ready] + log[|ready|..]
  {
  }

  // ------------------------------------------------------------------- runs

  /** The registry after a run of sweeps. */
  function KnownAfter(run: seq<Sweep>): Known {
    if run == [] then map[] else AfterSweep(KnownAfter(run[..|run| - 1]), run[|run| - 1])
  }

  /** Only renderers that replied are described. */
  ghost predicate FromReplies(s: Sweep) {
    s.Replied? ==> forall d | d in s.descriptions :: Heard(s.found, d.usn)
  }

  lemma {:induction false} DescribedBounded(known: Known, ds: seq<Description>)
    requires |known| <= MAX_RECEIVERS
    ensures |Described(known, ds)| <= MAX_RECEIVERS
    decreases |ds|
  {
    if ds != [] {
      var next := AfterDescription(known, ds[0]);
      if ds[0].usn in known {
        assert Lists(known, ds[0]) ==> next.Keys == known.Keys;
      } else {
        assert Lists(known, ds[0]) ==> next.Keys == known.Keys + {ds[0].usn};
      }
      assert |next| == |next.Keys| && |known| == |known.Keys|;
      DescribedBounded(next, ds[1..]);
    }
  }

  /** The registry never holds more than 256 renderers. */
  lemma {:induction false} RegistryBounded(run: seq<Sweep>)
    ensures |KnownAfter(run)| <= MAX_RECEIVERS
  {
    if run != [] {
      var before, s := KnownAfter(run[..|run| - 1]), run[|run| - 1];
      RegistryBounded(run[..|run| - 1]);
      if s.Replied? {
        DescribedBounded(before, s.descriptions);
        var described, after := Described(before, s.descriptions), KnownAfter(run);
        SubsetSize(after.Keys, described.Keys);
        assert |after| == |after.Keys| && |described| == |described.Keys|;
      }
    }
  }

  /** Sweep `k` went through without a reply from `u`. */
  ghost predicate Missed(run: seq<Sweep>, k: nat, u: Usn)
    requires k < |run|
  {
    run[k].Replied? && !Heard(run[k].found, u)
  }

  /** `u` missed the last successful sweep before `n`, and was listed after it. */
  ghost predicate MissedLast(run: seq<Sweep>, n: nat, u: Usn)
    requires n <= |run|
  {
    exists m :: 0 <= m < n && Missed(run, m, u) && u in KnownAfter(run[..m])
                && forall j | m < j < n :: run[j].Failed?
  }

  lemma {:induction false} DescribedOthers(known: Known, ds: seq<Description>, u: Usn)
    requires forall d | d in ds :: d.usn != u
    ensures u in Described(known, ds) <==> u in known
    ensures u in known ==> Described(known, ds)[u] == known[u]
    decreases |ds|
  {
    if ds != [] {
      assert ds[0] in ds;
      DescribedOthers(AfterDescription(known, ds[0]), ds[1..], u);
    }
  }

  lemma {:induction false} DescribedMisses(known: Known, ds: seq<Description>, u: Usn)
    requires u in Described(known, ds)
    ensures Described(known, ds)[u].misses == 0 || (u in known && Described(known, ds)[u] == known[u])
    decreases |ds|
  {
    if ds != [] {
      DescribedMisses(AfterDescription(known, ds[0]), ds[1..], u);
    }
  }

  /** A renderer is listed where a description of this sweep put it, or as it was. */
  lemma {:induction false} ListedWhereDescribed(known: Known, ds: seq<Description>, u: Usn)
    requires u in Described(known, ds)
    ensures (u in known && Described(known, ds)[u] == known[u])
         || (exists k :: 0 <= k < |ds| && ds[k].ok && ds[k].usn == u && Described(known, ds)[u] == Entry(ds[k].location, 0))
    decreases |ds|
  {
    if ds != [] {
      var next, rest := AfterDescription(known, ds[0]), ds[1..];
      ListedWhereDescribed(next, rest, u);
      if k :| 0 <= k < |rest| && rest[k].ok && rest[k].usn == u && Described(next, rest)[u] == Entry(rest[k].location, 0) {
        assert ds[k + 1] == rest[k];
      }
    }
  }

  lemma {:induction false} DescribedGrows(known: Known, ds: seq<Description>)
    ensures known.Keys <= Described(known, ds).Keys
    decreases |ds|
  {
    if ds != [] {
      DescribedGrows(AfterDescription(known, ds[0]), ds[1..]);
    }
  }

  lemma {:induction false} DescribedParts(known: Known, ds: seq<Description>, k: nat)
    requires k <= |ds|
    ensures Described(known, ds) == Described(Described(known, ds[..k]), ds[k..])
    decreases |ds|
  {
    if k == 0 {
      assert ds[..k] == [] && ds[k..] == ds;
    } else {
      DescribedParts(AfterDescription(known, ds[0]), ds[1..], k - 1);
      assert ds[..k][1..] == ds[1..][..k - 1] && ds[k..] == ds[1..][k - 1..];
    }
  }

  /** A full registry takes no new renderer, however often it is described. */
  lemma {:induction false} FullStaysClosed(known: Known, ds: seq<Description>, u: Usn)
    requires |known| >= MAX_RECEIVERS && u !in known
    ensures u !in Described(known, ds)
    decreases |ds|
  {
    if ds != [] {
      var next := AfterDescription(known, ds[0]);
      assert next.Keys == known.Keys;
      assert |next| == |next.Keys| && |known| == |known.Keys|;
      FullStaysClosed(next, ds[1..], u);
    }
  }

  /**
   * After a sweep every renderer that replied and was described is listed,
   * exactly unless it was new and the registry was full by then; and it is
   * listed where its last description of the sweep said.
   */
  lemma DescribedIsListed(known: Known, s: Sweep, k: nat)
    requires s.Replied? && FromReplies(s) && k < |s.descriptions| && s.descriptions[k].ok
    ensures var u, before := s.descriptions[k].usn, Described(known, s.descriptions[..k]);
            && (u in AfterSweep(known, s) <==> u in before || |before| < MAX_RECEIVERS)
            && ((forall j | k < j < |s.descriptions| && s.descriptions[j].ok :: s.descriptions[j].usn != u) ==>
                  u in AfterSweep(known, s) ==> AfterSweep(known, s)[u] == Entry(s.descriptions[k].location, 0))
  {
    var ds := s.descriptions;
    var d, before := ds[k], Described(known, ds[..k]);
    assert d in ds;
    DescribedParts(known, ds, k);
    assert ds[k..][1..] == ds[k + 1..];
    var next := AfterDescription(before, d);
    if Lists(before, d) {
      DescribedStays(next, ds[k + 1..], d.usn);
      if forall j | k < j < |ds| && ds[j].ok :: ds[j].usn != d.usn {
        UndescribedStays(next, ds[k + 1..], d.usn);
      }
    } else {
      FullStaysClosed(before, ds[k + 1..], d.usn);
    }
  }

  lemma {:induction false} UndescribedStays(known: Known, ds: seq<Description>, u: Usn)
    requires u in known && forall j | 0 <= j < |ds| && ds[j].ok :: ds[j].usn != u
    ensures u in Described(known, ds) && Described(known, ds)[u] == known[u]
    decreases |ds|
  {
    if ds != [] {
      UndescribedStays(AfterDescription(known, ds[0]), ds[1..], u);
    }
  }

  lemma SweepMisses(known: Known, s: Sweep, u: Usn)
    requires FromReplies(s)
    requires u in known ==> known[u].misses <= 1
    ensures s.Failed? ==> AfterSweep(known, s) == known
    ensures s.Replied? && !Heard(s.found, u) && u in known ==>
              (u in AfterSweep(known, s) <==> known[u].misses == 0) && (known[u].misses == 0 ==> AfterSweep(known, s)[u].misses == 1)
    ensures s.Replied? && !Heard(s.found, u) && u !in known ==> u !in AfterSweep(known, s)
    ensures s.Replied? && Heard(s.found, u) && u in AfterSweep(known, s) ==> AfterSweep(known, s)[u].misses == 0
  {
    if s.Replied? && !Heard(s.found, u) {
      DescribedOthers(known, s.descriptions, u);
    }
  }

  lemma {:induction false} MissesMean(run: seq<Sweep>, n: nat, u: Usn)
    requires n <= |run| && forall s | s in run :: FromReplies(s)
    requires u in KnownAfter(run[..n])
    ensures KnownAfter(run[..n])[u].misses == if MissedLast(run, n, u) then 1 else 0
  {
    if n > 0 {
      var before, s := KnownAfter(run[..n - 1]), run[n - 1];
      assert run[..n][..n - 1] == run[..n - 1];
      assert s in run;
      if u in before {
        MissesMean(run, n - 1, u);
      }
      SweepMisses(before, s, u);
      MissedLastStep(run, n, u);
    }
  }

  lemma MissedLastStep(run: seq<Sweep>, n: nat, u: Usn)
    requires 0 < n <= |run|
    ensures MissedLast(run, n, u) <==>
              if run[n - 1].Failed? then MissedLast(run, n - 1, u)
              else Missed(run, n - 1, u) && u in KnownAfter(run[..n - 1])
  {
  }

  /**
   * A listed renderer is removed exactly by the second successful sweep in a
   * row, failed ones aside, that its reply is missing from.
   */
  lemma RemovedAtSecondMiss(run: seq<Sweep>, n: nat, u: Usn)
    requires n < |run| && forall s | s in run :: FromReplies(s)
    requires u in KnownAfter(run[..n])
    ensures u !in KnownAfter(run[..n + 1]) <==> Missed(run, n, u) && MissedLast(run, n, u)
  {
    assert run[..n + 1][..n] == run[..n];
    assert run[n] in run;
    MissesMean(run, n, u);
    SweepMisses(KnownAfter(run[..n]), run[n], u);
    var s := run[n];
    if s.Replied? && Heard(s.found, u) {
      DescribedStays(KnownAfter(run[..n]), s.descriptions, u);
    }
  }

  lemma {:induction false} DescribedStays(known: Known, ds: seq<Description>, u: Usn)
    requires u in known
    ensures u in Described(known, ds)
    decreases |ds|
  {
    if ds != [] {
      DescribedStays(AfterDescription(known, ds[0]), ds[1..], u);
    }
  }
}
