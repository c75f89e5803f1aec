/**
 * Wrong-PIN accounting of the front door: one guard per address, one guard
 * shared by all, doubling lockouts, and a table of addresses that forgets only
 * those not locked out.
 *
 * The shared guard turns out to be a function of the history of counted wrong
 * PINs alone, which gives the lockout schedule; the schedule in turn bounds
 * how many addresses can be locked at once, and with it the table.
 */
module PinDoor {
  import opened Common

  const PIN_ATTEMPTS := 5
  const PIN_ATTEMPTS_ALL := 20
  const MAX_TRACKED_PEERS := 256
  /** Seconds. */
  const PIN_LOCKOUT := 30
  const PIN_LOCKOUT_MAX := 900

  type Time = nat
  type Peer(==) = nat

  datatype Status = Ok | Forbidden | TooManyRequests

  // ---------------------------------------------------------------- guards

  datatype Guard = Guard(failures: nat, lockedUntil: Option<Time>, lastLockout: Option<nat>)

  const FRESH_GUARD := Guard(0, None, None)

  predicate Locked(g: Guard, now: Time) {
    g.lockedUntil.Some? && now < g.lockedUntil.value
  }

  function NextLockout(g: Guard): nat {
    if g.lastLockout.None? then PIN_LOCKOUT else Min(g.lastLockout.value * 2, PIN_LOCKOUT_MAX)
  }

  predicate FailLocks(g: Guard, limit: nat) {
    limit <= g.failures + 1
  }

  function AfterFail(g: Guard, limit: nat, now: Time): Guard {
    if !FailLocks(g, limit) then g.(failures := g.failures + 1)
    else Guard(0, Some(now + NextLockout(g)), Some(NextLockout(g)))
  }

  datatype Guards = Guards(all: Guard, peers: map<Peer, Guard>)

  predicate Refuses(s: Guards, peer: Peer, now: Time) {
    Locked(s.all, now) || (peer in s.peers && Locked(s.peers[peer], now))
  }

  /** The table after making room for `peer`. */
  function Retained(peers: map<Peer, Guard>, peer: Peer, now: Time): map<Peer, Guard> {
    if |peers| >= MAX_TRACKED_PEERS && peer !in peers
    then map p | p in peers && Locked(peers[p], now) :: peers[p]
    else peers
  }

  function GuardOf(peers: map<Peer, Guard>, peer: Peer): Guard {
    if peer in peers then peers[peer] else FRESH_GUARD
  }

  function Respond(s: Guards, peer: Peer, right: bool, now: Time): Status {
    if Refuses(s, peer, now) then TooManyRequests
    else if right then Ok
    else if FailLocks(GuardOf(s.peers, peer), PIN_ATTEMPTS) || FailLocks(s.all, PIN_ATTEMPTS_ALL)
    then TooManyRequests
    else Forbidden
  }

  predicate Counts(s: Guards, peer: Peer, right: bool, now: Time) {
    !Refuses(s, peer, now) && !right
  }

  function After(s: Guards, peer: Peer, right: bool, now: Time): Guards {
    if Refuses(s, peer, now) then s
    else if right then
      if peer in s.peers then s.(peers := s.peers[peer := s.peers[peer].(failures := 0)]) else s
    else
      var kept := Retained(s.peers, peer, now);
      Guards(AfterFail(s.all, PIN_ATTEMPTS_ALL, now),
             kept[peer := AfterFail(GuardOf(kept, peer), PIN_ATTEMPTS, now)])
  }

  /** Making room never touches the guard of the address being judged. */
  lemma RetainedKeepsOwn(peers: map<Peer, Guard>, peer: Peer, now: Time)
    ensures GuardOf(Retained(peers, peer, now), peer) == GuardOf(peers, peer)
  {
  }

  // ------------------------------------------------- the imperative guards

  class PinGuard {
    var failures: nat
    var lockedUntil: Option<Time>
    var lastLockout: Option<nat>

    function View(): Guard
      reads this
    {
      Guard(failures, lockedUntil, lastLockout)
    }

    constructor ()
      ensures View() == FRESH_GUARD
    {
      failures, lockedUntil, lastLockout := 0, None, None;
    }

    /** One more failure; at the limit it turns into a lockout, and the answer says so. */
    method Fail(limit: nat, now: Time) returns (locks: bool)
      modifies this
      ensures locks == FailLocks(old(View()), limit)
      ensures View() == AfterFail(old(View()), limit, now)
    {
      failures := failures + 1;
      if failures < limit {
        return false;
      }
      var lockout := if lastLockout.None? then PIN_LOCKOUT else Min(lastLockout.value * 2, PIN_LOCKOUT_MAX);
      failures := 0;
      lastLockout := Some(lockout);
      lockedUntil := Some(now + lockout);
      return true;
    }
  }

  class PinGuards {
    const all: PinGuard
    var peers: map<Peer, PinGuard>

    ghost predicate Valid()
      reads this
    {
      && (forall p | p in peers :: peers[p] != all)
      && (forall p, q | p in peers && q in peers && p != q :: peers[p] != peers[q])
    }

    ghost function View(): Guards
      reads this, all, peers.Values
    {
      Guards(all.View(), map p | p in peers :: peers[p].View())
    }

    constructor ()
      ensures Valid() && View() == Guards(FRESH_GUARD, map[])
      ensures fresh(all) && peers == map[]
    {
      all := new PinGuard();
      peers := map[];
    }

    /** Past the bound, forgets the addresses that are not locked out, unless `peer` is known. */
    method MakeRoom(peer: Peer, now: Time)
      requires Valid()
      modifies this
      ensures Valid() && peers.Values <= old(peers.Values)
      ensures View() == Guards(old(View()).all, Retained(old(View()).peers, peer, now))
    {
      ghost var before := View().peers;
      assert before.Keys == peers.Keys && |before| == |before.Keys| && |peers| == |peers.Keys|;
      if |peers| >= MAX_TRACKED_PEERS && peer !in peers {
        peers := map p | p in peers && Locked(peers[p].View(), now) :: peers[p];
      }
    }

    /** The guard of `peer`, a fresh one when the address is new. */
    method Entry(peer: Peer) returns (guard: PinGuard)
      requires Valid()
      modifies this
      ensures Valid() && fresh(peers.Values - old(peers.Values))
      ensures peer in peers && guard == peers[peer] && guard.View() == GuardOf(old(View()).peers, peer)
      ensures View() == Guards(old(View()).all, old(View()).peers[peer := GuardOf(old(View()).peers, peer)])
    {
      if peer !in peers {
        guard := new PinGuard();
        peers := peers[peer := guard];
      }
      guard := peers[peer];
    }

    /** Counts a wrong PIN against the address's guard, a fresh one when the address is new. */
    method FailPeer(peer: Peer, now: Time) returns (locks: bool)
      requires Valid()
      modifies this, peers.Values
      ensures Valid() && fresh(peers.Values - old(peers.Values))
      ensures locks == FailLocks(GuardOf(old(View()).peers, peer), PIN_ATTEMPTS)
      ensures View() == Guards(old(View()).all,
                               old(View()).peers[peer := AfterFail(GuardOf(old(View()).peers, peer), PIN_ATTEMPTS, now)])
    {
      var guard := Entry(peer);
      locks := guard.Fail(PIN_ATTEMPTS, now);
    }

    /** Counts a wrong PIN against the guard all addresses share. */
    method FailAll(now: Time) returns (locks: bool)
      requires Valid()
      modifies all
      ensures Valid() && locks == FailLocks(old(View()).all, PIN_ATTEMPTS_ALL)
      ensures View() == Guards(AfterFail(old(View()).all, PIN_ATTEMPTS_ALL, now), old(View()).peers)
    {
      locks := all.Fail(PIN_ATTEMPTS_ALL, now);
    }

    /** Counts a wrong PIN against the address alone, making room for it first. */
    method CountOwn(peer: Peer, now: Time) returns (locks: bool)
      requires Valid()
      modifies this, peers.Values
      ensures Valid() && fresh(peers.Values - old(peers.Values))
      ensures locks == FailLocks(GuardOf(old(View()).peers, peer), PIN_ATTEMPTS)
      ensures var kept := Retained(old(View()).peers, peer, now);
              View() == Guards(old(View()).all, kept[peer := AfterFail(GuardOf(kept, peer), PIN_ATTEMPTS, now)])
    {
      RetainedKeepsOwn(View().peers, peer, now);
      MakeRoom(peer, now);
      locks := FailPeer(peer, now);
    }

    /** Counts a wrong PIN against the address and against everyone. */
    method CountWrong(peer: Peer, now: Time) returns (locks: bool)
      requires Valid() && !Refuses(View(), peer, now)
      modifies this, all, peers.Values
      ensures Valid() && fresh(peers.Values - old(peers.Values))
      ensures locks == (Respond(old(View()), peer, false, now) == TooManyRequests)
      ensures View() == After(old(View()), peer, false, now)
    {
      var peerLocked := CountOwn(peer, now);
      var allLocked := FailAll(now);
      return peerLocked || allLocked;
    }

    /** Judges one attempt under the lock that records it. */
    method RecordPinAttempt(peer: Peer, right: bool, now: Time) returns (status: Status)
      requires Valid()
      modifies this, all, peers.Values
      ensures Valid() && fresh(peers.Values - old(peers.Values))
      ensures status == Respond(old(View()), peer, right, now)
      ensures View() == After(old(View()), peer, right, now)
    {
      if Locked(all.View(), now) || (peer in peers && Locked(peers[peer].View(), now)) {
        return TooManyRequests;
      }
      if right {
        if peer in peers {
          peers[peer].failures := 0;
        }
        return Ok;
      }
      var locks := CountWrong(peer, now);
      status := if locks then TooManyRequests else Forbidden;
    }
  }

  // --------------------------------------------------------------- history

  /** A wrong PIN that was counted. */
  datatype Failure = Failure(at: Time, peer: Peer)

  /** Length of the k-th lockout, from 0. */
  function Lockout(k: nat): nat {
    if k == 0 then PIN_LOCKOUT else Min(Lockout(k - 1) * 2, PIN_LOCKOUT_MAX)
  }

  function LockoutSum(k: nat): nat {
    if k == 0 then 0 else LockoutSum(k - 1) + Lockout(k - 1)
  }

  /** Failures are counted in batches of `PIN_ATTEMPTS_ALL`; each full batch earns a lockout. */
  function Batch(i: nat): nat {
    i / 20
  }

  /** The shared guard that a history of counted failures leaves behind. */
  function SharedAfter(h: seq<Failure>): Guard {
    var full := Batch(|h|);
    if full == 0 then Guard(|h|, None, None)
    else Guard(|h| - 20 * full, Some(h[20 * full - 1].at + Lockout(full - 1)), Some(Lockout(full - 1)))
  }

  /** Batch `b` opens no earlier than the lockout of the batch before it has run out. */
  predicate Served(h: seq<Failure>, b: nat)
    requires 1 <= b && 20 * b < |h|
  {
    h[20 * b - 1].at + Lockout(b - 1) <= h[20 * b].at
  }

  ghost predicate Paced(h: seq<Failure>) {
    forall b: nat | 1 <= b && 20 * b < |h| :: Served(h, b)
  }

  ghost predicate Ordered(h: seq<Failure>) {
    forall i, j | 0 <= i <= j < |h| :: h[i].at <= h[j].at
  }

  /** A lock still running at `now` was earned by a failure of that address within the longest lockout. */
  ghost predicate Earned(g: Guard, peer: Peer, h: seq<Failure>) {
    g.lockedUntil.Some? ==>
      exists i :: 0 <= i < |h| && h[i].peer == peer && g.lockedUntil.value <= h[i].at + PIN_LOCKOUT_MAX
  }

  predicate LockoutInRange(g: Guard) {
    g.lastLockout.Some? ==> PIN_LOCKOUT <= g.lastLockout.value <= PIN_LOCKOUT_MAX
  }

  ghost predicate Explained(s: Guards, h: seq<Failure>, now: Time) {
    && s.all == SharedAfter(h)
    && Ordered(h) && Paced(h)
    && (h != [] ==> h[|h| - 1].at <= now)
    && forall p | p in s.peers :: LockoutInRange(s.peers[p]) && Earned(s.peers[p], p, h)
  }

  lemma {:induction false} LockoutRange(k: nat)
    ensures PIN_LOCKOUT <= Lockout(k) <= Lockout(k + 1) <= PIN_LOCKOUT_MAX
  {
    if k > 0 {
      LockoutRange(k - 1);
    }
  }

  /** The k-th lockout in closed form: 30, 60, 120, 240, 480, then 900 for good. */
  lemma {:induction false} LockoutClosed(k: nat)
    ensures Lockout(k) == if k < 5 then [30, 60, 120, 240, 480][k] else PIN_LOCKOUT_MAX
  {
    if k > 0 {
      LockoutClosed(k - 1);
    }
  }

  lemma {:induction false} LockoutSumClosed(k: nat)
    ensures LockoutSum(k) == if k <= 5 then [0, 30, 90, 210, 450, 930][k] else 930 + 900 * (k - 5)
  {
    if k > 0 {
      LockoutSumClosed(k - 1);
      LockoutClosed(k - 1);
    }
  }

  /** Five lockouts in a row outlast the longest single one, wherever they start. */
  lemma FiveLockouts(k: nat)
    ensures LockoutSum(k + 5) - LockoutSum(k) >= 930
  {
    LockoutSumClosed(k);
    LockoutSumClosed(k + 5);
  }

  /** From the end of batch `a` to the start of a later batch `b` lie the lockouts of all batches between. */
  lemma {:induction false} LockoutsBetween(h: seq<Failure>, a: nat, b: nat)
    requires Ordered(h) && Paced(h) && a < b && 20 * b < |h|
    ensures h[20 * a + 19].at + LockoutSum(b) - LockoutSum(a) <= h[20 * b].at
    decreases b
  {
    assert Served(h, b);
    if a + 1 < b {
      LockoutsBetween(h, a, b - 1);
      assert h[20 * (b - 1)].at <= h[20 * b - 1].at;
    }
  }

  /** Between two counted failures lie all the shared lockouts of the batches between them. */
  lemma BatchesApart(h: seq<Failure>, i: nat, j: nat)
    requires Ordered(h) && Paced(h) && i <= j < |h|
    ensures h[i].at + LockoutSum(Batch(j)) - LockoutSum(Batch(i)) <= h[j].at
  {
    if Batch(i) < Batch(j) {
      LockoutsBetween(h, Batch(i), Batch(j));
    }
  }

  // ------------------------------------------------------------------ runs

  datatype Attempt = Attempt(peer: Peer, right: bool, at: Time)

  /** The guards and the counted failures after each prefix of a run of attempts. */
  function GuardsAfter(run: seq<Attempt>): Guards {
    if run == [] then Guards(FRESH_GUARD, map[])
    else
      var a := run[|run| - 1];
      After(GuardsAfter(run[..|run| - 1]), a.peer, a.right, a.at)
  }

  function Counted(run: seq<Attempt>): seq<Failure> {
    if run == [] then []
    else
      var a := run[|run| - 1];
      var earlier := Counted(run[..|run| - 1]);
      if Counts(GuardsAfter(run[..|run| - 1]), a.peer, a.right, a.at)
      then earlier + [Failure(a.at, a.peer)]
      else earlier
  }

  ghost predicate Timed(run: seq<Attempt>) {
    forall i, j | 0 <= i <= j < |run| :: run[i].at <= run[j].at
  }

  function Clock(run: seq<Attempt>): Time {
    if run == [] then 0 else run[|run| - 1].at
  }

  lemma CountKeepsShared(g: Guard, h: seq<Failure>, peer: Peer, now: Time)
    requires g == SharedAfter(h) && Ordered(h) && Paced(h)
    requires h != [] ==> h[|h| - 1].at <= now
    requires !Locked(g, now)
    ensures AfterFail(g, PIN_ATTEMPTS_ALL, now) == SharedAfter(h + [Failure(now, peer)])
    ensures Ordered(h + [Failure(now, peer)]) && Paced(h + [Failure(now, peer)])
  {
    CountKeepsPace(h, peer, now);
  }

  lemma CountKeepsPace(h: seq<Failure>, peer: Peer, now: Time)
    requires Ordered(h) && Paced(h) && !Locked(SharedAfter(h), now)
    requires h != [] ==> h[|h| - 1].at <= now
    ensures Ordered(h + [Failure(now, peer)]) && Paced(h + [Failure(now, peer)])
  {
    var longer := h + [Failure(now, peer)];
    forall b: nat | 1 <= b && 20 * b < |longer|
      ensures Served(longer, b)
    {
      assert 20 * b < |h| ==> Served(h, b);
    }
  }

  lemma EarnedLonger(g: Guard, peer: Peer, h: seq<Failure>, f: Failure)
    requires Earned(g, peer, h)
    ensures Earned(g, peer, h + [f])
  {
    if g.lockedUntil.Some? {
      var i :| 0 <= i < |h| && h[i].peer == peer && g.lockedUntil.value <= h[i].at + PIN_LOCKOUT_MAX;
      assert (h + [f])[i] == h[i];
    }
  }

  lemma FailEarned(g: Guard, peer: Peer, h: seq<Failure>, now: Time)
    requires LockoutInRange(g) && Earned(g, peer, h)
    ensures LockoutInRange(AfterFail(g, PIN_ATTEMPTS, now))
    ensures Earned(AfterFail(g, PIN_ATTEMPTS, now), peer, h + [Failure(now, peer)])
  {
    EarnedLonger(g, peer, h, Failure(now, peer));
    assert (h + [Failure(now, peer)])[|h|] == Failure(now, peer);
  }

  /** One attempt, counted or not, leaves a state that the history still explains. */
  lemma AttemptExplained(s: Guards, h: seq<Failure>, clock: Time, a: Attempt)
    requires Explained(s, h, clock) && clock <= a.at
    ensures var h' := if Counts(s, a.peer, a.right, a.at) then h + [Failure(a.at, a.peer)] else h;
            Explained(After(s, a.peer, a.right, a.at), h', a.at)
  {
    var s' := After(s, a.peer, a.right, a.at);
    if Counts(s, a.peer, a.right, a.at) {
      CountKeepsShared(s.all, h, a.peer, a.at);
      forall p | p in s'.peers
        ensures LockoutInRange(s'.peers[p]) && Earned(s'.peers[p], p, h + [Failure(a.at, a.peer)])
      {
        if p == a.peer {
          RetainedKeepsOwn(s.peers, p, a.at);
          FailEarned(GuardOf(s.peers, p), p, h, a.at);
        } else {
          EarnedLonger(s.peers[p], p, h, Failure(a.at, a.peer));
        }
      }
    } else {
      forall p | p in s'.peers
        ensures LockoutInRange(s'.peers[p]) && Earned(s'.peers[p], p, h)
      {
        assert Earned(s.peers[p], p, h);
      }
    }
  }

  /** In every run with nondecreasing time, the counted failures explain the whole state. */
  lemma {:induction false} RunExplained(run: seq<Attempt>)
    requires Timed(run)
    ensures Explained(GuardsAfter(run), Counted(run), Clock(run))
  {
    if run != [] {
      var earlier := run[..|run| - 1];
      RunExplained(earlier);
      AttemptExplained(GuardsAfter(earlier), Counted(earlier), Clock(earlier), run[|run| - 1]);
    }
  }

  // -------------------------------------------------------- main results

  /**
   * The lockout schedule: the shared lockouts last 30, 60, 120, ... up to 900
   * seconds whatever the mix of addresses, right PINs and evictions, so the
   * n-th counted wrong PIN comes no earlier than the sum of the lockouts that
   * the batches before it earned.
   */
  lemma SharedSchedule(run: seq<Attempt>, n: nat)
    requires Timed(run) && n < |Counted(run)|
    ensures Counted(run)[0].at + LockoutSum(Batch(n)) <= Counted(run)[n].at
    ensures GuardsAfter(run).all == SharedAfter(Counted(run))
  {
    RunExplained(run);
    BatchesApart(Counted(run), 0, n);
  }

  /** Ruling out all but one of the ten thousand PINs takes more than five days, from however many addresses. */
  lemma ExhaustionTakesDays(run: seq<Attempt>)
    requires Timed(run) && |Counted(run)| >= 9_999
    ensures Counted(run)[9_998].at - Counted(run)[0].at > 5 * 24 * 60 * 60
  {
    SharedSchedule(run, 9_998);
    LockoutSumClosed(499);
  }

  /** Any hundred and one consecutive counted failures span more than the longest lockout. */
  lemma HundredFailuresSpan(run: seq<Attempt>, i: nat)
    requires Timed(run) && i + 100 < |Counted(run)|
    ensures Counted(run)[i].at + PIN_LOCKOUT_MAX < Counted(run)[i + 100].at
  {
    RunExplained(run);
    BatchesApart(Counted(run), i, i + 100);
    FiveLockouts(Batch(i));
    assert Batch(i + 100) == Batch(i) + 5;
  }

  ghost function LockedPeers(peers: map<Peer, Guard>, now: Time): set<Peer> {
    set p | p in peers && Locked(peers[p], now)
  }

  function PeersOf(h: seq<Failure>): set<Peer> {
    set i | 0 <= i < |h| :: h[i].peer
  }

  lemma {:induction false} PeersOfSize(h: seq<Failure>)
    ensures |PeersOf(h)| <= |h|
  {
    if h != [] {
      var front := h[..|h| - 1];
      PeersOfSize(front);
      assert PeersOf(h) == PeersOf(front) + {h[|h| - 1].peer} by {
        forall p | p in PeersOf(h)
          ensures p in PeersOf(front) + {h[|h| - 1].peer}
        {
          var i :| 0 <= i < |h| && h[i].peer == p;
          if i < |front| {
            assert front[i].peer == p;
          }
        }
        forall p | p in PeersOf(front)
          ensures p in PeersOf(h)
        {
          var i :| 0 <= i < |front| && front[i].peer == p;
          assert h[i].peer == p;
        }
      }
    }
  }

  /** Whoever is locked out failed within the last hundred counted failures. */
  lemma LockEarnedRecently(run: seq<Attempt>, p: Peer, now: Time)
    requires Timed(run) && Clock(run) <= now
    requires p in LockedPeers(GuardsAfter(run).peers, now)
    ensures var h := Counted(run);
            p in PeersOf(if |h| <= 100 then h else h[|h| - 100..])
  {
    RunExplained(run);
    var h, g := Counted(run), GuardsAfter(run).peers[p];
    assert Earned(g, p, h);
    var i :| 0 <= i < |h| && h[i].peer == p && g.lockedUntil.value <= h[i].at + PIN_LOCKOUT_MAX;
    if i < |h| - 100 {
      HundredFailuresSpan(run, i);
      assert false;
    } else if |h| > 100 {
      assert h[|h| - 100..][i - (|h| - 100)] == h[i];
    }
  }

  /** At most a hundred addresses are locked out at any one time. */
  lemma LockedAtMostHundred(run: seq<Attempt>, now: Time)
    requires Timed(run) && Clock(run) <= now
    ensures |LockedPeers(GuardsAfter(run).peers, now)| <= 100
  {
    var h, peers := Counted(run), GuardsAfter(run).peers;
    var recent := if |h| <= 100 then h else h[|h| - 100..];
    forall p | p in LockedPeers(peers, now)
      ensures p in PeersOf(recent)
    {
      LockEarnedRecently(run, p, now);
    }
    SubsetSize(LockedPeers(peers, now), PeersOf(recent));
    PeersOfSize(recent);
  }

  lemma AttemptTableSize(s: Guards, a: Attempt)
    requires |s.peers| <= MAX_TRACKED_PEERS && |LockedPeers(s.peers, a.at)| < MAX_TRACKED_PEERS
    ensures |After(s, a.peer, a.right, a.at).peers| <= MAX_TRACKED_PEERS
  {
  }

  /** The table never holds more than 256 addresses, although eviction spares the locked ones. */
  lemma {:induction false} TrackedPeersBounded(run: seq<Attempt>)
    requires Timed(run)
    ensures |GuardsAfter(run).peers| <= MAX_TRACKED_PEERS
  {
    if run != [] {
      var earlier, a := run[..|run| - 1], run[|run| - 1];
      TrackedPeersBounded(earlier);
      LockedAtMostHundred(earlier, a.at);
      var s := GuardsAfter(earlier);
      AttemptTableSize(s, a);
    }
  }

  /**
   * A locked-out address learns nothing: while its lock runs, right and wrong
   * PINs get the same answer and leave the same state.
   */
  lemma LockedLearnsNothing(s: Guards, peer: Peer, now: Time)
    requires Refuses(s, peer, now)
    ensures Respond(s, peer, true, now) == Respond(s, peer, false, now) == TooManyRequests
    ensures After(s, peer, true, now) == After(s, peer, false, now) == s
  {
  }

  /**
   * Whom a counted wrong PIN shuts out: its own address for the lockout it
   * earned, everyone for the shared one if it earned that, and nobody else, even
   * if the table had to forget some addresses.
   */
  lemma WrongPinShutsOut(s: Guards, peer: Peer, other: Peer, now: Time, later: Time)
    requires now <= later && !Refuses(s, peer, now)
    ensures var own := FailLocks(GuardOf(s.peers, peer), PIN_ATTEMPTS) && later < now + NextLockout(GuardOf(s.peers, peer));
            var shared := FailLocks(s.all, PIN_ATTEMPTS_ALL) && later < now + NextLockout(s.all);
            Refuses(After(s, peer, false, now), other, later) <==> Refuses(s, other, later) || shared || (other == peer && own)
  {
    RetainedKeepsOwn(s.peers, peer, now);
  }

  /** The door opens exactly for the right PIN from an address that is not refused. */
  lemma OkExactly(s: Guards, peer: Peer, right: bool, now: Time)
    ensures Respond(s, peer, right, now) == Ok <==> right && !Refuses(s, peer, now)
  {
  }

  /** In every run the answer tells the truth: 429 exactly when the address is locked out once it is given. */
  lemma AnswerTellsLock(run: seq<Attempt>, peer: Peer, right: bool, now: Time)
    requires Timed(run) && Clock(run) <= now
    ensures var s := GuardsAfter(run);
            Respond(s, peer, right, now) == TooManyRequests <==> Refuses(After(s, peer, right, now), peer, now)
  {
    RunExplained(run);
    var s := GuardsAfter(run);
    RetainedKeepsOwn(s.peers, peer, now);
    if Batch(|Counted(run)|) > 0 {
      LockoutRange(Batch(|Counted(run)|) - 1);
    }
  }

  /**
   * A right PIN clears its address's count of wrong ones and touches nothing
   * else: not the length the next lockout has grown to, not the shared guard,
   * and no other address.
   */
  lemma RightPinKeepsSchedule(s: Guards, peer: Peer, other: Peer, now: Time)
    requires !Refuses(s, peer, now)
    ensures var s' := After(s, peer, true, now);
            && GuardOf(s'.peers, peer).failures == 0 && NextLockout(GuardOf(s'.peers, peer)) == NextLockout(GuardOf(s.peers, peer))
            && s'.all == s.all && s'.peers.Keys == s.peers.Keys
            && (other != peer ==> GuardOf(s'.peers, other) == GuardOf(s.peers, other))
  {
  }

  /** An attempt at a time when an address is locked out leaves its guard as it is, whoever makes it. */
  lemma LockedGuardStays(s: Guards, a: Attempt, peer: Peer)
    requires peer in s.peers && Locked(s.peers[peer], a.at)
    ensures var s' := After(s, a.peer, a.right, a.at);
            peer in s'.peers && s'.peers[peer] == s.peers[peer]
  {
  }

  lemma {:induction false} LockLasts(run: seq<Attempt>, i: nat, j: nat, peer: Peer, until: Time)
    requires Timed(run) && i <= j <= |run| && peer in GuardsAfter(run[..i]).peers
    requires GuardsAfter(run[..i]).peers[peer].lockedUntil == Some(until)
    requires forall k | i <= k < j :: run[k].at < until
    ensures peer in GuardsAfter(run[..j]).peers && GuardsAfter(run[..j]).peers[peer] == GuardsAfter(run[..i]).peers[peer]
    decreases j
  {
    if i < j {
      LockLasts(run, i, j - 1, peer, until);
      assert run[..j][..j - 1] == run[..j - 1];
      LockedGuardStays(GuardsAfter(run[..j - 1]), run[j - 1], peer);
    }
  }

  /**
   * A lock is kept for its whole time: an address locked until `until` is
   * refused at each of its attempts before then, whatever anyone enters in
   * between and however often the table has to make room.
   */
  lemma LockedOutUntil(run: seq<Attempt>, i: nat, j: nat, peer: Peer, until: Time)
    requires Timed(run) && i <= j < |run| && peer in GuardsAfter(run[..i]).peers
    requires GuardsAfter(run[..i]).peers[peer].lockedUntil == Some(until)
    requires run[j].peer == peer && run[j].at < until
    ensures Respond(GuardsAfter(run[..j]), peer, run[j].right, run[j].at) == TooManyRequests
    ensures GuardsAfter(run[..j + 1]) == GuardsAfter(run[..j])
  {
    LockLasts(run, i, j, peer, until);
    assert run[..j + 1][..j] == run[..j];
  }

  // ------------------------------------------------------------- forgetting

  /** Whom a counted wrong PIN leaves in the table: its own address, and all others unless the table was full, then just the locked. */
  lemma WhoIsRemembered(s: Guards, peer: Peer, other: Peer, now: Time)
    requires !Refuses(s, peer, now)
    ensures other in After(s, peer, false, now).peers <==>
              other == peer ||
              (other in s.peers && (|s.peers| < 256 || peer in s.peers || Locked(s.peers[other], now)))
    ensures other != peer && other in After(s, peer, false, now).peers ==> After(s, peer, false, now).peers[other] == s.peers[other]
  {
  }

  function AddressesOf(run: seq<Attempt>): set<Peer> {
    set i | 0 <= i < |run| :: run[i].peer
  }

  /** The guard an address has by its own attempts alone, of those that were not refused. */
  function OwnGuard(run: seq<Attempt>, peer: Peer): Guard {
    if run == [] then FRESH_GUARD
    else
      var front, a := run[..|run| - 1], run[|run| - 1];
      if a.peer != peer || Refuses(GuardsAfter(front), peer, a.at) then OwnGuard(front, peer)
      else if a.right then OwnGuard(front, peer).(failures := 0)
      else AfterFail(OwnGuard(front, peer), PIN_ATTEMPTS, a.at)
  }

  lemma AddressesGrow(run: seq<Attempt>)
    requires run != []
    ensures AddressesOf(run) == AddressesOf(run[..|run| - 1]) + {run[|run| - 1].peer}
  {
    var front := run[..|run| - 1];
    forall p | p in AddressesOf(run)
      ensures p in AddressesOf(front) + {run[|run| - 1].peer}
    {
      var i :| 0 <= i < |run| && run[i].peer == p;
      assert i < |front| ==> front[i].peer == p;
    }
    forall p | p in AddressesOf(front)
      ensures p in AddressesOf(run)
    {
      var i :| 0 <= i < |front| && front[i].peer == p;
      assert run[i].peer == p;
    }
  }

  /** With room for one more address, an attempt moves no guard but that of its own address. */
  lemma RoomyAttempt(s: Guards, a: Attempt, peer: Peer)
    requires |s.peers| < MAX_TRACKED_PEERS || a.peer in s.peers
    ensures var g, s' := GuardOf(s.peers, peer), After(s, a.peer, a.right, a.at);
            && s'.peers.Keys <= s.peers.Keys + {a.peer}
            && GuardOf(s'.peers, peer) ==
               if a.peer != peer || Refuses(s, peer, a.at) then g
               else if a.right then g.(failures := 0)
               else AfterFail(g, PIN_ATTEMPTS, a.at)
  {
  }

  lemma {:induction false} OnlyAddresses(run: seq<Attempt>)
    ensures GuardsAfter(run).peers.Keys <= AddressesOf(run)
  {
    if run != [] {
      OnlyAddresses(run[..|run| - 1]);
      AddressesGrow(run);
    }
  }

  /** While no more than 256 addresses have tried, none is forgotten: each guard is what its address earned. */
  lemma {:induction false} NothingForgotten(run: seq<Attempt>, peer: Peer)
    requires |AddressesOf(run)| <= MAX_TRACKED_PEERS
    ensures GuardOf(GuardsAfter(run).peers, peer) == OwnGuard(run, peer)
  {
    if run != [] {
      var front, a := run[..|run| - 1], run[|run| - 1];
      var s := GuardsAfter(front);
      AddressesGrow(run);
      SubsetSize(AddressesOf(front), AddressesOf(run));
      NothingForgotten(front, peer);
      OnlyAddresses(front);
      if a.peer !in s.peers {
        SubsetSize(s.peers.Keys + {a.peer}, AddressesOf(run));
        assert |s.peers| == |s.peers.Keys|;
      }
      RoomyAttempt(s, a, peer);
    }
  }

  // ----------------------------------------------------------- one address

  ghost predicate FromOnly(run: seq<Attempt>, peer: Peer) {
    forall i | 0 <= i < |run| :: run[i].peer == peer
  }

  ghost predicate NeverRight(run: seq<Attempt>) {
    forall i | 0 <= i < |run| :: !run[i].right
  }

  /** Whether a run ends with the door shut for everyone, within `d` seconds of its first attempt. */
  ghost predicate ShutsDoor(run: seq<Attempt>, d: nat) {
    run != [] && Clock(run) <= run[0].at + d && forall p: Peer :: Refuses(GuardsAfter(run), p, Clock(run))
  }

  /** Failures of one address come in fives; each full five earns that address a lockout. */
  function Five(i: nat): nat {
    i / 5
  }

  /** The guard that the counted failures of an address which is never right leave behind. */
  function OwnAfter(h: seq<Failure>): Guard {
    var full := Five(|h|);
    if full == 0 then Guard(|h|, None, None)
    else Guard(|h| - 5 * full, Some(h[5 * full - 1].at + Lockout(full - 1)), Some(Lockout(full - 1)))
  }

  /** Each failure comes no earlier than the address's own lockouts before it. */
  ghost predicate OwnPaced(h: seq<Failure>) {
    forall i | 0 <= i < |h| :: h[0].at + LockoutSum(Five(i)) <= h[i].at
  }

  ghost predicate Alone(s: Guards, h: seq<Failure>, peer: Peer) {
    s.peers.Keys <= {peer} && GuardOf(s.peers, peer) == OwnAfter(h) && OwnPaced(h)
  }

  /** With no other address in the table, a wrong PIN just counts twice. */
  lemma LoneFailure(s: Guards, peer: Peer, at: Time)
    requires s.peers.Keys <= {peer} && !Refuses(s, peer, at)
    ensures var s' := After(s, peer, false, at);
            && s'.peers.Keys == {peer}
            && s'.all == AfterFail(s.all, PIN_ATTEMPTS_ALL, at)
            && GuardOf(s'.peers, peer) == AfterFail(GuardOf(s.peers, peer), PIN_ATTEMPTS, at)
  {
  }

  /** A failure counted while the address is not locked follows its own schedule. */
  lemma FailureKeepsOwnPace(h: seq<Failure>, f: Failure)
    requires OwnPaced(h) && !Locked(OwnAfter(h), f.at) && (h != [] ==> h[|h| - 1].at <= f.at)
    ensures OwnPaced(h + [f])
  {
    if h != [] {
      assert h[0].at + LockoutSum(Five(|h| - 1)) <= h[|h| - 1].at;
      assert Five(|h|) == Five(|h| - 1) || (|h| == 5 * Five(|h|) && Five(|h| - 1) == Five(|h|) - 1);
    }
  }

  lemma FailureMovesOwn(h: seq<Failure>, f: Failure)
    ensures AfterFail(OwnAfter(h), PIN_ATTEMPTS, f.at) == OwnAfter(h + [f])
  {
  }

  lemma {:induction false} LonePaced(run: seq<Attempt>, peer: Peer)
    requires Timed(run) && FromOnly(run, peer) && NeverRight(run)
    ensures Alone(GuardsAfter(run), Counted(run), peer)
  {
    if run != [] {
      var earlier, a := run[..|run| - 1], run[|run| - 1];
      LonePaced(earlier, peer);
      RunExplained(earlier);
      if Counts(GuardsAfter(earlier), a.peer, a.right, a.at) {
        LoneFailure(GuardsAfter(earlier), peer, a.at);
        FailureKeepsOwnPace(Counted(earlier), Failure(a.at, peer));
        FailureMovesOwn(Counted(earlier), Failure(a.at, peer));
      }
    }
  }

  /** An address that is never right waits out all its own lockouts: its n-th wrong PIN cannot come sooner. */
  lemma LoneSchedule(run: seq<Attempt>, peer: Peer, n: nat)
    requires Timed(run) && FromOnly(run, peer) && NeverRight(run) && n < |Counted(run)|
    ensures Counted(run)[0].at + LockoutSum(Five(n)) <= Counted(run)[n].at
  {
    LonePaced(run, peer);
  }

  lemma {:induction false} CountedWithin(run: seq<Attempt>)
    requires Timed(run) && Counted(run) != []
    ensures run[0].at <= Counted(run)[0].at && Counted(run)[|Counted(run)| - 1].at <= Clock(run)
  {
    if Counted(run[..|run| - 1]) != [] {
      CountedWithin(run[..|run| - 1]);
    }
  }

  /** The door is shut for all only once twenty failures were counted. */
  lemma ShutTakesTwenty(run: seq<Attempt>, peer: Peer, d: nat)
    requires Timed(run) && FromOnly(run, peer) && ShutsDoor(run, d)
    ensures |Counted(run)| >= 20
  {
    RunExplained(run);
    LoneTable(run, peer);
    assert Refuses(GuardsAfter(run), peer + 1, Clock(run));
  }

  lemma {:induction false} LoneTable(run: seq<Attempt>, peer: Peer)
    requires FromOnly(run, peer)
    ensures GuardsAfter(run).peers.Keys <= {peer}
  {
    if run != [] {
      LoneTable(run[..|run| - 1], peer);
    }
  }

  lemma LoneShutTakes210(run: seq<Attempt>, peer: Peer, d: nat)
    requires Timed(run) && FromOnly(run, peer) && NeverRight(run) && ShutsDoor(run, d)
    ensures d >= 210
  {
    ShutTakesTwenty(run, peer, d);
    LoneSchedule(run, peer, 19);
    LockoutSumClosed(3);
    CountedWithin(run);
    RunExplained(run);
  }

  /** `n` wrong PINs from one address at one time. */
  function Wrongs(peer: Peer, at: Time, n: nat): seq<Attempt> {
    seq(n, _ => Attempt(peer, false, at))
  }

  function AfterWrongs(s: Guards, peer: Peer, at: Time, n: nat): Guards {
    if n == 0 then s else After(AfterWrongs(s, peer, at, n - 1), peer, false, at)
  }

  lemma ThenAttempt(run: seq<Attempt>, a: Attempt)
    ensures GuardsAfter(run + [a]) == After(GuardsAfter(run), a.peer, a.right, a.at)
  {
  }

  lemma {:induction false} ThenWrongs(run: seq<Attempt>, peer: Peer, at: Time, n: nat)
    ensures GuardsAfter(run + Wrongs(peer, at, n)) == AfterWrongs(GuardsAfter(run), peer, at, n)
  {
    if n == 0 {
      assert run + Wrongs(peer, at, n) == run;
    } else {
      ThenWrongs(run, peer, at, n - 1);
      ThenAttempt(run + Wrongs(peer, at, n - 1), Attempt(peer, false, at));
      assert run + Wrongs(peer, at, n) == run + Wrongs(peer, at, n - 1) + [Attempt(peer, false, at)];
    }
  }

  /** A lone address that may try, with a clean count. */
  ghost predicate Ready(s: Guards, peer: Peer, at: Time) {
    s.peers.Keys <= {peer} && !Refuses(s, peer, at) && GuardOf(s.peers, peer).failures == 0
  }

  /** The guards after `n` more wrong PINs of a lone address, none of which locks. */
  ghost predicate Counting(s: Guards, s': Guards, peer: Peer, n: nat) {
    && s'.peers.Keys <= {peer}
    && s'.all == s.all.(failures := s.all.failures + n)
    && GuardOf(s'.peers, peer) == GuardOf(s.peers, peer).(failures := n)
  }

  lemma {:induction false} WrongsCount(s: Guards, peer: Peer, at: Time, n: nat)
    requires Ready(s, peer, at) && n < PIN_ATTEMPTS && s.all.failures + n < PIN_ATTEMPTS_ALL
    ensures Counting(s, AfterWrongs(s, peer, at, n), peer, n)
  {
    if n > 0 {
      WrongsCount(s, peer, at, n - 1);
      LoneFailure(AfterWrongs(s, peer, at, n - 1), peer, at);
    }
  }

  /** A lone address that has sat out `rounds` of its own lockouts, five wrong PINs each. */
  ghost predicate Rested(s: Guards, peer: Peer, rounds: nat) {
    && s.peers.Keys <= {peer} && s.all == Guard(5 * rounds, None, None)
    && GuardOf(s.peers, peer)
       == if rounds == 0 then FRESH_GUARD else Guard(0, Some(LockoutSum(rounds)), Some(Lockout(rounds - 1)))
  }

  lemma RoundLocks(s: Guards, peer: Peer, rounds: nat)
    requires Rested(s, peer, rounds) && rounds <= 3
    ensures var s' := AfterWrongs(s, peer, LockoutSum(rounds), 5);
            if rounds < 3 then Rested(s', peer, rounds + 1) else s'.all == Guard(0, Some(240), Some(30)) && s'.peers.Keys <= {peer}
  {
    WrongsCount(s, peer, LockoutSum(rounds), 4);
    LoneFailure(AfterWrongs(s, peer, LockoutSum(rounds), 4), peer, LockoutSum(rounds));
    LockoutSumClosed(3);
  }

  /** Rounds of five wrong PINs, each as soon as the lockout before it is over. */
  lemma {:induction false} Patience(peer: Peer, rounds: nat) returns (run: seq<Attempt>)
    requires rounds <= 3
    ensures Rested(GuardsAfter(run), peer, rounds)
    ensures Timed(run) && FromOnly(run, peer) && NeverRight(run) && Clock(run) <= LockoutSum(rounds)
    ensures if rounds == 0 then run == [] else run != [] && run[0].at == 0
  {
    run := [];
    if rounds > 0 {
      var shorter := Patience(peer, rounds - 1);
      ThenWrongs(shorter, peer, LockoutSum(rounds - 1), 5);
      RoundLocks(GuardsAfter(shorter), peer, rounds - 1);
      run := shorter + Wrongs(peer, LockoutSum(rounds - 1), 5);
    }
  }

  /** Four rounds shut the door for everyone after 210 seconds. */
  lemma PatientRun(peer: Peer) returns (run: seq<Attempt>)
    ensures Timed(run) && FromOnly(run, peer) && NeverRight(run) && ShutsDoor(run, 210)
  {
    var shorter := Patience(peer, 3);
    LockoutSumClosed(3);
    ThenWrongs(shorter, peer, 210, 5);
    RoundLocks(GuardsAfter(shorter), peer, 3);
    run := shorter + Wrongs(peer, 210, 5);
  }

  /** Right PINs clear an address's own count and not the shared one. */
  lemma {:induction false} RightsClear(peer: Peer, rounds: nat) returns (run: seq<Attempt>)
    requires rounds <= 4
    ensures Ready(GuardsAfter(run), peer, 0) && GuardsAfter(run).all == Guard(4 * rounds, None, None)
    ensures FromOnly(run, peer) && forall i | 0 <= i < |run| :: run[i].at == 0
  {
    run := [];
    if rounds > 0 {
      var shorter := RightsClear(peer, rounds - 1);
      WrongsCount(GuardsAfter(shorter), peer, 0, 4);
      ThenWrongs(shorter, peer, 0, 4);
      ThenAttempt(shorter + Wrongs(peer, 0, 4), Attempt(peer, true, 0));
      run := shorter + Wrongs(peer, 0, 4) + [Attempt(peer, true, 0)];
    }
  }

  /** Four wrong PINs and a right one, over and over, shut the door at once. */
  lemma ImpatientRun(peer: Peer) returns (run: seq<Attempt>)
    ensures Timed(run) && FromOnly(run, peer) && ShutsDoor(run, 0)
  {
    var rounds := RightsClear(peer, 4);
    WrongsCount(GuardsAfter(rounds), peer, 0, 3);
    LoneFailure(AfterWrongs(GuardsAfter(rounds), peer, 0, 3), peer, 0);
    ThenWrongs(rounds, peer, 0, 4);
    run := rounds + Wrongs(peer, 0, 4);
  }

  ghost predicate CanShutDoor(peer: Peer, d: nat, rightToo: bool) {
    exists run :: Timed(run) && FromOnly(run, peer) && (rightToo || NeverRight(run)) && ShutsDoor(run, d)
  }

  /**
   * Whether one address can reach the shared limit by itself.  If it is never
   * right it needs exactly 210 seconds, the lockouts it has to sit out; if it
   * also enters the right PIN now and then, it needs no time at all.
   */
  lemma OneAddressLocksEveryone(peer: Peer, d: nat)
    ensures CanShutDoor(peer, d, false) <==> d >= 210
    ensures CanShutDoor(peer, d, true)
  {
    if CanShutDoor(peer, d, false) {
      var run :| Timed(run) && FromOnly(run, peer) && NeverRight(run) && ShutsDoor(run, d);
      LoneShutTakes210(run, peer, d);
    }
    var patient := PatientRun(peer);
    assert d >= 210 ==> ShutsDoor(patient, d);
    var impatient := ImpatientRun(peer);
    assert ShutsDoor(impatient, d);
  }
}
