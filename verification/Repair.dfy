/**
 * Retransmission: the packets a request names, how the sender finds the frame
 * that eight bits of an id stand for, what it queues, and what the receiver can
 * rebuild in the end.
 */
module Repair {
  import opened Common
  import opened Flow
  import opened Rtcp
  import opened Rtp

  const MAX_REPAIR_QUEUE := 4096
  /** Requests served out of one report. */
  const MAX_NACKS := 256
  /** How many frames, and for how many milliseconds acknowledged ones, are kept. */
  const RETRANSMIT_HISTORY_MAX := MAX_UNACKED_FRAMES
  const RETRANSMIT_HISTORY := 2000
  const MAX_ENCODED_FRAME_BYTES := 4 * 1024 * 1024

  // -------------------------------------------------------------- requests

  /** Whether bit `bit` of a byte is set. */
  predicate Bit(mask: byte, bit: nat)
    requires bit < 8
  {
    mask / [1, 2, 4, 8, 16, 32, 64, 128][bit] % 2 == 1
  }

  function Weight(bit: nat): nat {
    if bit == 0 then 1 else 2 * Weight(bit - 1)
  }

  lemma {:induction false} WeightIs(bit: nat)
    requires bit < 8
    ensures Weight(bit) == [1, 2, 4, 8, 16, 32, 64, 128][bit]
  {
    if bit > 0 {
      WeightIs(bit - 1);
    }
  }

  /** Bit `bit` is the digit of that weight, whatever the digits above and below it. */
  lemma BitReads(mask: byte, bit: nat, above: nat, digit: nat, below: nat)
    requires bit < 8 && digit < 2 && below < Weight(bit)
    requires mask == Weight(bit) * (2 * above + digit) + below
    ensures Bit(mask, bit) <==> digit == 1
  {
    WeightIs(bit);
    assert mask == [1, 2, 4, 8, 16, 32, 64, 128][bit] * (2 * above + digit) + below;
  }

  /** The packets one request names: its own id and those its bitmap flags after it, short of 0xFFFF. */
  predicate Names(nack: Nack, id: nat) {
    id == nack.packetId ||
    (nack.packetId < id <= nack.packetId + 8 && id < 0xFFFF && Bit(nack.bitmask, id - nack.packetId - 1))
  }

  /** The ids listed for a request after its first `bits` bits. */
  function IdsUpTo(nack: Nack, bits: nat): seq<u16>
    requires bits <= 8
  {
    if bits == 0 then [nack.packetId]
    else
      var id := nack.packetId + bits;
      IdsUpTo(nack, bits - 1) + if Bit(nack.bitmask, bits - 1) && id < 0xFFFF then [id] else []
  }

  /** The ids a request covers; `None` asks for the whole frame. */
  function IdsOf(nack: Nack): Option<seq<u16>> {
    if nack.packetId == 0xFFFF then None else Some(IdsUpTo(nack, 8))
  }

  lemma {:induction false} IdsUpToNamed(nack: Nack, bits: nat)
    requires bits <= 8
    ensures forall id: u16 :: id in IdsUpTo(nack, bits) <==> Names(nack, id) && id <= nack.packetId + bits
    ensures forall i, j | 0 <= i < j < |IdsUpTo(nack, bits)| :: IdsUpTo(nack, bits)[i] < IdsUpTo(nack, bits)[j]
  {
    if bits > 0 {
      IdsUpToNamed(nack, bits - 1);
      var shorter := IdsUpTo(nack, bits - 1);
      forall i | 0 <= i < |shorter|
        ensures shorter[i] < nack.packetId + bits
      {
        assert shorter[i] in shorter;
      }
    }
  }

  method PacketIds(nack: Nack) returns (ids: Option<seq<u16>>)
    ensures ids == IdsOf(nack) && (ids.None? <==> nack.packetId == 0xFFFF)
    ensures ids.Some? ==> forall i, j | 0 <= i < j < |ids.value| :: ids.value[i] < ids.value[j]
    ensures ids.Some? ==> forall id: u16 :: id in ids.value <==> Names(nack, id)
  {
    if nack.packetId == 0xFFFF {
      return None;
    }
    var list: seq<u16> := [nack.packetId];
    for bit := 0 to 8
      invariant list == IdsUpTo(nack, bit)
    {
      var id := nack.packetId + bit + 1;
      if Bit(nack.bitmask, bit) && id < 0x1_0000 && id != 0xFFFF {
        list := list + [id];
      }
    }
    IdsUpToNamed(nack, 8);
    return Some(list);
  }

  /** Whether a request asks for packet `id`. */
  predicate AsksFor(nack: Nack, id: nat) {
    nack.packetId == 0xFFFF || Names(nack, id)
  }

  /** A packet can be asked for on its own exactly when its id is not the whole-frame mark. */
  lemma Addressable(id: u16, frame: byte)
    ensures (exists nack: Nack :: nack.frameId == frame && nack.packetId != 0xFFFF && Names(nack, id)) <==> id != 0xFFFF
  {
    if id != 0xFFFF {
      assert Names(Nack(frame, id, 0), id);
    }
  }

  /** The ids wanted of a frame of `count` packets. */
  function Wanted(nack: Nack, count: nat): seq<nat> {
    match IdsOf(nack)
    case None => seq(count, i requires 0 <= i < count => i)
    case Some(ids) => ids
  }

  lemma WantedAsked(nack: Nack, count: nat, id: nat)
    requires id < count
    ensures id in Wanted(nack, count) <==> AsksFor(nack, id)
  {
    if nack.packetId == 0xFFFF {
      assert Wanted(nack, count)[id] == id;
    } else {
      IdsUpToNamed(nack, 8);
    }
  }

  // --------------------------------------------------------------- history

  /** A frame kept for retransmission under its full id. */
  datatype Kept = Kept(id: u32, sent: nat, packets: seq<bytes>)

  /** The first frame kept whose id ends in this byte. */
  function Lookup(history: seq<Kept>, wire: byte): (found: Option<Kept>)
    ensures found.Some? ==> found.value in history && found.value.id % 256 == wire
  {
    if history == [] then None
    else if history[0].id % 256 == wire then Some(history[0])
    else Lookup(history[1..], wire)
  }

  /** Whether the oldest frame is acknowledged and old, or there are too many. */
  predicate Drops(history: seq<Kept>, now: nat, acknowledged: int) {
    history != [] && ((history[0].id <= acknowledged && now - history[0].sent > RETRANSMIT_HISTORY)
                      || |history| > RETRANSMIT_HISTORY_MAX)
  }

  function Pruned(history: seq<Kept>, now: nat, acknowledged: int): seq<Kept> {
    if Drops(history, now, acknowledged)
    then Pruned(history[1..], now, acknowledged)
    else history
  }

  /** Frames kept in the order they were sent. */
  ghost predicate InOrder(history: seq<Kept>) {
    forall i, j | 0 <= i < j < |history| :: history[i].id < history[j].id && history[i].sent <= history[j].sent
  }

  /** Acknowledged, and sent more than two seconds ago. */
  predicate Done(kept: Kept, now: nat, acknowledged: int) {
    kept.id <= acknowledged && kept.sent + 2000 < now
  }

  /** Exactly what is done with, and what is more than 120 frames back, is dropped. */
  lemma {:induction false} PrunedKeeps(history: seq<Kept>, now: nat, acknowledged: int, i: nat)
    requires InOrder(history) && i < |history|
    ensures history[i] in Pruned(history, now, acknowledged) <==> |history| - i <= 120 && !Done(history[i], now, acknowledged)
  {
    var kept := Pruned(history, now, acknowledged);
    if Drops(history, now, acknowledged) {
      if i == 0 {
        PrunedIsPart(history[1..], now, acknowledged);
        assert forall k | k in history[1..] :: k.id > history[0].id;
      } else {
        PrunedKeeps(history[1..], now, acknowledged, i - 1);
      }
    } else {
      assert kept == history && history[i] in kept;
    }
  }

  lemma {:induction false} PrunedIsPart(history: seq<Kept>, now: nat, acknowledged: int)
    ensures forall k | k in Pruned(history, now, acknowledged) :: k in history
  {
    if Drops(history, now, acknowledged) {
      PrunedIsPart(history[1..], now, acknowledged);
    }
  }

  // ----------------------------------------------------------------- queue

  /** One packet to send again. */
  datatype Repair = Repair(frame: u32, packet: nat)

  function QueueIds(queue: seq<Repair>, frame: u32, ids: seq<nat>, count: nat): seq<Repair>
    decreases |ids|
  {
    if ids == [] || |queue| >= MAX_REPAIR_QUEUE then queue
    else
      var key := Repair(frame, ids[0]);
      QueueIds(if ids[0] < count && key !in queue then queue + [key] else queue, frame, ids[1..], count)
  }

  function QueueNack(queue: seq<Repair>, history: seq<Kept>, acknowledged: int, nack: Nack): seq<Repair> {
    match Lookup(history, nack.frameId)
    case None => queue
    case Some(kept) =>
      if kept.id <= acknowledged then queue
      else QueueIds(queue, kept.id, Wanted(nack, |kept.packets|), |kept.packets|)
  }

  function QueueAll(queue: seq<Repair>, history: seq<Kept>, acknowledged: int, nacks: seq<Nack>): seq<Repair>
    decreases |nacks|
  {
    if nacks == [] then queue
    else QueueAll(QueueNack(queue, history, acknowledged, nacks[0]), history, acknowledged, nacks[1..])
  }

  /** Requests for frames no longer kept. */
  function Expired(history: seq<Kept>, nacks: seq<Nack>): nat {
    if nacks == [] then 0
    else (if Lookup(history, nacks[0].frameId).None? then 1 else 0) + Expired(history, nacks[1..])
  }

  function FirstNacks(nacks: seq<Nack>): seq<Nack> {
    if |nacks| <= MAX_NACKS then nacks else nacks[..MAX_NACKS]
  }

  class StreamSender {
    var history: seq<Kept>
    var repairs: seq<Repair>
    var queued: set<Repair>

    ghost predicate Valid()
      reads this
    {
      forall key :: key in queued <==> key in repairs
    }

    constructor ()
      ensures Valid() && history == [] && repairs == []
    {
      history, repairs, queued := [], [], {};
    }

    /** Keeps a frame just sent, and drops what need not be kept any more. */
    method Keep(kept: Kept, now: nat, acknowledged: int)
      requires Valid()
      modifies this`history
      ensures Valid() && history == Pruned(old(history) + [kept], now, acknowledged)
    {
      history := history + [kept];
      while Drops(history, now, acknowledged)
        invariant Pruned(history, now, acknowledged) == Pruned(old(history) + [kept], now, acknowledged)
        decreases |history|
      {
        history := history[1..];
      }
    }

    method QueuePackets(frame: u32, ids: seq<nat>, count: nat)
      requires Valid()
      modifies this`repairs, this`queued
      ensures Valid() && repairs == QueueIds(old(repairs), frame, ids, count)
    {
      for i := 0 to |ids|
        invariant Valid()
        invariant QueueIds(repairs, frame, ids[i..], count) == QueueIds(old(repairs), frame, ids, count)
      {
        if |repairs| >= MAX_REPAIR_QUEUE {
          break;
        }
        assert ids[i..][1..] == ids[i + 1..];
        var key := Repair(frame, ids[i]);
        if ids[i] < count && key !in queued {
          queued := queued + {key};
          repairs := repairs + [key];
        }
      }
    }

    /** Queues what a report asks for, each packet once. */
    method QueueRepairs(nacks: seq<Nack>, acknowledged: int) returns (expired: nat)
      requires Valid()
      modifies this`repairs, this`queued
      ensures Valid() && repairs == QueueAll(old(repairs), history, acknowledged, FirstNacks(nacks))
      ensures expired == Expired(history, FirstNacks(nacks))
    {
      var served := FirstNacks(nacks);
      expired := 0;
      for i := 0 to |served|
        invariant Valid()
        invariant QueueAll(repairs, history, acknowledged, served[i..]) == QueueAll(old(repairs), history, acknowledged, served)
        invariant expired + Expired(history, served[i..]) == Expired(history, served)
      {
        assert served[i..][1..] == served[i + 1..];
        var found := Lookup(history, served[i].frameId);
        if found.None? {
          expired := expired + 1;
          continue;
        }
        if found.value.id <= acknowledged {
          continue;
        }
        var count := |found.value.packets|;
        var ids := PacketIds(served[i]);
        QueuePackets(found.value.id, if ids.None? then seq(count, k requires 0 <= k < count => k) else ids.value, count);
      }
    }
  }

  // ------------------------------------------------------ what gets queued

  ghost predicate NoneTwice(queue: seq<Repair>) {
    forall i, j | 0 <= i < j < |queue| :: queue[i] != queue[j]
  }

  /** Whether a request is for this packet: the frame found by its byte, not acknowledged, and named in it. */
  predicate IsFor(history: seq<Kept>, acknowledged: int, nack: Nack, key: Repair) {
    var found := Lookup(history, nack.frameId);
    && found.Some? && found.value.id == key.frame && acknowledged < key.frame
    && key.packet < |found.value.packets| && AsksFor(nack, key.packet)
  }

  lemma {:induction false} QueueIdsMembers(queue: seq<Repair>, frame: u32, ids: seq<nat>, count: nat)
    requires NoneTwice(queue) && |queue| <= MAX_REPAIR_QUEUE
    ensures var longer := QueueIds(queue, frame, ids, count);
            && NoneTwice(longer) && queue <= longer && |longer| <= MAX_REPAIR_QUEUE
            && (forall key | key in longer :: key in queue || (key.frame == frame && key.packet < count && key.packet in ids))
            && (|longer| < MAX_REPAIR_QUEUE ==>
                  forall id | id in ids && id < count :: Repair(frame, id) in longer)
    decreases |ids|
  {
    if ids != [] && |queue| < MAX_REPAIR_QUEUE {
      var key := Repair(frame, ids[0]);
      var next := if ids[0] < count && key !in queue then queue + [key] else queue;
      QueueIdsMembers(next, frame, ids[1..], count);
      assert ids[0] < count ==> key in next;
    }
  }

  lemma QueueNackMembers(queue: seq<Repair>, history: seq<Kept>, acknowledged: int, nack: Nack)
    requires NoneTwice(queue) && |queue| <= MAX_REPAIR_QUEUE
    ensures var longer := QueueNack(queue, history, acknowledged, nack);
            && NoneTwice(longer) && queue <= longer && |longer| <= MAX_REPAIR_QUEUE
            && (forall key | key in longer :: key in queue || IsFor(history, acknowledged, nack, key))
            && (|longer| < MAX_REPAIR_QUEUE ==>
                  forall key | IsFor(history, acknowledged, nack, key) :: key in longer)
  {
    var found := Lookup(history, nack.frameId);
    if found.Some? && found.value.id > acknowledged {
      var count := |found.value.packets|;
      QueueIdsMembers(queue, found.value.id, Wanted(nack, count), count);
      forall id: nat | id < count
        ensures id in Wanted(nack, count) <==> AsksFor(nack, id)
      {
        WantedAsked(nack, count, id);
      }
      forall key | IsFor(history, acknowledged, nack, key) && |QueueNack(queue, history, acknowledged, nack)| < MAX_REPAIR_QUEUE
        ensures key in QueueNack(queue, history, acknowledged, nack)
      {
        assert key == Repair(found.value.id, key.packet);
      }
    }
  }

  /**
   * The queue never holds a packet twice nor more than 4096, loses nothing it
   * held, and, short of that bound, gains exactly the packets asked for.
   */
  lemma {:induction false} QueuedExactly(queue: seq<Repair>, history: seq<Kept>, acknowledged: int, nacks: seq<Nack>)
    requires NoneTwice(queue) && |queue| <= MAX_REPAIR_QUEUE
    ensures var longer := QueueAll(queue, history, acknowledged, nacks);
            && NoneTwice(longer) && queue <= longer && |longer| <= MAX_REPAIR_QUEUE
            && (forall key | key in longer :: key in queue || exists nack :: nack in nacks && IsFor(history, acknowledged, nack, key))
            && (|longer| < MAX_REPAIR_QUEUE ==>
                  forall nack, key | nack in nacks && IsFor(history, acknowledged, nack, key) :: key in longer)
    decreases |nacks|
  {
    if nacks != [] {
      QueueNackMembers(queue, history, acknowledged, nacks[0]);
      QueuedExactly(QueueNack(queue, history, acknowledged, nacks[0]), history, acknowledged, nacks[1..]);
      assert forall nack | nack in nacks :: nack == nacks[0] || nack in nacks[1..];
    }
  }

  /** The queue after a report. */
  function ReportQueued(queue: seq<Repair>, history: seq<Kept>, acknowledged: int, nacks: seq<Nack>): seq<Repair> {
    QueueAll(queue, history, acknowledged, FirstNacks(nacks))
  }

  /** Likewise of a whole report, of whose requests the first 256 are served. */
  lemma ReportQueuedExactly(queue: seq<Repair>, history: seq<Kept>, acknowledged: int, nacks: seq<Nack>)
    requires NoneTwice(queue) && |queue| <= MAX_REPAIR_QUEUE
    ensures var longer := ReportQueued(queue, history, acknowledged, nacks);
            && NoneTwice(longer) && queue <= longer && |longer| <= MAX_REPAIR_QUEUE
            && (forall key | key in longer ::
                  key in queue || exists i :: 0 <= i < |nacks| && i < 256 && IsFor(history, acknowledged, nacks[i], key))
            && (|longer| < MAX_REPAIR_QUEUE ==>
                  forall i, key | 0 <= i < |nacks| && i < 256 && IsFor(history, acknowledged, nacks[i], key) :: key in longer)
  {
    var served := FirstNacks(nacks);
    QueuedExactly(queue, history, acknowledged, served);
    assert forall i | 0 <= i < |served| :: served[i] == nacks[i];
    assert forall i | 0 <= i < |nacks| && i < 256 :: nacks[i] == served[i];
  }

  /** Requests that come too late: no frame kept has an id that ends in their byte. */
  ghost predicate TooLate(history: seq<Kept>, nack: Nack) {
    forall kept | kept in history :: kept.id % 256 != nack.frameId
  }

  lemma {:induction false} LookupNone(history: seq<Kept>, wire: byte)
    ensures Lookup(history, wire).None? <==> forall kept | kept in history :: kept.id % 256 != wire
  {
    if history != [] {
      LookupNone(history[1..], wire);
      assert forall kept | kept in history :: kept == history[0] || kept in history[1..];
    }
  }

  ghost function LateOnes(history: seq<Kept>, nacks: seq<Nack>): set<nat> {
    set i: nat | i < |nacks| && TooLate(history, nacks[i])
  }

  lemma LateOnesFront(history: seq<Kept>, nacks: seq<Nack>)
    requires nacks != []
    ensures |LateOnes(history, nacks)| == (if TooLate(history, nacks[0]) then 1 else 0) + |LateOnes(history, nacks[1..])|
  {
    var all, later := LateOnes(history, nacks), LateOnes(history, nacks[1..]);
    forall j: nat
      ensures j in all - {0} <==> j > 0 && j - 1 in later
    {
      if 0 < j < |nacks| {
        assert nacks[1..][j - 1] == nacks[j];
      }
    }
    Shifted(later, all - {0});
    assert 0 in all <==> TooLate(history, nacks[0]);
    assert 0 in all ==> all == all - {0} + {0};
    assert 0 !in all ==> all == all - {0};
  }

  lemma {:induction false} Shifted(a: set<nat>, b: set<nat>)
    requires forall j: nat :: j in b <==> j > 0 && j - 1 in a
    ensures |a| == |b|
  {
    if a != {} {
      var x :| x in a;
      Shifted(a - {x}, b - {x + 1});
    } else if y :| y in b {
      assert false;
    }
  }

  /** The count returned is the number of served requests that came too late. */
  lemma {:induction false} ExpiredCounts(history: seq<Kept>, nacks: seq<Nack>)
    ensures Expired(history, nacks) == |LateOnes(history, nacks)|
  {
    if nacks != [] {
      LookupNone(history, nacks[0].frameId);
      LateOnesFront(history, nacks);
      ExpiredCounts(history, nacks[1..]);
    }
  }

  // ------------------------------------------------------ finding the frame

  /** A sender between frames; `sent` are the packets of every frame so far, by id. */
  datatype Sender = Sender(window: Window, history: seq<Kept>, sent: seq<seq<bytes>>)

  datatype Event = Sends(packets: seq<bytes>, now: nat) | Hears(wire: byte, time: Option<u64>, now: nat)

  function AfterEvent(s: Sender, e: Event): Sender {
    match e
    case Hears(wire, time, now) => s.(window := AfterAck(s.window, wire, time, now))
    case Sends(packets, now) =>
      if !CanSend(s.window) || |s.sent| >= 0x1_0000_0000 then s
      else
        var window := AfterSent(s.window, now);
        Sender(window, Pruned(s.history + [Kept(|s.sent|, now, packets)], now, window.checkpoint), s.sent + [packets])
  }

  function SenderAfter(run: seq<Event>): Sender {
    if run == [] then Sender(Fresh(0), [], [])
    else AfterEvent(SenderAfter(run[..|run| - 1]), run[|run| - 1])
  }

  /** The history holds the most recent frames, in order, and all those not acknowledged. */
  ghost predicate Recent(history: seq<Kept>, s: Sender) {
    && Pending(s.window) <= |history| <= |s.sent| <= 0x1_0000_0000
    && forall i | 0 <= i < |history| ::
         var id := |s.sent| - |history| + i;
         history[i].id == id && history[i].packets == s.sent[id]
  }

  ghost predicate Current(s: Sender) {
    Bounded(s.window) && |s.sent| == s.window.lastSent + 1 && Recent(s.history, s) && |s.history| <= RETRANSMIT_HISTORY_MAX
  }

  lemma {:induction false} PruneKeepsRecent(history: seq<Kept>, s: Sender, now: nat)
    requires Bounded(s.window) && |s.sent| == s.window.lastSent + 1 && Recent(history, s)
    ensures Recent(Pruned(history, now, s.window.checkpoint), s)
    ensures |Pruned(history, now, s.window.checkpoint)| <= RETRANSMIT_HISTORY_MAX
  {
    if Drops(history, now, s.window.checkpoint) {
      PruneKeepsRecent(history[1..], s, now);
    }
  }

  lemma {:induction false} AlwaysCurrent(run: seq<Event>)
    ensures Current(SenderAfter(run))
  {
    if run != [] {
      var s, e := SenderAfter(run[..|run| - 1]), run[|run| - 1];
      AlwaysCurrent(run[..|run| - 1]);
      if e.Sends? && CanSend(s.window) && |s.sent| < 0x1_0000_0000 {
        var s' := AfterEvent(s, e);
        PruneKeepsRecent(s.history + [Kept(|s.sent|, e.now, e.packets)], s', e.now);
      }
    }
  }

  lemma ByteTellsApart(id: nat, ahead: nat)
    requires 0 < ahead < 256
    ensures (id + ahead) % 256 != id % 256
  {
  }

  lemma {:induction false} LookupFinds(history: seq<Kept>, base: nat, i: nat)
    requires i < |history| <= 256
    requires forall j | 0 <= j < |history| :: history[j].id == base + j
    ensures Lookup(history, (base + i) % 256) == Some(history[i])
  {
    if i > 0 {
      ByteTellsApart(base, i);
      LookupFinds(history[1..], base + 1, i - 1);
    }
  }

  lemma AwaitedIsKept(s: Sender, id: nat)
    requires Current(s) && s.window.checkpoint < id <= s.window.lastSent
    ensures var i := id - (|s.sent| - |s.history|);
            0 <= i < |s.history| && s.history[i].id == id && s.history[i].packets == s.sent[id]
  {
    var i := id - (|s.sent| - |s.history|);
    assert s.history[i].id == |s.sent| - |s.history| + i;
  }

  /**
   * Over any run, eight bits are enough: a request for a frame still awaited
   * finds that very frame and no other, with the packets it was sent as.
   */
  lemma AwaitedFrameFound(run: seq<Event>, id: nat)
    requires SenderAfter(run).window.checkpoint < id <= SenderAfter(run).window.lastSent
    ensures var s := SenderAfter(run);
            var found := Lookup(s.history, id % 256);
            found.Some? && found.value.id == id && id < |s.sent| && found.value.packets == s.sent[id]
  {
    AlwaysCurrent(run);
    var s := SenderAfter(run);
    AwaitedIsKept(s, id);
    var base := |s.sent| - |s.history|;
    LookupFinds(s.history, base, id - base);
  }

  // -------------------------------------------------------------- rebuilt

  /** The packets of one frame that a queue sends again. */
  function Resent(queue: seq<Repair>, frame: u32, packets: seq<bytes>): seq<bytes> {
    if queue == [] then []
    else
      var rest := Resent(queue[1..], frame, packets);
      if queue[0].frame == frame && queue[0].packet < |packets| then [packets[queue[0].packet]] + rest else rest
  }

  lemma {:induction false} ResentMembers(queue: seq<Repair>, frame: u32, packets: seq<bytes>, p: bytes)
    ensures p in Resent(queue, frame, packets)
       <==> exists id :: 0 <= id < |packets| && packets[id] == p && Repair(frame, id) in queue
  {
    if queue != [] {
      ResentMembers(queue[1..], frame, packets, p);
      var rest := queue[1..];
      assert forall key :: key in queue <==> key == queue[0] || key in rest;
      if queue[0].frame == frame && queue[0].packet < |packets| {
        assert queue[0] == Repair(frame, queue[0].packet);
      }
    }
  }

  /** Whether a report asks for packet `id` of a frame. */
  ghost predicate Requested(nacks: seq<Nack>, frame: u32, id: nat) {
    exists nack :: nack in nacks && nack.frameId == frame % 256 && AsksFor(nack, id)
  }

  ghost predicate Distinct(packets: seq<bytes>) {
    forall i, j | 0 <= i < j < |packets| :: packets[i] != packets[j]
  }

  lemma PacketsDistinct(stream: Stream, frame: Frame, first: u16)
    requires |frame.payload| <= 0x1_0000 * 1181
    ensures Distinct(Packets(stream, frame, first)) && |Packets(stream, frame, first)| <= 0x1_0000
  {
    var packets := Packets(stream, frame, first);
    UpToCarry(stream, frame, first, Total(|frame.payload|));
    forall i, j | 0 <= i < j < |packets|
      ensures packets[i] != packets[j]
    {
      assert Read(packets[i]).value.id == i && Read(packets[j]).value.id == j;
    }
  }

  /** From an empty queue that does not fill up, a packet of the frame goes out again exactly when it was requested. */
  lemma ResentWhenRequested(history: seq<Kept>, acknowledged: int, nacks: seq<Nack>, kept: Kept, id: nat)
    requires Lookup(history, kept.id % 256) == Some(kept) && acknowledged < kept.id
    requires Distinct(kept.packets) && id < |kept.packets|
    requires |QueueAll([], history, acknowledged, nacks)| < MAX_REPAIR_QUEUE
    ensures kept.packets[id] in Resent(QueueAll([], history, acknowledged, nacks), kept.id, kept.packets)
       <==> Requested(nacks, kept.id, id)
  {
    var queue, key := QueueAll([], history, acknowledged, nacks), Repair(kept.id, id);
    QueuedExactly([], history, acknowledged, nacks);
    ResentMembers(queue, kept.id, kept.packets, kept.packets[id]);
    if Requested(nacks, kept.id, id) {
      var nack :| nack in nacks && nack.frameId == kept.id % 256 && AsksFor(nack, id);
      assert IsFor(history, acknowledged, nack, key);
    }
    if key in queue {
      var nack :| nack in nacks && IsFor(history, acknowledged, nack, key);
      assert Lookup(history, nack.frameId).value.id == kept.id;
    }
  }

  /**
   * Lose, ask, resend, rebuild.  `got` arrived at first; `received` is that and
   * what the sender sends again, in any order and number.  The payload is
   * rebuilt exactly when each packet either arrived or was asked for; packet
   * 0xFFFF of the longest frames only as part of the whole frame.
   */
  lemma NackedFrameRebuilt(
      stream: Stream, frame: Frame, first: u16, history: seq<Kept>, kept: Kept, acknowledged: int,
      nacks: seq<Nack>, got: seq<bytes>, received: seq<bytes>)
    requires |frame.payload| <= 0x1_0000 * 1181 && |nacks| <= 256
    requires Lookup(history, frame.id % 256) == Some(kept) && acknowledged < kept.id
    requires kept.id == frame.id && kept.packets == Packets(stream, frame, first)
    requires |ReportQueued([], history, acknowledged, nacks)| < MAX_REPAIR_QUEUE
    requires forall p | p in got :: p in kept.packets
    requires forall p :: p in received
                  <==> p in got || p in Resent(ReportQueued([], history, acknowledged, nacks), kept.id, kept.packets)
    ensures Rebuild(received) == Some(frame.payload)
       <==> forall id | 0 <= id < |kept.packets| :: kept.packets[id] in got || Requested(nacks, frame.id, id)
    ensures forall id | 0 <= id < |kept.packets| && id == 0xFFFF ::
              Requested(nacks, frame.id, id) <==> exists nack :: nack in nacks && nack.frameId == frame.id % 256 && nack.packetId == 0xFFFF
  {
    var queue := ReportQueued([], history, acknowledged, nacks);
    PacketsDistinct(stream, frame, first);
    forall id | 0 <= id < |kept.packets|
      ensures kept.packets[id] in received <==> kept.packets[id] in got || Requested(nacks, frame.id, id)
    {
      ResentWhenRequested(history, acknowledged, nacks, kept, id);
    }
    forall p | p in received
      ensures p in kept.packets
    {
      ResentMembers(queue, kept.id, kept.packets, p);
    }
    FrameRebuilt(stream, frame, first, received);
  }

  // ------------------------------------------------- what asking can achieve

  lemma {:induction false} OneByOne(missing: set<u16>, frame: u32) returns (nacks: seq<Nack>)
    requires 0xFFFF !in missing
    ensures forall id: u16 :: Requested(nacks, frame, id) <==> id in missing
  {
    nacks := [];
    if missing != {} {
      var one :| one in missing;
      var rest := OneByOne(missing - {one}, frame);
      var nack := Nack(frame % 256, one, 0);
      nacks := rest + [nack];
      forall id: u16
        ensures Requested(nacks, frame, id) <==> id in missing
      {
        assert AsksFor(nack, id) <==> id == one;
        assert nack in nacks;
        assert Requested(rest, frame, id) ==> exists n :: n in nacks && n.frameId == frame % 256 && AsksFor(n, id);
      }
    }
  }

  ghost predicate AsksExactly(nacks: seq<Nack>, frame: u32, missing: set<u16>, count: nat)
    requires count <= 0x1_0000
  {
    forall id: u16 | id < count :: Requested(nacks, frame, id) <==> id in missing
  }

  /**
   * Whatever is missing, some requests ask for exactly that, unless it includes
   * packet 0xFFFF and is not everything; then only the whole frame will do.
   */
  lemma MissingCanBeAsked(frame: u32, missing: set<u16>, count: nat)
    requires count <= 0x1_0000 && forall id | id in missing :: id < count
    ensures (exists nacks :: AsksExactly(nacks, frame, missing, count))
       <==> 0xFFFF !in missing || forall id: u16 | id < count :: id in missing
    ensures exists nacks :: |nacks| == 1 && forall id: u16 | id in missing :: Requested(nacks, frame, id)
  {
    var whole := [Nack(frame % 256, 0xFFFF, 0)];
    assert forall id: u16 :: Requested(whole, frame, id) by {
      assert whole[0] in whole;
    }
    if 0xFFFF !in missing {
      var nacks := OneByOne(missing, frame);
      assert AsksExactly(nacks, frame, missing, count);
    } else if forall id: u16 | id < count :: id in missing {
      assert AsksExactly(whole, frame, missing, count);
    } else if nacks :| AsksExactly(nacks, frame, missing, count) {
      WholeOrNot(nacks, frame, missing, count);
    }
  }

  lemma WholeOrNot(nacks: seq<Nack>, frame: u32, missing: set<u16>, count: nat)
    requires count <= 0x1_0000 && (forall id | id in missing :: id < count)
    requires 0xFFFF in missing && AsksExactly(nacks, frame, missing, count)
    ensures forall id: u16 | id < count :: id in missing
  {
    assert Requested(nacks, frame, 0xFFFF);
    var nack :| nack in nacks && nack.frameId == frame % 256 && AsksFor(nack, 0xFFFF);
    forall id: u16 | id < count
      ensures id in missing
    {
      assert AsksFor(nack, id);
      assert Requested(nacks, frame, id);
    }
  }

  function KeysOf(frame: u32, count: nat): set<Repair> {
    if count == 0 then {} else KeysOf(frame, count - 1) + {Repair(frame, count - 1)}
  }

  lemma {:induction false} KeysOfSize(frame: u32, count: nat)
    ensures |KeysOf(frame, count)| <= count
    ensures forall id | 0 <= id < count :: Repair(frame, id) in KeysOf(frame, count)
  {
    if count > 0 {
      KeysOfSize(frame, count - 1);
    }
  }

  lemma {:induction false} NoneTwiceSize(queue: seq<Repair>, keys: set<Repair>)
    requires NoneTwice(queue) && forall key | key in queue :: key in keys
    ensures |queue| <= |keys|
  {
    if queue != [] {
      var last := queue[|queue| - 1];
      NoneTwiceSize(queue[..|queue| - 1], keys - {last});
    }
  }

  /** The queue has room for all of the largest frame, so requests for one frame never fill it. */
  lemma OneFrameFits(history: seq<Kept>, kept: Kept, acknowledged: int, nacks: seq<Nack>)
    requires Lookup(history, kept.id % 256) == Some(kept) && |kept.packets| <= Total(MAX_ENCODED_FRAME_BYTES)
    requires forall nack | nack in nacks :: nack.frameId == kept.id % 256
    ensures |ReportQueued([], history, acknowledged, nacks)| < MAX_REPAIR_QUEUE
  {
    var queue, count := ReportQueued([], history, acknowledged, nacks), |kept.packets|;
    ReportQueuedExactly([], history, acknowledged, nacks);
    KeysOfSize(kept.id, count);
    forall key | key in queue
      ensures key in KeysOf(kept.id, count)
    {
      var i :| 0 <= i < |nacks| && i < 256 && IsFor(history, acknowledged, nacks[i], key);
      assert nacks[i] in nacks && key == Repair(kept.id, key.packet);
    }
    NoneTwiceSize(queue, KeysOf(kept.id, count));
    TotalClosed(MAX_ENCODED_FRAME_BYTES);
  }
}
