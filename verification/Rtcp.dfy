/**
 * Cast Streaming RTCP: the receiver's compound datagrams and the sender report.
 *
 * A datagram is used only when all of it validates.  `Blocks` is the
 * declarative reading of a datagram; the methods walk it by offset.
 */
module Rtcp {
  import opened Common

  const PT_SENDER_REPORT := 200
  const PT_RECEIVER_REPORT := 201
  const PT_APPLICATION_DEFINED := 204
  const PT_TRANSPORT_FEEDBACK := 205
  const PT_PAYLOAD_SPECIFIC := 206
  const PT_EXTENDED_REPORTS := 207

  /** `CAST`, the identifier word of a feedback block. */
  const CAST_IDENTIFIER: bytes := [67, 65, 83, 84]

  // -------------------------------------------------------------- counters

  /** A stream's running counters, as its sender reports give them. */
  datatype SenderStats = SenderStats(packets: u32, octets: u32)

  /** The counters after one more packet; both wrap, and the payload's length is cut first. */
  function Recorded(s: SenderStats, payload: nat): SenderStats {
    SenderStats(Low32(s.packets + 1), Low32(s.octets + Low32(payload)))
  }

  // ------------------------------------------------------------ validation

  predicate Padded(first: byte) {
    first / 32 % 2 == 1
  }

  function Count(first: byte): nat {
    first % 32
  }

  function MinimumSize(kind: byte, count: nat): nat {
    if kind == PT_SENDER_REPORT then 28 + 24 * count
    else if kind == PT_RECEIVER_REPORT then 8 + 24 * count
    else if kind == PT_APPLICATION_DEFINED then 12
    else if kind == PT_PAYLOAD_SPECIFIC || kind == PT_TRANSPORT_FEEDBACK then 12
    else if kind == PT_EXTENDED_REPORTS then 8
    else 4
  }

  /** Size in bytes that a header or an XR item declares in 32-bit words less one. */
  function DeclaredSize(high: byte, low: byte): nat {
    (FromBe16(high, low) + 1) * 4
  }

  /** The items of an extended report from `pos` on fill the block exactly. */
  predicate XrItemsFit(block: bytes, pos: nat)
    decreases |block| - pos
  {
    pos >= |block| ||
    (pos + 4 <= |block| &&
     var size := DeclaredSize(block[pos + 2], block[pos + 3]);
     pos + size <= |block| && (block[pos] == 4 ==> size == 12) && XrItemsFit(block, pos + size))
  }

  predicate NamesCast(block: bytes) {
    |block| >= 16 && block[12..16] == CAST_IDENTIFIER
  }

  /** Length of the loss list that a feedback block declares. */
  function LossBytes(block: bytes): nat
    requires |block| >= 18
  {
    var count: int := block[17];
    4 * count
  }

  /** What is demanded of one block once its padding is off. */
  predicate WellFormed(block: bytes) {
    && |block| >= 4
    && 200 <= block[1] <= 207
    && MinimumSize(block[1], Count(block[0])) <= |block|
    && (block[1] == PT_PAYLOAD_SPECIFIC && Count(block[0]) == 1 ==> |block| == 12)
    && (block[1] == PT_PAYLOAD_SPECIFIC && Count(block[0]) == 15 && NamesCast(block) ==>
          |block| >= 20 && |block| >= 20 + LossBytes(block))
    && (block[1] == PT_EXTENDED_REPORTS ==> XrItemsFit(block, 8))
  }

  type Block = b: bytes | WellFormed(b) witness [0x80, 202, 0, 0]

  /** A block without its padding, and where the next one starts. */
  datatype Cut = Cut(block: Block, end: nat)

  function Checked(block: bytes, end: nat): Option<Cut> {
    if WellFormed(block) then Some(Cut(block, end)) else None
  }

  function FirstBlock(p: bytes): (r: Option<Cut>)
    ensures r.Some? ==> 4 <= |r.value.block| <= r.value.end <= |p| && r.value.block <= p
  {
    if |p| < 4 || p[0] / 64 != 2 || !(200 <= p[1] <= 207) then None
    else
      var end := DeclaredSize(p[2], p[3]);
      if end > |p| then None
      else if !Padded(p[0]) then Checked(p[..end], end)
      else if end != |p| then None
      else
        var padding := p[end - 1];
        if padding == 0 || padding > end - 4 then None else Checked(p[..end - padding], end)
  }

  function Prepend(blocks: seq<Block>, rest: Option<seq<Block>>): Option<seq<Block>> {
    if rest.None? then None else Some(blocks + rest.value)
  }

  lemma PrependTwice(a: seq<Block>, b: seq<Block>, rest: Option<seq<Block>>)
    ensures Prepend(a, Prepend(b, rest)) == Prepend(a + b, rest)
  {
    if rest.Some? {
      assert a + (b + rest.value) == a + b + rest.value;
    }
  }

  lemma PrependNothing(blocks: seq<Block>, rest: Option<seq<Block>>)
    ensures Prepend([], rest) == rest
    ensures Prepend(blocks, Some([])) == Some(blocks)
  {
    if rest.Some? {
      assert [] + rest.value == rest.value;
    }
    assert blocks + [] == blocks;
  }

  /** The blocks of a run of bytes, all of them or none. */
  function Blocks(p: bytes): Option<seq<Block>> {
    if p == [] then Some([])
    else
      match FirstBlock(p)
      case None => None
      case Some(cut) => Prepend([cut.block], Blocks(p[cut.end..]))
  }

  function Validated(p: bytes): Option<seq<Block>> {
    if p == [] then None else Blocks(p)
  }

  /** Walks the items of an extended report. */
  method CheckXrItems(block: bytes) returns (fit: bool)
    requires |block| >= 8
    ensures fit == XrItemsFit(block, 8)
  {
    var pos := 8;
    while pos < |block|
      invariant XrItemsFit(block, 8) == XrItemsFit(block, pos)
      decreases |block| - pos
    {
      if pos + 4 > |block| {
        return false;
      }
      var size := DeclaredSize(block[pos + 2], block[pos + 3]);
      if pos + size > |block| {
        return false;
      }
      if block[pos] == 4 && size != 12 {
        return false;
      }
      pos := pos + size;
    }
    return true;
  }

  /** The checks on one block, in the order they are made. */
  method CheckBlock(header: bytes, block: bytes) returns (ok: bool)
    requires |header| == 4 && 4 <= |block| && header == block[..4] && 200 <= header[1] <= 207
    ensures ok == WellFormed(block)
  {
    assert header[0] == block[0] && header[1] == block[1];
    var count := Count(header[0]);
    if |block| < MinimumSize(header[1], count) {
      return false;
    }
    if header[1] == PT_PAYLOAD_SPECIFIC && count == 1 && |block| != 12 {
      return false;
    }
    if header[1] == PT_PAYLOAD_SPECIFIC && count == 15 && |block| >= 16 && block[12..16] == CAST_IDENTIFIER
       && (|block| < 20 || |block| < 20 + LossBytes(block)) {
      return false;
    }
    if header[1] == PT_EXTENDED_REPORTS {
      ok := CheckXrItems(block);
      return ok;
    }
    return true;
  }

  /** The block at `offset`, without its padding, and the offset behind it. */
  method BlockAt(packet: bytes, offset: nat) returns (r: Option<Cut>)
    requires offset < |packet|
    ensures r == match FirstBlock(packet[offset..])
                 case None => None
                 case Some(cut) => Some(Cut(cut.block, offset + cut.end))
  {
    ghost var p := packet[offset..];
    if offset + 4 > |packet| {
      return None;
    }
    var header := packet[offset..offset + 4];
    assert header == p[..4];
    if header[0] / 64 != 2 || !(200 <= header[1] <= 207) {
      return None;
    }
    var end := offset + DeclaredSize(header[2], header[3]);
    if end > |packet| {
      return None;
    }
    var block := packet[offset..end];
    assert block == p[..end - offset];
    if Padded(header[0]) {
      if end != |packet| {
        return None;
      }
      var padding := block[|block| - 1];
      if padding == 0 || padding > |block| - 4 {
        return None;
      }
      block := block[..|block| - padding];
      assert block == p[..end - offset - padding];
    }
    var ok := CheckBlock(header, block);
    return if ok then Some(Cut(block, end)) else None;
  }

  /** Walks a datagram block by block; `None` unless all of it validates. */
  method ValidatedBlocks(packet: bytes) returns (r: Option<seq<Block>>)
    ensures r == Validated(packet)
  {
    if packet == [] {
      return None;
    }
    var blocks: seq<Block> := [];
    var offset := 0;
    assert packet[0..] == packet;
    PrependNothing([], Blocks(packet));
    while offset < |packet|
      invariant offset <= |packet|
      invariant Blocks(packet) == Prepend(blocks, Blocks(packet[offset..]))
      decreases |packet| - offset
    {
      var cut := BlockAt(packet, offset);
      if cut.None? {
        return None;
      }
      assert packet[offset..][cut.value.end - offset..] == packet[cut.value.end..];
      PrependTwice(blocks, [cut.value.block], Blocks(packet[cut.value.end..]));
      blocks := blocks + [cut.value.block];
      offset := cut.value.end;
    }
    PrependNothing(blocks, None);
    assert packet[offset..] == [];
    return Some(blocks);
  }

  // -------------------------------------------- all or nothing, compositional

  /** Whether the last block of a valid datagram carries padding. */
  predicate EndsPadded(p: bytes)
    requires Blocks(p).Some?
  {
    p != [] && (Padded(p[0]) || EndsPadded(p[FirstBlock(p).value.end..]))
  }

  lemma FirstBlockExtends(a: bytes, b: bytes)
    requires FirstBlock(a).Some? && b != []
    ensures FirstBlock(a + b) == if Padded(a[0]) then None else FirstBlock(a)
  {
    var p := a + b;
    var end := DeclaredSize(a[2], a[3]);
    assert p[0] == a[0] && p[1] == a[1] && p[2] == a[2] && p[3] == a[3];
    assert p[..end] == a[..end];
  }

  /**
   * Sections 6.1 and 6.4 of RFC 3550: a valid datagram takes anything valid
   * behind it, unless it ends in padding, and is void with anything invalid.
   */
  lemma {:induction false} Compose(a: bytes, b: bytes)
    requires Blocks(a).Some? && b != []
    ensures Blocks(a + b) ==
            if EndsPadded(a) then None else Prepend(Blocks(a).value, Blocks(b))
    decreases |a|
  {
    if a == [] {
      assert a + b == b;
      PrependNothing([], Blocks(b));
    } else {
      FirstBlockExtends(a, b);
      var cut := FirstBlock(a).value;
      var rest := a[cut.end..];
      Compose(rest, b);
      if !Padded(a[0]) {
        assert (a + b)[cut.end..] == rest + b;
        assert EndsPadded(a) == EndsPadded(rest);
        PrependTwice([cut.block], Blocks(rest).value, Blocks(b));
      }
    }
  }

  /** The datagram as it lay on the wire, cut where the headers say. */
  function RawBlocks(p: bytes): seq<bytes>
    requires Blocks(p).Some?
  {
    if p == [] then []
    else
      var end := FirstBlock(p).value.end;
      [p[..end]] + RawBlocks(p[end..])
  }

  /** One block and its raw bytes: equal, or short by exactly the count in the last raw byte. */
  predicate Unpads(block: bytes, raw: bytes) {
    && |raw| % 4 == 0
    && 4 <= |block| <= |raw| && block == raw[..|block|]
    && (if Padded(raw[0]) then 0 < raw[|raw| - 1] == |raw| - |block| else block == raw)
  }

  lemma FirstUnpads(p: bytes)
    requires FirstBlock(p).Some?
    ensures Unpads(FirstBlock(p).value.block, p[..FirstBlock(p).value.end])
  {
  }

  /** The blocks, padding restored, tile the datagram ... */
  lemma {:induction false} RawBlocksTile(p: bytes)
    requires Blocks(p).Some?
    ensures Concat(RawBlocks(p)) == p
    decreases |p|
  {
    if p != [] {
      var cut := FirstBlock(p).value;
      var rest := p[cut.end..];
      RawBlocksTile(rest);
      assert RawBlocks(p) == [p[..cut.end]] + RawBlocks(rest);
      assert RawBlocks(p)[1..] == RawBlocks(rest);
    }
  }

  /** ... and each validated block is its raw block without the padding the last byte declares. */
  lemma {:induction false} BlocksUnpad(p: bytes)
    requires Blocks(p).Some?
    ensures |Blocks(p).value| == |RawBlocks(p)|
    ensures forall i | 0 <= i < |RawBlocks(p)| :: Unpads(Blocks(p).value[i], RawBlocks(p)[i])
    decreases |p|
  {
    if p != [] {
      var cut := FirstBlock(p).value;
      var rest := p[cut.end..];
      FirstUnpads(p);
      BlocksUnpad(rest);
      var blocks, raw := Blocks(p).value, RawBlocks(p);
      forall i | 0 <= i < |raw|
        ensures Unpads(blocks[i], raw[i])
      {
        if i > 0 {
          assert blocks[i] == Blocks(rest).value[i - 1] && raw[i] == RawBlocks(rest)[i - 1];
        }
      }
    }
  }

  // --------------------------------------------------------------- reading

  datatype Kind =
    | ReceiverReport
    | PictureLossIndication
    | CastFeedback
    | ExtendedReport
    | ReceiverLog
    | Other(kind: byte)

  function Classify(block: Block): Kind {
    if block[1] == PT_RECEIVER_REPORT then ReceiverReport
    else if block[1] == PT_EXTENDED_REPORTS then ExtendedReport
    else if block[1] == PT_APPLICATION_DEFINED then ReceiverLog
    else if block[1] == PT_PAYLOAD_SPECIFIC && Count(block[0]) == 1 then PictureLossIndication
    else if block[1] == PT_PAYLOAD_SPECIFIC && Count(block[0]) == 15 && NamesCast(block) then CastFeedback
    else Other(block[1])
  }

  /** A validated feedback block holds its whole loss list; a second length test cannot fail. */
  lemma FeedbackFits(block: Block)
    requires Classify(block) == CastFeedback
    ensures |block| >= 20 && 20 + LossBytes(block) <= |block|
  {
  }

  datatype Nack = Nack(frameId: byte, packetId: u16, bitmask: byte)

  datatype Feedback = Feedback(
    receiver: u32,
    time: Option<u64>,
    sender: u32,
    checkpoint: byte,
    nacks: seq<Nack>)

  /** The last receiver reference time among the items from `pos` on. */
  function ItemTime(xr: bytes, pos: nat, before: Option<u64>): Option<u64>
    requires XrItemsFit(xr, pos)
    decreases |xr| - pos
  {
    if pos >= |xr| then before
    else
      var size := DeclaredSize(xr[pos + 2], xr[pos + 3]);
      ItemTime(xr, pos + size, if xr[pos] == 4 then Some(FromBe64(xr[pos + 4..pos + 12])) else before)
  }

  predicate ReportsFor(block: Block, receiver: u32) {
    block[1] == PT_EXTENDED_REPORTS && block[4..8] == Be32(receiver)
  }

  /** The last receiver reference time that `receiver` gives anywhere in the datagram. */
  function ReferenceTime(blocks: seq<Block>, receiver: u32, before: Option<u64>): Option<u64> {
    if blocks == [] then before
    else
      ReferenceTime(blocks[1..], receiver,
                    if ReportsFor(blocks[0], receiver) then ItemTime(blocks[0], 8, before) else before)
  }

  function Nacks(list: bytes): seq<Nack> {
    if |list| < 4 then []
    else [Nack(list[0], FromBe16(list[1], list[2]), list[3])] + Nacks(list[4..])
  }

  function FeedbackOf(block: Block, all: seq<Block>): Feedback
    requires Classify(block) == CastFeedback
  {
    var receiver := FromBe32(block[4..8]);
    Feedback(receiver, ReferenceTime(all, receiver, None), FromBe32(block[8..12]),
             block[16], Nacks(block[20..20 + LossBytes(block)]))
  }

  function FeedbacksIn(blocks: seq<Block>, all: seq<Block>): seq<Feedback> {
    if blocks == [] then []
    else
      (if Classify(blocks[0]) == CastFeedback then [FeedbackOf(blocks[0], all)] else [])
      + FeedbacksIn(blocks[1..], all)
  }

  function Feedbacks(packet: bytes): seq<Feedback> {
    match Validated(packet)
    case None => []
    case Some(blocks) => FeedbacksIn(blocks, blocks)
  }

  method ReadItemTime(xr: Block, before: Option<u64>) returns (time: Option<u64>)
    requires xr[1] == PT_EXTENDED_REPORTS
    ensures time == ItemTime(xr, 8, before)
  {
    time := before;
    var pos := 8;
    while pos < |xr|
      invariant XrItemsFit(xr, pos)
      invariant ItemTime(xr, pos, time) == ItemTime(xr, 8, before)
      decreases |xr| - pos
    {
      var size := DeclaredSize(xr[pos + 2], xr[pos + 3]);
      if xr[pos] == 4 {
        time := Some(FromBe64(xr[pos + 4..pos + 12]));
      }
      pos := pos + size;
    }
  }

  method ReadReferenceTime(blocks: seq<Block>, receiver: u32) returns (time: Option<u64>)
    ensures time == ReferenceTime(blocks, receiver, None)
  {
    time := None;
    for i := 0 to |blocks|
      invariant ReferenceTime(blocks[i..], receiver, time) == ReferenceTime(blocks, receiver, None)
    {
      var xr := blocks[i];
      assert blocks[i..][1..] == blocks[i + 1..];
      if xr[1] != PT_EXTENDED_REPORTS || xr[4..8] != Be32(receiver) {
        continue;
      }
      time := ReadItemTime(xr, time);
    }
  }

  method ReadNacks(list: bytes) returns (nacks: seq<Nack>)
    requires |list| % 4 == 0
    ensures nacks == Nacks(list)
  {
    nacks := [];
    var pos := 0;
    while pos < |list|
      invariant pos <= |list| && pos % 4 == 0
      invariant nacks + Nacks(list[pos..]) == Nacks(list)
    {
      assert list[pos..][4..] == list[pos + 4..];
      nacks := nacks + [Nack(list[pos], FromBe16(list[pos + 1], list[pos + 2]), list[pos + 3])];
      pos := pos + 4;
    }
  }

  method ReadFeedback(block: Block, blocks: seq<Block>) returns (feedback: Feedback)
    requires Classify(block) == CastFeedback
    ensures feedback == FeedbackOf(block, blocks)
  {
    var receiver := FromBe32(block[4..8]);
    var sender := FromBe32(block[8..12]);
    var time := ReadReferenceTime(blocks, receiver);
    var nacks := ReadNacks(block[20..20 + LossBytes(block)]);
    return Feedback(receiver, time, sender, block[16], nacks);
  }

  /** Every Cast feedback of a datagram; nothing at all from an invalid one. */
  method ParseCastFeedbacks(packet: bytes) returns (feedbacks: seq<Feedback>)
    ensures feedbacks == Feedbacks(packet)
  {
    var validated := ValidatedBlocks(packet);
    if validated.None? {
      return [];
    }
    var blocks := validated.value;
    feedbacks := [];
    for i := 0 to |blocks|
      invariant feedbacks + FeedbacksIn(blocks[i..], blocks) == FeedbacksIn(blocks, blocks)
    {
      assert blocks[i..][1..] == blocks[i + 1..];
      if Classify(blocks[i]) != CastFeedback || |blocks[i]| < 20 {
        continue;
      }
      var feedback := ReadFeedback(blocks[i], blocks);
      feedbacks := feedbacks + [feedback];
    }
  }

  /** Some block of a valid datagram asks, in the name of `receiver`, for a new picture of `sender`. */
  predicate PictureLossFor(packet: bytes, receiver: u32, sender: u32) {
    match Validated(packet)
    case None => false
    case Some(blocks) =>
      exists i :: 0 <= i < |blocks| && Classify(blocks[i]) == PictureLossIndication
                  && blocks[i][4..8] == Be32(receiver) && blocks[i][8..12] == Be32(sender)
  }
}
