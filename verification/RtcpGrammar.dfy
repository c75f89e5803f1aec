/**
 * The grammar of the datagrams that are accepted, and their meaning.
 *
 * A `Packet` is one RTCP packet in its own terms: report blocks of 24 bytes
 * (section 6.4 of RFC 3550), application-defined data (section 6.7), feedback
 * messages (section 6.1 of RFC 4585), extended report items (section 3 of
 * RFC 3611), and the Cast feedback.  The parser accepts exactly the datagrams
 * that print some packets, and reads from them exactly the feedbacks among
 * those packets.
 */
module RtcpGrammar {
  import opened Common
  import opened Rtcp
  import RtcpPrint

  // --------------------------------------------------------------- packets

  datatype Item = TimeItem(specific: byte, time: u64) | OtherItem(kind: byte, specific: byte, words: bytes)

  /** The longest that 16 bits can declare, less the first word. */
  const LONGEST := 4 * 0xFFFF

  predicate ItemValid(item: Item) {
    item.OtherItem? ==> item.kind != 4 && |item.words| % 4 == 0 && |item.words| <= LONGEST
  }

  function PrintItem(item: Item): bytes
    requires ItemValid(item)
  {
    match item
    case TimeItem(specific, time) => [4, specific] + Be16(2) + Be64(time)
    case OtherItem(kind, specific, words) => [kind, specific] + Be16(|words| / 4) + words
  }

  function PrintItems(items: seq<Item>): bytes
    requires forall item | item in items :: ItemValid(item)
  {
    if items == [] then [] else PrintItem(items[0]) + PrintItems(items[1..])
  }

  datatype Packet =
    | SenderPacket(ssrc: u32, info: bytes, reports: seq<bytes>, more: bytes)
    | ReceiverPacket(ssrc: u32, reports: seq<bytes>, more: bytes)
    | SourcesPacket(goodbye: bool, count: nat, body: bytes)
    | ApplicationPacket(subtype: nat, ssrc: u32, name: bytes, body: bytes)
    | TransportPacket(format: nat, ssrc: u32, media: u32, body: bytes)
    | PicturePacket(ssrc: u32, media: u32)
    | CastPacket(ssrc: u32, media: u32, checkpoint: byte, nacks: seq<Nack>, delay: u16, more: bytes)
    | PayloadPacket(format: nat, ssrc: u32, media: u32, body: bytes)
    | ExtendedPacket(reserved: nat, ssrc: u32, items: seq<Item>)

  predicate AreReports(reports: seq<bytes>) {
    |reports| <= 31 && forall r | r in reports :: |r| == 24
  }

  predicate Valid(p: Packet) {
    match p
    case SenderPacket(_, info, reports, _) => |info| == 20 && AreReports(reports)
    case ReceiverPacket(_, reports, _) => AreReports(reports)
    case SourcesPacket(_, count, _) => count <= 31
    case ApplicationPacket(subtype, _, name, _) => subtype <= 31 && |name| == 4
    case TransportPacket(format, _, _, _) => format <= 31
    case PicturePacket(_, _) => true
    case CastPacket(_, _, _, nacks, _, _) => |nacks| <= 255
    // Any other feedback about the payload: no picture-loss request, and not one of Cast's.
    case PayloadPacket(format, _, _, body) =>
      format <= 31 && format != 1 && !(format == 15 && |body| >= 4 && body[..4] == CAST_IDENTIFIER)
    case ExtendedPacket(reserved, _, items) => reserved <= 31 && forall item | item in items :: ItemValid(item)
  }

  function TypeOf(p: Packet): byte {
    match p
    case SenderPacket(_, _, _, _) => 200
    case ReceiverPacket(_, _, _) => 201
    case SourcesPacket(goodbye, _, _) => if goodbye then 203 else 202
    case ApplicationPacket(_, _, _, _) => 204
    case TransportPacket(_, _, _, _) => 205
    case PicturePacket(_, _) => 206
    case CastPacket(_, _, _, _, _, _) => 206
    case PayloadPacket(_, _, _, _) => 206
    case ExtendedPacket(_, _, _) => 207
  }

  /** The five low bits of the first byte. */
  function FormatOf(p: Packet): (n: nat)
    requires Valid(p)
    ensures n <= 31
  {
    match p
    case SenderPacket(_, _, reports, _) => |reports|
    case ReceiverPacket(_, reports, _) => |reports|
    case SourcesPacket(_, count, _) => count
    case ApplicationPacket(subtype, _, _, _) => subtype
    case TransportPacket(format, _, _, _) => format
    case PicturePacket(_, _) => 1
    case CastPacket(_, _, _, _, _, _) => 15
    case PayloadPacket(format, _, _, _) => format
    case ExtendedPacket(reserved, _, _) => reserved
  }

  /** What follows the first word. */
  function Body(p: Packet): bytes
    requires Valid(p)
  {
    match p
    case SenderPacket(ssrc, info, reports, more) => Be32(ssrc) + (info + (Concat(reports) + more))
    case ReceiverPacket(ssrc, reports, more) => Be32(ssrc) + (Concat(reports) + more)
    case SourcesPacket(_, _, body) => body
    case ApplicationPacket(_, ssrc, name, body) => Be32(ssrc) + (name + body)
    case TransportPacket(_, ssrc, media, body) => Be32(ssrc) + (Be32(media) + body)
    case PicturePacket(ssrc, media) => Be32(ssrc) + Be32(media)
    case CastPacket(ssrc, media, checkpoint, nacks, delay, more) =>
      Be32(ssrc) + (Be32(media) + (CAST_IDENTIFIER + ([checkpoint, |nacks|] + Be16(delay) + (RtcpPrint.PrintNacks(nacks) + more))))
    case PayloadPacket(_, ssrc, media, body) => Be32(ssrc) + (Be32(media) + body)
    case ExtendedPacket(_, ssrc, items) => Be32(ssrc) + PrintItems(items)
  }

  /** Whether a block, its padding off, is this packet. */
  predicate Is(block: bytes, p: Packet)
    requires Valid(p)
  {
    |block| >= 4 && block[1] == TypeOf(p) && Count(block[0]) == FormatOf(p) && block[4..] == Body(p)
  }

  // ------------------------------------------- every packet is well formed

  lemma {:induction false} ReportsLength(reports: seq<bytes>)
    requires forall r | r in reports :: |r| == 24
    ensures |Concat(reports)| == 24 * |reports|
  {
    if reports != [] {
      ReportsLength(reports[1..]);
    }
  }

  lemma ItemThenRest(front: bytes, item: Item, rest: bytes)
    requires ItemValid(item)
    requires var block := front + PrintItem(item) + rest;
             |front + PrintItem(item)| <= |block| && XrItemsFit(block, |front + PrintItem(item)|)
    ensures XrItemsFit(front + PrintItem(item) + rest, |front|)
  {
    ItemHeader(front, item, rest);
  }

  /** Walking the items printed behind `front` is walking them one by one. */
  lemma {:induction false} ItemsFit(front: bytes, items: seq<Item>)
    requires forall item | item in items :: ItemValid(item)
    ensures XrItemsFit(front + PrintItems(items), |front|)
    decreases |items|
  {
    if items != [] {
      assert front + PrintItems(items) == front + PrintItem(items[0]) + PrintItems(items[1..]);
      ItemsFit(front + PrintItem(items[0]), items[1..]);
      ItemThenRest(front, items[0], PrintItems(items[1..]));
    }
  }

  lemma ItemShape(item: Item)
    requires ItemValid(item)
    ensures var s := PrintItem(item);
            && |s| >= 4 && DeclaredSize(s[2], s[3]) == |s| && (s[0] == 4 <==> item.TimeItem?)
            && (item.TimeItem? ==> |s| == 12 && s[4..12] == Be64(item.time))
  {
  }

  lemma ItemHeader(front: bytes, item: Item, rest: bytes)
    requires ItemValid(item)
    ensures var block, pos := front + PrintItem(item) + rest, |front|;
            && |PrintItem(item)| >= 4 && DeclaredSize(block[pos + 2], block[pos + 3]) == |PrintItem(item)|
            && (block[pos] == 4 <==> item.TimeItem?)
            && (item.TimeItem? ==> |PrintItem(item)| == 12 && block[pos + 4..pos + 12] == Be64(item.time))
  {
    ItemShape(item);
    Placed(front, PrintItem(item), rest);
  }

  lemma Placed(front: bytes, s: bytes, rest: bytes)
    ensures (front + s + rest)[|front|..|front| + |s|] == s
    ensures forall i | 0 <= i < |s| :: (front + s + rest)[|front| + i] == s[i]
    ensures |s| >= 12 ==> (front + s + rest)[|front| + 4..|front| + 12] == s[4..12]
  {
  }

  /** The layout of a feedback, field by field. */
  lemma CastFields(block: bytes, p: Packet)
    requires p.CastPacket? && Valid(p) && Is(block, p)
    ensures |block| >= 20 + 4 * |p.nacks|
    ensures block[4..8] == Be32(p.ssrc) && block[8..12] == Be32(p.media) && block[12..16] == CAST_IDENTIFIER
    ensures block[16] == p.checkpoint && block[17] == |p.nacks| && block[20..20 + 4 * |p.nacks|] == RtcpPrint.PrintNacks(p.nacks)
  {
    RtcpPrint.NacksRoundTrip(p.nacks);
    var body := Body(p);
    assert forall i | 4 <= i < |block| :: block[i] == body[i - 4];
    assert body[16..16 + 4 * |p.nacks|] == RtcpPrint.PrintNacks(p.nacks);
    assert block[20..20 + 4 * |p.nacks|] == body[16..16 + 4 * |p.nacks|];
  }

  lemma PacketWellFormed(block: bytes, p: Packet)
    requires Valid(p) && Is(block, p)
    ensures WellFormed(block)
  {
    match p
    case SenderPacket(_, _, reports, _) => ReportsLength(reports);
    case ReceiverPacket(_, reports, _) => ReportsLength(reports);
    case CastPacket(_, _, _, _, _, _) => CastFields(block, p);
    case PayloadPacket(_, _, _, body) =>
      if |block| >= 16 {
        assert block[4..][8..] == body && block[4..][8..] == block[12..];
        assert block[12..][..4] == block[12..16];
      }
    case ExtendedPacket(_, ssrc, items) =>
      ItemsFit(block[..4] + Be32(ssrc), items);
      assert block == block[..4] + Be32(ssrc) + PrintItems(items);
    case _ =>
  }

  // ------------------------------------------- every block is some packet

  lemma Parts16(high: byte, low: byte)
    ensures (256 * high + low) / 256 == high && (256 * high + low) % 256 == low
  {
  }

  lemma Parts32(high: u16, low: u16)
    ensures (0x1_0000 * high + low) / 0x1_0000 == high && (0x1_0000 * high + low) % 0x1_0000 == low
  {
  }

  lemma Parts64(high: u32, low: u32)
    ensures (0x1_0000_0000 * high + low) / 0x1_0000_0000 == high && (0x1_0000_0000 * high + low) % 0x1_0000_0000 == low
  {
  }

  /** Any bytes are the number they spell. */
  lemma Word16(high: byte, low: byte) returns (n: u16)
    ensures Be16(n) == [high, low] && FromBe16(high, low) == n
  {
    n := 256 * high + low;
    Parts16(high, low);
  }

  lemma TwoHalves(high: u16, low: u16)
    ensures Be32(0x1_0000 * high + low) == Be16(high) + Be16(low)
  {
    Parts32(high, low);
  }

  lemma Word32(s: bytes) returns (n: u32)
    requires |s| == 4
    ensures Be32(n) == s
  {
    var high: int := Word16(s[0], s[1]);
    var low: int := Word16(s[2], s[3]);
    n := 0x1_0000 * high + low;
    TwoHalves(high, low);
    assert s == [s[0], s[1]] + [s[2], s[3]];
  }

  lemma TwoWords(high: u32, low: u32)
    ensures Be64(0x1_0000_0000 * high + low) == Be32(high) + Be32(low)
  {
    Parts64(high, low);
  }

  lemma Word64(s: bytes) returns (n: u64)
    requires |s| == 8
    ensures Be64(n) == s
  {
    var high: int := Word32(s[..4]);
    var low: int := Word32(s[4..]);
    n := 0x1_0000_0000 * high + low;
    TwoWords(high, low);
    assert s == s[..4] + s[4..];
  }

  lemma Split(s: bytes, i: nat, j: nat)
    requires i <= j <= |s|
    ensures s[i..] == s[i..j] + s[j..]
  {
  }

  /** Bytes cut into pieces of 24. */
  lemma {:induction false} ReportsOf(s: bytes, n: nat) returns (reports: seq<bytes>)
    requires |s| == 24 * n
    ensures |reports| == n && Concat(reports) == s && forall r | r in reports :: |r| == 24
  {
    reports := [];
    if n > 0 {
      var rest := ReportsOf(s[24..], n - 1);
      reports := [s[..24]] + rest;
      assert reports[1..] == rest && s == s[..24] + s[24..];
    }
  }

  lemma ItemsCons(item: Item, rest: seq<Item>)
    requires ItemValid(item) && forall i | i in rest :: ItemValid(i)
    ensures forall i | i in [item] + rest :: ItemValid(i)
    ensures PrintItems([item] + rest) == PrintItem(item) + PrintItems(rest)
  {
    assert ([item] + rest)[1..] == rest;
  }

  lemma OneItem(s: bytes) returns (item: Item)
    requires |s| >= 4 && DeclaredSize(s[2], s[3]) == |s| && (s[0] == 4 ==> |s| == 12)
    ensures ItemValid(item) && PrintItem(item) == s
  {
    if s[0] == 4 {
      var time := Word64(s[4..12]);
      item := TimeItem(s[1], time);
    } else {
      item := OtherItem(s[0], s[1], s[4..]);
    }
  }

  lemma FirstItem(block: bytes, pos: nat) returns (item: Item, next: nat)
    requires pos < |block| && XrItemsFit(block, pos)
    ensures pos < next <= |block| && XrItemsFit(block, next)
    ensures ItemValid(item) && PrintItem(item) == block[pos..next]
  {
    next := pos + DeclaredSize(block[pos + 2], block[pos + 3]);
    var s := block[pos..next];
    assert s[0] == block[pos] && s[2] == block[pos + 2] && s[3] == block[pos + 3];
    item := OneItem(s);
  }

  lemma {:induction false} ItemsOf(block: bytes, pos: nat) returns (items: seq<Item>)
    requires pos <= |block| && XrItemsFit(block, pos)
    ensures (forall item | item in items :: ItemValid(item)) && PrintItems(items) == block[pos..]
    decreases |block| - pos
  {
    items := [];
    if pos < |block| {
      var item, next := FirstItem(block, pos);
      var rest := ItemsOf(block, next);
      ItemsCons(item, rest);
      items := [item] + rest;
      Split(block, pos, next);
    }
  }

  lemma {:induction false} NacksOf(list: bytes)
    requires |list| % 4 == 0
    ensures RtcpPrint.PrintNacks(Nacks(list)) == list && 4 * |Nacks(list)| == |list|
  {
    if list != [] {
      var first := Nack(list[0], FromBe16(list[1], list[2]), list[3]);
      var _ := Word16(list[1], list[2]);
      NacksOf(list[4..]);
      assert Nacks(list) == [first] + Nacks(list[4..]) && Nacks(list)[1..] == Nacks(list[4..]);
      assert list == [list[0]] + [list[1], list[2]] + [list[3]] + list[4..];
    }
  }

  lemma CastOf(block: bytes) returns (p: Packet)
    requires WellFormed(block) && block[1] == 206 && Count(block[0]) == 15 && NamesCast(block)
    ensures Valid(p) && Is(block, p)
  {
    var n: int := block[17];
    var nacks := Nacks(block[20..20 + 4 * n]);
    NacksOf(block[20..20 + 4 * n]);
    var ssrc := Word32(block[4..8]);
    var media := Word32(block[8..12]);
    var delay := Word16(block[18], block[19]);
    p := CastPacket(ssrc, media, block[16], nacks, delay, block[20 + 4 * n..]);
    Split(block, 4, 8);
    Split(block, 8, 12);
    Split(block, 12, 16);
    Split(block, 16, 20);
    Split(block, 20, 20 + 4 * n);
    assert block[16..20] == [block[16], block[17]] + [block[18], block[19]];
  }

  lemma SenderOf(block: bytes) returns (p: Packet)
    requires WellFormed(block) && block[1] == 200
    ensures Valid(p) && Is(block, p)
  {
    var n := Count(block[0]);
    var reports := ReportsOf(block[28..28 + 24 * n], n);
    var ssrc := Word32(block[4..8]);
    p := SenderPacket(ssrc, block[8..28], reports, block[28 + 24 * n..]);
    Split(block, 4, 8);
    Split(block, 8, 28);
    Split(block, 28, 28 + 24 * n);
  }

  lemma ReceiverOf(block: bytes) returns (p: Packet)
    requires WellFormed(block) && block[1] == 201
    ensures Valid(p) && Is(block, p)
  {
    var n := Count(block[0]);
    var reports := ReportsOf(block[8..8 + 24 * n], n);
    var ssrc := Word32(block[4..8]);
    p := ReceiverPacket(ssrc, reports, block[8 + 24 * n..]);
    Split(block, 4, 8);
    Split(block, 8, 8 + 24 * n);
  }

  lemma FeedbackMessageOf(block: bytes) returns (p: Packet)
    requires WellFormed(block) && (block[1] == 205 || block[1] == 206)
    ensures Valid(p) && Is(block, p)
  {
    var ssrc := Word32(block[4..8]);
    var media := Word32(block[8..12]);
    Split(block, 4, 8);
    Split(block, 8, 12);
    if block[1] == 205 {
      p := TransportPacket(Count(block[0]), ssrc, media, block[12..]);
    } else if Count(block[0]) == 1 {
      p := PicturePacket(ssrc, media);
      assert block[12..] == [];
    } else if Count(block[0]) == 15 && NamesCast(block) {
      p := CastOf(block);
    } else {
      p := PayloadPacket(Count(block[0]), ssrc, media, block[12..]);
      if |block| >= 16 {
        assert block[12..][..4] == block[12..16];
      }
    }
  }

  lemma PacketOf(block: bytes) returns (p: Packet)
    requires WellFormed(block)
    ensures Valid(p) && Is(block, p)
  {
    if block[1] == 200 {
      p := SenderOf(block);
    } else if block[1] == 201 {
      p := ReceiverOf(block);
    } else if block[1] == 205 || block[1] == 206 {
      p := FeedbackMessageOf(block);
    } else if block[1] == 204 {
      var ssrc := Word32(block[4..8]);
      p := ApplicationPacket(Count(block[0]), ssrc, block[8..12], block[12..]);
      Split(block, 4, 8);
    Split(block, 8, 12);
    } else if block[1] == 207 {
      var ssrc := Word32(block[4..8]);
      var items := ItemsOf(block, 8);
      p := ExtendedPacket(Count(block[0]), ssrc, items);
      Split(block, 4, 8);
    } else {
      p := SourcesPacket(block[1] == 203, Count(block[0]), block[4..]);
    }
  }

  /** A block passes the checks exactly when it is some packet. */
  lemma WellFormedIsPacket(block: bytes)
    ensures WellFormed(block) <==> exists p :: Valid(p) && Is(block, p)
  {
    if WellFormed(block) {
      var p := PacketOf(block);
    } else if p :| Valid(p) && Is(block, p) {
      PacketWellFormed(block, p);
    }
  }

  /** A packet with nothing in it that could be left out. */
  predicate Bare(p: Packet) {
    match p
    case SenderPacket(_, _, _, more) => more == []
    case ReceiverPacket(_, _, more) => more == []
    case SourcesPacket(_, _, _) => false
    case ApplicationPacket(_, _, _, body) => body == []
    case TransportPacket(_, _, _, body) => body == []
    case PicturePacket(_, _) => true
    case CastPacket(_, _, _, _, _, more) => more == []
    case PayloadPacket(_, _, _, body) => body == []
    case ExtendedPacket(_, _, items) => items == []
  }

  /** Cut short, it is no packet at all; a feedback has to keep its identifier to be missed. */
  lemma CutShort(block: bytes, p: Packet, cut: nat)
    requires Valid(p) && Bare(p) && Is(block, p)
    requires (if p.CastPacket? then 16 else 4) <= cut < |block|
    ensures !WellFormed(block[..cut])
  {
    var short := block[..cut];
    assert short[0] == block[0] && short[1] == block[1];
    match p
    case SenderPacket(_, _, reports, _) => ReportsLength(reports);
    case ReceiverPacket(_, reports, _) => ReportsLength(reports);
    case CastPacket(_, _, _, nacks, _, _) =>
      CastFields(block, p);
      RtcpPrint.NacksRoundTrip(nacks);
      assert short[12..16] == block[12..16] && (cut > 17 ==> short[17] == block[17]);
    case _ =>
  }

  // ------------------------------------------------------------- datagrams

  /** Padding is any bytes of which the last one counts them all. */
  predicate IsPadding(padding: bytes) {
    padding == [] || padding[|padding| - 1] == |padding|
  }

  predicate Fits(p: Packet, padding: bytes) {
    Valid(p) && IsPadding(padding) && (|Body(p)| + |padding|) % 4 == 0 && |Body(p)| + |padding| <= LONGEST
  }

  /** The first word: version 2, the padding bit, the format, the type, and the words that follow it. */
  function FirstWord(padded: bool, format: nat, kind: byte, size: nat): bytes
    requires format <= 31 && size <= LONGEST
  {
    [0x80 + (if padded then 0x20 else 0) + format, kind] + Be16(size / 4)
  }

  function Head(p: Packet, padding: bytes): bytes
    requires Fits(p, padding)
  {
    FirstWord(padding != [], FormatOf(p), TypeOf(p), |Body(p)| + |padding|)
  }

  function PrintPacket(p: Packet, padding: bytes): bytes
    requires Fits(p, padding)
  {
    Head(p, padding) + Body(p) + padding
  }

  /** Padding may follow the last packet only. */
  predicate AllFit(packets: seq<Packet>, padding: bytes) {
    packets != [] && if |packets| == 1 then Fits(packets[0], padding) else Fits(packets[0], []) && AllFit(packets[1..], padding)
  }

  function PrintAll(packets: seq<Packet>, padding: bytes): bytes
    requires AllFit(packets, padding)
  {
    if |packets| == 1 then PrintPacket(packets[0], padding) else PrintPacket(packets[0], []) + PrintAll(packets[1..], padding)
  }

  lemma FirstWordReads(padded: bool, format: nat, kind: byte, size: nat)
    requires format <= 31 && size <= LONGEST && size % 4 == 0
    ensures var h := FirstWord(padded, format, kind, size);
            && |h| == 4 && h[0] / 64 == 2 && (Padded(h[0]) <==> padded) && Count(h[0]) == format
            && h[1] == kind && DeclaredSize(h[2], h[3]) == 4 + size
  {
    Be16RoundTrip(size / 4);
  }

  /** A well-formed block with the padding its header announces is cut off as such. */
  lemma FirstIs(block: bytes, padding: bytes, rest: bytes)
    requires WellFormed(block) && block[0] / 64 == 2 && IsPadding(padding) && (Padded(block[0]) <==> padding != [])
    requires DeclaredSize(block[2], block[3]) == |block| + |padding| && (padding != [] ==> rest == [])
    ensures FirstBlock(block + padding + rest) == Some(Cut(block, |block| + |padding|))
  {
    var q, end := block + padding + rest, |block| + |padding|;
    assert q[..4] == block[..4] && q[0] == block[0] && q[1] == block[1] && q[2] == block[2] && q[3] == block[3];
    assert q[..|block|] == block;
    if padding != [] {
      assert q[end - 1] == padding[|padding| - 1];
    }
  }

  lemma WordThenBody(h: bytes, p: Packet)
    requires |h| == 4 && Valid(p) && h[1] == TypeOf(p) && Count(h[0]) == FormatOf(p)
    ensures var block := h + Body(p);
            && Is(block, p) && WellFormed(block)
            && block[0] == h[0] && block[1] == h[1] && block[2] == h[2] && block[3] == h[3]
  {
    assert (h + Body(p))[4..] == Body(p);
    PacketWellFormed(h + Body(p), p);
  }

  lemma FirstOf(h: bytes, body: bytes, padding: bytes, rest: bytes)
    requires |h| == 4 && h[0] / 64 == 2 && (Padded(h[0]) <==> padding != []) && WellFormed(h + body)
    requires DeclaredSize(h[2], h[3]) == 4 + |body| + |padding| && IsPadding(padding) && (padding != [] ==> rest == [])
    ensures FirstBlock(h + body + padding + rest) == Some(Cut(h + body, |h + body + padding|))
  {
    FirstIs(h + body, padding, rest);
  }

  lemma PrintedFirst(p: Packet, padding: bytes, rest: bytes)
    requires Fits(p, padding) && (padding != [] ==> rest == [])
    ensures var first := FirstBlock(PrintPacket(p, padding) + rest);
            first.Some? && Is(first.value.block, p) && first.value.end == |PrintPacket(p, padding)|
  {
    FirstWordReads(padding != [], FormatOf(p), TypeOf(p), |Body(p)| + |padding|);
    WordThenBody(Head(p, padding), p);
    FirstOf(Head(p, padding), Body(p), padding, rest);
  }

  /** Blocks that are these packets, one by one. */
  ghost predicate Are(blocks: seq<Block>, packets: seq<Packet>) {
    |blocks| == |packets| && forall i | 0 <= i < |packets| :: Valid(packets[i]) && Is(blocks[i], packets[i])
  }

  lemma AreMore(block: Block, p: Packet, blocks: seq<Block>, packets: seq<Packet>)
    requires Valid(p) && Is(block, p) && Are(blocks, packets)
    ensures Are([block] + blocks, [p] + packets)
  {
  }

  lemma OneThenBlocks(p: Packet, rest: bytes, packets: seq<Packet>)
    requires Fits(p, []) && Blocks(rest).Some? && Are(Blocks(rest).value, packets)
    ensures Blocks(PrintPacket(p, []) + rest).Some?
    ensures Are(Blocks(PrintPacket(p, []) + rest).value, [p] + packets)
  {
    var printed := PrintPacket(p, []);
    PrintedFirst(p, [], rest);
    assert (printed + rest)[|printed|..] == rest;
    AreMore(FirstBlock(printed + rest).value.block, p, Blocks(rest).value, packets);
  }

  lemma LastBlock(p: Packet, padding: bytes)
    requires Fits(p, padding)
    ensures Blocks(PrintPacket(p, padding)).Some? && Are(Blocks(PrintPacket(p, padding)).value, [p])
  {
    var printed := PrintPacket(p, padding);
    PrintedFirst(p, padding, []);
    assert printed + [] == printed && printed[|printed|..] == [];
  }

  lemma {:induction false} PrintedBlocks(packets: seq<Packet>, padding: bytes)
    requires AllFit(packets, padding)
    ensures Blocks(PrintAll(packets, padding)).Some?
    ensures Are(Blocks(PrintAll(packets, padding)).value, packets)
    decreases |packets|
  {
    if |packets| == 1 {
      LastBlock(packets[0], padding);
      assert [packets[0]] == packets;
    } else {
      PrintedBlocks(packets[1..], padding);
      OneThenBlocks(packets[0], PrintAll(packets[1..], padding), packets[1..]);
      assert [packets[0]] + packets[1..] == packets;
    }
  }

  /** The bytes of a block and its padding are the print of the packet that the block is. */
  lemma PrintOf(raw: bytes, p: Packet, padding: bytes)
    requires |raw| >= 4 + |padding| && raw[0] / 64 == 2 && DeclaredSize(raw[2], raw[3]) == |raw|
    requires Valid(p) && Is(raw[..|raw| - |padding|], p)
    requires IsPadding(padding) && raw[|raw| - |padding|..] == padding && (Padded(raw[0]) <==> padding != [])
    ensures Fits(p, padding) && PrintPacket(p, padding) == raw
  {
    var at := |raw| - |padding|;
    assert Body(p) == raw[..at][4..] == raw[4..at];
    WordIsFirst(raw);
    assert raw == raw[..4] + raw[4..at] + raw[at..];
  }

  /** The first bytes up to a cut are the print of a packet with its padding. */
  lemma FirstPrinted(q: bytes) returns (p: Packet, padding: bytes)
    requires FirstBlock(q).Some?
    ensures Fits(p, padding) && PrintPacket(p, padding) == q[..FirstBlock(q).value.end]
    ensures padding != [] ==> FirstBlock(q).value.end == |q|
  {
    var cut := FirstBlock(q).value;
    var raw := q[..cut.end];
    FirstUnpads(q);
    p := PacketOf(cut.block);
    padding := raw[|cut.block|..];
    PrintOf(raw, p, padding);
  }

  lemma WordIsFirst(raw: bytes)
    requires |raw| >= 4 && raw[0] / 64 == 2 && DeclaredSize(raw[2], raw[3]) == |raw|
    ensures (|raw| - 4) % 4 == 0 && |raw| - 4 <= LONGEST
    ensures FirstWord(Padded(raw[0]), Count(raw[0]), raw[1], |raw| - 4) == raw[..4]
  {
    var n: int := Word16(raw[2], raw[3]);
    Quarter(|raw| - 4, n);
    FirstByte(raw[0]);
    assert raw[..4] == [raw[0], raw[1]] + [raw[2], raw[3]];
  }

  lemma Quarter(total: nat, n: nat)
    requires total == 4 * n
    ensures total / 4 == n && total % 4 == 0
  {
  }

  lemma FirstByte(b: byte)
    requires b / 64 == 2
    ensures b == 0x80 + (if Padded(b) then 0x20 else 0) + Count(b)
  {
  }

  lemma OneThenAll(p: Packet, packets: seq<Packet>, padding: bytes)
    requires Fits(p, []) && AllFit(packets, padding)
    ensures AllFit([p] + packets, padding) && PrintAll([p] + packets, padding) == PrintPacket(p, []) + PrintAll(packets, padding)
  {
    assert ([p] + packets)[1..] == packets;
  }

  lemma {:induction false} DatagramOf(q: bytes) returns (packets: seq<Packet>, padding: bytes)
    requires q != [] && Blocks(q).Some?
    ensures AllFit(packets, padding) && PrintAll(packets, padding) == q
    decreases |q|
  {
    var p, pad := FirstPrinted(q);
    var end := FirstBlock(q).value.end;
    if end == |q| {
      packets, padding := [p], pad;
    } else {
      var rest, last := DatagramOf(q[end..]);
      packets, padding := [p] + rest, last;
      OneThenAll(p, rest, last);
      Split(q, 0, end);
    }
  }

  /** Exactly the datagrams that print some packets, padding behind the last one, are accepted. */
  lemma AcceptedIsPrinted(q: bytes)
    ensures Validated(q).Some? <==> exists packets, padding :: AllFit(packets, padding) && PrintAll(packets, padding) == q
  {
    if Validated(q).Some? {
      var packets, padding := DatagramOf(q);
    } else if packets, padding :| AllFit(packets, padding) && PrintAll(packets, padding) == q {
      PrintedBlocks(packets, padding);
    }
  }

  // --------------------------------------------------------------- meaning

  /** The last reference time among the items. */
  function LastItemTime(items: seq<Item>, before: Option<u64>): Option<u64> {
    if items == [] then before
    else LastItemTime(items[1..], if items[0].TimeItem? then Some(items[0].time) else before)
  }

  /** The last reference time that a receiver gives in any extended report. */
  function TimeGiven(packets: seq<Packet>, receiver: u32, before: Option<u64>): Option<u64> {
    if packets == [] then before
    else
      TimeGiven(packets[1..], receiver,
                if packets[0].ExtendedPacket? && packets[0].ssrc == receiver then LastItemTime(packets[0].items, before) else before)
  }

  /** What a datagram of these packets tells: its Cast feedbacks, each with its receiver's time. */
  function Meaning(packets: seq<Packet>, all: seq<Packet>): seq<Feedback> {
    if packets == [] then []
    else
      var p := packets[0];
      (if p.CastPacket? then [Feedback(p.ssrc, TimeGiven(all, p.ssrc, None), p.media, p.checkpoint, p.nacks)] else [])
      + Meaning(packets[1..], all)
  }

  lemma Starts(block: bytes, pos: nat, s: bytes, rest: bytes)
    requires pos <= |block| && block[pos..] == s + rest
    ensures pos + |s| <= |block| && block[pos + |s|..] == rest
    ensures forall i | 0 <= i < |s| :: block[pos + i] == s[i]
    ensures |s| >= 12 ==> block[pos + 4..pos + 12] == s[4..12]
  {
    assert forall i | 0 <= i < |s| :: block[pos + i] == block[pos..][i];
  }

  lemma ItemHere(block: bytes, pos: nat, item: Item, rest: bytes) returns (next: nat)
    requires pos <= |block| && ItemValid(item) && block[pos..] == PrintItem(item) + rest
    ensures pos + 4 <= next <= |block| && block[next..] == rest
    ensures DeclaredSize(block[pos + 2], block[pos + 3]) == next - pos && (block[pos] == 4 <==> item.TimeItem?)
    ensures item.TimeItem? ==> next == pos + 12 && FromBe64(block[pos + 4..pos + 12]) == item.time
  {
    ItemShape(item);
    next := pos + |PrintItem(item)|;
    Starts(block, pos, PrintItem(item), rest);
    if item.TimeItem? {
      Be64RoundTrip(item.time);
    }
  }

  /** One step of the walk over an item that stands at `pos`. */
  lemma ItemEnd(block: bytes, pos: nat, item: Item, rest: bytes, before: Option<u64>) returns (next: nat)
    requires pos <= |block| && ItemValid(item) && block[pos..] == PrintItem(item) + rest && XrItemsFit(block, pos)
    ensures pos < next <= |block| && XrItemsFit(block, next) && block[next..] == rest
    ensures ItemTime(block, pos, before) == ItemTime(block, next, if item.TimeItem? then Some(item.time) else before)
  {
    next := ItemHere(block, pos, item, rest);
  }

  lemma {:induction false} ItemTimes(block: bytes, pos: nat, items: seq<Item>, before: Option<u64>)
    requires pos <= |block| && XrItemsFit(block, pos)
    requires (forall item | item in items :: ItemValid(item)) && block[pos..] == PrintItems(items)
    ensures ItemTime(block, pos, before) == LastItemTime(items, before)
    decreases |items|
  {
    if items == [] {
      assert pos == |block|;
    } else {
      var item, more := items[0], items[1..];
      var next := ItemEnd(block, pos, item, PrintItems(more), before);
      ItemTimes(block, next, more, if item.TimeItem? then Some(item.time) else before);
    }
  }

  lemma SameWord(a: u32, b: u32)
    ensures Be32(a) == Be32(b) <==> a == b
  {
    Be32RoundTrip(a);
    Be32RoundTrip(b);
  }

  /** An extended report reads as its items; no other packet reports a time. */
  lemma TimeReads(block: Block, p: Packet, receiver: u32, before: Option<u64>)
    requires Valid(p) && Is(block, p)
    ensures ReportsFor(block, receiver) <==> p.ExtendedPacket? && p.ssrc == receiver
    ensures ReportsFor(block, receiver) ==> ItemTime(block, 8, before) == LastItemTime(p.items, before)
  {
    if p.ExtendedPacket? {
      assert block[4..8] == block[4..][..4] == Be32(p.ssrc);
      assert block[8..] == block[4..][4..] == PrintItems(p.items);
      SameWord(p.ssrc, receiver);
      ItemTimes(block, 8, p.items, before);
    }
  }

  lemma {:induction false} TimesRead(blocks: seq<Block>, packets: seq<Packet>, receiver: u32, before: Option<u64>)
    requires Are(blocks, packets)
    ensures ReferenceTime(blocks, receiver, before) == TimeGiven(packets, receiver, before)
    decreases |blocks|
  {
    if blocks != [] {
      TimeReads(blocks[0], packets[0], receiver, before);
      TimesRead(blocks[1..], packets[1..], receiver,
                if ReportsFor(blocks[0], receiver) then ItemTime(blocks[0], 8, before) else before);
    }
  }

  lemma ClassReads(block: Block, p: Packet)
    requires Valid(p) && Is(block, p)
    ensures Classify(block) == CastFeedback <==> p.CastPacket?
    ensures Classify(block) == PictureLossIndication <==> p.PicturePacket?
  {
    if p.CastPacket? {
      CastFields(block, p);
    } else if p.PayloadPacket? && |block| >= 16 {
      assert block[4..][8..] == p.body && block[4..][8..] == block[12..];
      assert block[12..][..4] == block[12..16];
    }
  }

  lemma CastReads(block: Block, p: Packet, all: seq<Block>, everything: seq<Packet>)
    requires Valid(p) && Is(block, p) && p.CastPacket? && Are(all, everything)
    ensures Classify(block) == CastFeedback
    ensures FeedbackOf(block, all) == Feedback(p.ssrc, TimeGiven(everything, p.ssrc, None), p.media, p.checkpoint, p.nacks)
  {
    ClassReads(block, p);
    CastFields(block, p);
    Be32RoundTrip(p.ssrc);
    Be32RoundTrip(p.media);
    RtcpPrint.NacksRoundTrip(p.nacks);
    TimesRead(all, everything, p.ssrc, None);
  }

  lemma {:induction false} MeaningReads(blocks: seq<Block>, packets: seq<Packet>, all: seq<Block>, everything: seq<Packet>)
    requires Are(blocks, packets) && Are(all, everything)
    ensures FeedbacksIn(blocks, all) == Meaning(packets, everything)
    decreases |blocks|
  {
    if blocks != [] {
      ClassReads(blocks[0], packets[0]);
      if packets[0].CastPacket? {
        CastReads(blocks[0], packets[0], all, everything);
      }
      MeaningReads(blocks[1..], packets[1..], all, everything);
    }
  }

  /**
   * What is read from a datagram is what its packets mean: the Cast feedbacks in
   * their order, whatever reports, application data, extended report items
   * and padding come with them.
   */
  lemma PrintedIsRead(packets: seq<Packet>, padding: bytes)
    requires AllFit(packets, padding)
    ensures Feedbacks(PrintAll(packets, padding)) == Meaning(packets, packets)
  {
    PrintedBlocks(packets, padding);
    var blocks := Blocks(PrintAll(packets, padding)).value;
    MeaningReads(blocks, packets, blocks, packets);
  }

  lemma PictureReads(block: Block, p: Packet, asked: u32, mine: u32)
    requires Valid(p) && Is(block, p)
    ensures Classify(block) == PictureLossIndication && block[4..8] == Be32(asked) && block[8..12] == Be32(mine)
       <==> p == PicturePacket(asked, mine)
  {
    ClassReads(block, p);
    if p.PicturePacket? {
      assert block[4..8] == block[4..][..4] == Be32(p.ssrc);
      assert block[8..12] == block[4..][4..8] == Be32(p.media);
      SameWord(p.ssrc, asked);
      SameWord(p.media, mine);
    }
  }

  /** A picture is asked for exactly by the picture-loss packets that name the pair. */
  lemma PictureIsRead(packets: seq<Packet>, padding: bytes, asked: u32, mine: u32)
    requires AllFit(packets, padding)
    ensures PictureLossFor(PrintAll(packets, padding), asked, mine) <==> PicturePacket(asked, mine) in packets
  {
    PrintedBlocks(packets, padding);
    var blocks := Blocks(PrintAll(packets, padding)).value;
    PicturesRead(blocks, packets, asked, mine);
  }

  lemma PicturesRead(blocks: seq<Block>, packets: seq<Packet>, asked: u32, mine: u32)
    requires Are(blocks, packets)
    ensures (exists i :: 0 <= i < |blocks| && Classify(blocks[i]) == PictureLossIndication
                         && blocks[i][4..8] == Be32(asked) && blocks[i][8..12] == Be32(mine))
       <==> PicturePacket(asked, mine) in packets
  {
    forall i | 0 <= i < |packets|
      ensures Classify(blocks[i]) == PictureLossIndication && blocks[i][4..8] == Be32(asked) && blocks[i][8..12] == Be32(mine)
         <==> packets[i] == PicturePacket(asked, mine)
    {
      PictureReads(blocks[i], packets[i], asked, mine);
    }
  }

  /** A packet that tells the sender of the stream nothing. */
  predicate Silent(p: Packet) {
    !p.CastPacket? && (p.ExtendedPacket? ==> forall item | item in p.items :: !item.TimeItem?)
  }

  function Telling(packets: seq<Packet>): seq<Packet> {
    if packets == [] then [] else (if Silent(packets[0]) then [] else [packets[0]]) + Telling(packets[1..])
  }

  lemma {:induction false} NoItemTime(items: seq<Item>, before: Option<u64>)
    requires forall item | item in items :: !item.TimeItem?
    ensures LastItemTime(items, before) == before
  {
    if items != [] {
      NoItemTime(items[1..], before);
    }
  }

  lemma {:induction false} SilentGiveNoTime(packets: seq<Packet>, receiver: u32, before: Option<u64>)
    ensures TimeGiven(packets, receiver, before) == TimeGiven(Telling(packets), receiver, before)
    decreases |packets|
  {
    if packets != [] {
      var p := packets[0];
      if Silent(p) && p.ExtendedPacket? {
        NoItemTime(p.items, before);
      }
      var next := if p.ExtendedPacket? && p.ssrc == receiver then LastItemTime(p.items, before) else before;
      SilentGiveNoTime(packets[1..], receiver, next);
      if !Silent(p) {
        assert Telling(packets)[1..] == Telling(packets[1..]);
      } else {
        assert Telling(packets) == Telling(packets[1..]);
      }
    }
  }

  /** Silent packets anywhere among the others change nothing that is read. */
  lemma {:induction false} SilentChangeNothing(packets: seq<Packet>, all: seq<Packet>)
    ensures Meaning(packets, all) == Meaning(Telling(packets), Telling(all))
    decreases |packets|
  {
    if packets != [] {
      SilentChangeNothing(packets[1..], all);
      var p := packets[0];
      if Silent(p) {
        assert Telling(packets) == Telling(packets[1..]);
      } else {
        assert Telling(packets)[1..] == Telling(packets[1..]);
        if p.CastPacket? {
          SilentGiveNoTime(all, p.ssrc, None);
        }
      }
    }
  }
}
