/**
 * Splitting encrypted frames into RTP packets, and what a receiver can do with
 * any of them in any order: the header names frame, packet and last packet, so
 * the frame is rebuilt from whatever arrived plus whatever was asked for again.
 */
module Rtp {
  import opened Common
  import opened Rtcp

  /** MAX_PACKET_SIZE. */
  const MAX_PACKET_SIZE := 1200

  datatype Frame = Frame(id: u32, reference: Option<u32>, timestamp: u32, payload: bytes)

  /** The fields of a stream's packetizer that travel in every packet. */
  datatype Stream = Stream(ssrc: u32, payloadType: byte)

  /**
   * Payload bytes per packet: 1181, that is 1200 less the RTP header (12), the
   * Cast header (6) and the reference id (1).  Rounded up, and never zero
   * packets.
   */
  function Total(length: nat): (total: nat)
    ensures total >= 1 && 1181 * (total - 1) <= length <= 1181 * total
    ensures length > 0 ==> 1181 * (total - 1) < length
  {
    if length <= 1181 then 1 else 1 + Total(length - 1181)
  }

  /** The closed form computed by the packetizer: `div_ceil(len, 1181).max(1)`. */
  lemma TotalClosed(length: nat)
    ensures Total(length) == Max((length + 1180) / 1181, 1)
  {
  }

  function Chunk(payload: bytes, index: nat): bytes
    requires index < Total(|payload|)
  {
    payload[1181 * index .. Min(1181 * (index + 1), |payload|)]
  }

  function Header(stream: Stream, frame: Frame, sequence: u16, id: u16, maxId: u16, last: bool): bytes {
    var fixed :=
      [0x80] + [(if last then 0x80 else 0) + stream.payloadType % 0x80]
      + Be16(sequence) + Be32(frame.timestamp) + Be32(stream.ssrc)
      + [if frame.reference.None? then 0x80 else 0x40] + [frame.id % 0x100]
      + Be16(id) + Be16(maxId);
    if frame.reference.None? then fixed else fixed + [frame.reference.value % 0x100]
  }

  /** Packet `index` of a frame; ids are cut to 16 bits. */
  function Packet(stream: Stream, frame: Frame, first: u16, index: nat): bytes
    requires index < Total(|frame.payload|)
  {
    var total := Total(|frame.payload|);
    Header(stream, frame, Low16(first + index), Low16(index), Low16(total - 1), index == total - 1)
    + Chunk(frame.payload, index)
  }

  /** The first `count` packets of a frame. */
  function PacketsUpTo(stream: Stream, frame: Frame, first: u16, count: nat): (packets: seq<bytes>)
    requires count <= Total(|frame.payload|)
    ensures |packets| == count
  {
    if count == 0 then []
    else PacketsUpTo(stream, frame, first, count - 1) + [Packet(stream, frame, first, count - 1)]
  }

  function Packets(stream: Stream, frame: Frame, first: u16): seq<bytes> {
    PacketsUpTo(stream, frame, first, Total(|frame.payload|))
  }

  class Packetizer {
    const ssrc: u32
    const payloadType: byte
    var sequence: u16

    function View(): Stream {
      Stream(ssrc, payloadType)
    }

    constructor (ssrc: u32, payloadType: byte)
      ensures this.ssrc == ssrc && this.payloadType == payloadType && sequence == 0
    {
      this.ssrc, this.payloadType, sequence := ssrc, payloadType, 0;
    }

    /** Appends header and chunk, and takes the next sequence number. */
    method BuildPacket(frame: Frame, id: u16, maxId: u16, chunk: bytes, last: bool) returns (packet: bytes)
      modifies this
      ensures packet == Header(View(), frame, old(sequence), id, maxId, last) + chunk
      ensures sequence == Low16(old(sequence) + 1)
    {
      packet := [0x80];
      packet := packet + [(if last then 0x80 else 0) + payloadType % 0x80];
      packet := packet + Be16(sequence);
      packet := packet + Be32(frame.timestamp);
      packet := packet + Be32(ssrc);
      sequence := Low16(sequence + 1);
      packet := packet + [if frame.reference.None? then 0x80 else 0x40];
      packet := packet + [frame.id % 0x100];
      packet := packet + Be16(id);
      packet := packet + Be16(maxId);
      if frame.reference.Some? {
        packet := packet + [frame.reference.value % 0x100];
      }
      packet := packet + chunk;
    }

    /** All the packets of one frame, in order. */
    method Packetize(frame: Frame) returns (packets: seq<bytes>)
      modifies this
      ensures packets == Packets(View(), frame, old(sequence))
      ensures sequence == Low16(old(sequence) + |packets|)
    {
      ghost var first := sequence;
      var total := Max((|frame.payload| + 1180) / 1181, 1);
      TotalClosed(|frame.payload|);
      var maxId := Low16(total - 1);
      packets := [];
      for index := 0 to total
        invariant sequence == Low16(first + index)
        invariant packets == PacketsUpTo(View(), frame, first, index)
      {
        WrapSum(first + index, 1, 0x1_0000);
        var start := 1181 * index;
        var end := Min(1181 * (index + 1), |frame.payload|);
        var packet := BuildPacket(frame, Low16(index), maxId, frame.payload[start..end], index == total - 1);
        packets := packets + [packet];
      }
    }
  }

  // ---------------------------------------------------------- the receiver

  /** What a packet says about itself. */
  datatype Piece = Piece(
    sequence: u16, last: bool, payloadType: byte, timestamp: u32, ssrc: u32,
    key: bool, frame: byte, reference: Option<byte>, id: u16, maxId: u16, payload: bytes)

  /** Reads a packet by the layout of the RTP and Cast headers. */
  function Read(p: bytes): Option<Piece> {
    if |p| < 18 || p[0] != 0x80 then None
    else
      var referenced := p[12] / 0x40 % 2 == 1;
      if referenced && |p| < 19 then None
      else
        Some(Piece(FromBe16(p[2], p[3]), p[1] >= 0x80, p[1] % 0x80, FromBe32(p[4..8]), FromBe32(p[8..12]),
                   p[12] >= 0x80, p[13], if referenced then Some(p[18]) else None,
                   FromBe16(p[14], p[15]), FromBe16(p[16], p[17]),
                   if referenced then p[19..] else p[18..]))
  }

  function ReferenceByte(frame: Frame): Option<byte> {
    if frame.reference.None? then None else Some(frame.reference.value % 0x100)
  }

  function PieceOf(stream: Stream, frame: Frame, first: u16, index: nat): Piece
    requires index < Total(|frame.payload|)
  {
    var total := Total(|frame.payload|);
    Piece(Low16(first + index), index == total - 1, stream.payloadType % 0x80, frame.timestamp, stream.ssrc,
          frame.reference.None?, frame.id % 0x100, ReferenceByte(frame),
          Low16(index), Low16(total - 1), Chunk(frame.payload, index))
  }

  lemma HeaderFields(stream: Stream, frame: Frame, sequence: u16, id: u16, maxId: u16, last: bool)
    ensures var h := Header(stream, frame, sequence, id, maxId, last);
            && |h| == (if frame.reference.None? then 18 else 19)
            && h[0] == 0x80 && (h[1] >= 0x80 <==> last)
            && h[1] % 0x80 == stream.payloadType % 0x80
            && FromBe16(h[2], h[3]) == sequence
            && FromBe32(h[4..8]) == frame.timestamp && FromBe32(h[8..12]) == stream.ssrc
            && h[12] == (if frame.reference.None? then 0x80 else 0x40) && h[13] == frame.id % 0x100
            && FromBe16(h[14], h[15]) == id && FromBe16(h[16], h[17]) == maxId
            && (frame.reference.Some? ==> h[18] == frame.reference.value % 0x100)
  {
  }

  lemma ReadsHeaderAndChunk(stream: Stream, frame: Frame, sequence: u16, id: u16, maxId: u16, last: bool, chunk: bytes)
    ensures Read(Header(stream, frame, sequence, id, maxId, last) + chunk)
         == Some(Piece(sequence, last, stream.payloadType % 0x80, frame.timestamp, stream.ssrc,
                   frame.reference.None?, frame.id % 0x100, ReferenceByte(frame), id, maxId, chunk))
    ensures |Header(stream, frame, sequence, id, maxId, last)| <= 19
  {
    HeaderFields(stream, frame, sequence, id, maxId, last);
    ReadsBehind(Header(stream, frame, sequence, id, maxId, last), chunk, frame.reference.Some?);
  }

  /** Reading a header with its chunk behind it depends on the header's fields alone. */
  lemma ReadsBehind(h: bytes, chunk: bytes, referenced: bool)
    requires |h| == (if referenced then 19 else 18) && h[0] == 0x80 && h[12] == (if referenced then 0x40 else 0x80)
    ensures Read(h + chunk)
         == Some(Piece(FromBe16(h[2], h[3]), h[1] >= 0x80, h[1] % 0x80, FromBe32(h[4..8]), FromBe32(h[8..12]),
                       !referenced, h[13], if referenced then Some(h[18]) else None,
                       FromBe16(h[14], h[15]), FromBe16(h[16], h[17]), chunk))
  {
  }

  /** Every packet reads back as the piece it was built for and fits in 1200 bytes. */
  lemma PacketReads(stream: Stream, frame: Frame, first: u16, index: nat)
    requires index < Total(|frame.payload|)
    ensures Read(Packet(stream, frame, first, index)) == Some(PieceOf(stream, frame, first, index))
    ensures |Packet(stream, frame, first, index)| <= MAX_PACKET_SIZE
  {
    var total := Total(|frame.payload|);
    ReadsHeaderAndChunk(stream, frame, Low16(first + index), Low16(index), Low16(total - 1),
                        index == total - 1, Chunk(frame.payload, index));
  }

  /** Packets that read, one by one, as the pieces of a frame. */
  ghost predicate Carries(packets: seq<bytes>, stream: Stream, frame: Frame, first: u16) {
    && |packets| <= Total(|frame.payload|)
    && forall i | 0 <= i < |packets| :: |packets[i]| <= MAX_PACKET_SIZE && Read(packets[i]) == Some(PieceOf(stream, frame, first, i))
  }

  lemma CarriesOneMore(packets: seq<bytes>, stream: Stream, frame: Frame, first: u16)
    requires Carries(packets, stream, frame, first) && |packets| < Total(|frame.payload|)
    ensures Carries(packets + [Packet(stream, frame, first, |packets|)], stream, frame, first)
  {
    PacketReads(stream, frame, first, |packets|);
  }

  lemma {:induction false} UpToCarry(stream: Stream, frame: Frame, first: u16, count: nat)
    requires count <= Total(|frame.payload|)
    ensures Carries(PacketsUpTo(stream, frame, first, count), stream, frame, first)
  {
    if count > 0 {
      UpToCarry(stream, frame, first, count - 1);
      CarriesOneMore(PacketsUpTo(stream, frame, first, count - 1), stream, frame, first);
    }
  }

  /** The pieces read from what arrived, in order of arrival. */
  function Pieces(got: seq<bytes>): seq<Piece> {
    if got == [] then []
    else (if Read(got[0]).Some? then [Read(got[0]).value] else []) + Pieces(got[1..])
  }

  /** The payload of the first piece numbered `id`. */
  function Find(pieces: seq<Piece>, id: nat): Option<bytes> {
    if pieces == [] then None
    else if pieces[0].id == id then Some(pieces[0].payload)
    else Find(pieces[1..], id)
  }

  function Join(pieces: seq<Piece>, count: nat): Option<bytes> {
    if count == 0 then Some([])
    else
      var front, back := Join(pieces, count - 1), Find(pieces, count - 1);
      if front.None? || back.None? then None else Some(front.value + back.value)
  }

  /** Rebuilds a frame from packets in any order, some of them several times. */
  function Rebuild(got: seq<bytes>): Option<bytes> {
    var pieces := Pieces(got);
    if pieces == [] then None else Join(pieces, pieces[0].maxId + 1)
  }

  /** Packet ids name packets uniquely exactly up to the largest payload. */
  lemma IdsUnique(frame: Frame)
    ensures (forall i, j | 0 <= i < j < Total(|frame.payload|) :: Low16(i) != Low16(j))
       <==> |frame.payload| <= 0x1_0000 * 1181
  {
    if |frame.payload| > 0x1_0000 * 1181 {
      var j := 0x1_0000;
      assert Low16(j) == Low16(0);
      assert exists i :: 0 <= i < j < Total(|frame.payload|) && Low16(i) == Low16(j);
    } else {
      assert Total(|frame.payload|) <= 0x1_0000;
    }
  }

  ghost predicate Genuine(frame: Frame, piece: Piece) {
    && piece.maxId == Low16(Total(|frame.payload|) - 1)
    && exists i :: 0 <= i < Total(|frame.payload|) && piece.id == Low16(i) && piece.payload == Chunk(frame.payload, i)
  }

  ghost predicate Holds(pieces: seq<Piece>, id: nat) {
    exists k :: 0 <= k < |pieces| && pieces[k].id == id
  }

  lemma {:induction false} FindsChunk(frame: Frame, pieces: seq<Piece>, id: nat)
    requires |frame.payload| <= 0x1_0000 * 1181 && id < Total(|frame.payload|)
    requires forall q | q in pieces :: Genuine(frame, q)
    requires Holds(pieces, id)
    ensures Find(pieces, id) == Some(Chunk(frame.payload, id))
  {
    if pieces[0].id == id {
      assert Genuine(frame, pieces[0]);
    } else {
      var k :| 0 <= k < |pieces| && pieces[k].id == id;
      assert pieces[1..][k - 1] == pieces[k];
      FindsChunk(frame, pieces[1..], id);
    }
  }

  lemma {:induction false} JoinsPrefix(frame: Frame, pieces: seq<Piece>, count: nat)
    requires |frame.payload| <= 0x1_0000 * 1181 && count <= Total(|frame.payload|)
    requires forall q | q in pieces :: Genuine(frame, q)
    requires forall id | 0 <= id < Total(|frame.payload|) :: Holds(pieces, id)
    ensures Join(pieces, count) == Some(frame.payload[..Min(1181 * count, |frame.payload|)])
  {
    if count > 0 {
      JoinsPrefix(frame, pieces, count - 1);
      FindsChunk(frame, pieces, count - 1);
      var at := 1181 * (count - 1);
      assert frame.payload[..at] + Chunk(frame.payload, count - 1) == frame.payload[..Min(1181 * count, |frame.payload|)];
    }
  }

  lemma PieceGenuine(stream: Stream, frame: Frame, first: u16, i: nat)
    requires i < Total(|frame.payload|)
    ensures Genuine(frame, PieceOf(stream, frame, first, i))
  {
  }

  lemma {:induction false} PiecesRead(got: seq<bytes>)
    requires forall p | p in got :: Read(p).Some?
    ensures |Pieces(got)| == |got|
    ensures forall k | 0 <= k < |got| :: Pieces(got)[k] == Read(got[k]).value
  {
    if got != [] {
      PiecesRead(got[1..]);
    }
  }

  lemma PiecesGenuine(packets: seq<bytes>, stream: Stream, frame: Frame, first: u16, got: seq<bytes>)
    requires Carries(packets, stream, frame, first)
    requires forall p | p in got :: p in packets
    ensures forall q | q in Pieces(got) :: Genuine(frame, q)
  {
    PiecesRead(got);
    forall k | 0 <= k < |got|
      ensures Genuine(frame, Pieces(got)[k])
    {
      assert got[k] in packets;
      var i :| 0 <= i < |packets| && packets[i] == got[k];
      PieceGenuine(stream, frame, first, i);
    }
  }

  /** Within the largest payload, a piece numbered `id` arrived exactly when that packet did. */
  lemma PiecesCover(packets: seq<bytes>, stream: Stream, frame: Frame, first: u16, got: seq<bytes>, id: nat)
    requires |frame.payload| <= 0x1_0000 * 1181
    requires Carries(packets, stream, frame, first)
    requires forall p | p in got :: p in packets
    requires id < |packets|
    ensures Holds(Pieces(got), id) <==> packets[id] in got
  {
    PiecesRead(got);
    if packets[id] in got {
      var k :| 0 <= k < |got| && got[k] == packets[id];
      assert Pieces(got)[k].id == id;
    }
    if Holds(Pieces(got), id) {
      var k :| 0 <= k < |Pieces(got)| && Pieces(got)[k].id == id;
      assert got[k] in packets;
      var i :| 0 <= i < |packets| && packets[i] == got[k];
      assert i == id;
    }
  }

  lemma {:induction false} FindHolds(pieces: seq<Piece>, id: nat)
    ensures Find(pieces, id).Some? ==> Holds(pieces, id)
  {
    if pieces != [] && pieces[0].id != id {
      FindHolds(pieces[1..], id);
      if Find(pieces, id).Some? {
        var k :| 0 <= k < |pieces[1..]| && pieces[1..][k].id == id;
        assert pieces[k + 1].id == id;
      }
    }
  }

  /** Nothing is joined over a gap. */
  lemma {:induction false} JoinNeedsAll(pieces: seq<Piece>, count: nat, id: nat)
    requires id < count && Join(pieces, count).Some?
    ensures Holds(pieces, id)
  {
    if id == count - 1 {
      FindHolds(pieces, id);
    } else {
      JoinNeedsAll(pieces, count - 1, id);
    }
  }

  /**
   * Packets in any order, some of them several times, rebuild the payload
   * exactly when each packet of the frame is among them.
   */
  lemma FrameRebuilt(stream: Stream, frame: Frame, first: u16, got: seq<bytes>)
    requires |frame.payload| <= 0x1_0000 * 1181
    requires forall p | p in got :: p in Packets(stream, frame, first)
    ensures Rebuild(got) == Some(frame.payload)
       <==> forall i | 0 <= i < |Packets(stream, frame, first)| :: Packets(stream, frame, first)[i] in got
  {
    var packets := Packets(stream, frame, first);
    UpToCarry(stream, frame, first, Total(|frame.payload|));
    PiecesGenuine(packets, stream, frame, first, got);
    forall id | 0 <= id < |packets|
      ensures Holds(Pieces(got), id) <==> packets[id] in got
    {
      PiecesCover(packets, stream, frame, first, got, id);
    }
    HeldJoins(frame, Pieces(got));
  }

  lemma HeldJoins(frame: Frame, pieces: seq<Piece>)
    requires |frame.payload| <= 0x1_0000 * 1181
    requires forall q | q in pieces :: Genuine(frame, q)
    ensures (pieces != [] && Join(pieces, pieces[0].maxId + 1) == Some(frame.payload))
       <==> forall id | 0 <= id < Total(|frame.payload|) :: Holds(pieces, id)
  {
    if pieces != [] {
      assert Genuine(frame, pieces[0]);
      assert pieces[0].maxId + 1 == Total(|frame.payload|);
    }
    if forall id | 0 <= id < Total(|frame.payload|) :: Holds(pieces, id) {
      assert Holds(pieces, 0);
      JoinsPrefix(frame, pieces, Total(|frame.payload|));
      assert frame.payload[..|frame.payload|] == frame.payload;
    } else if pieces != [] && Join(pieces, pieces[0].maxId + 1).Some? {
      forall id | 0 <= id < Total(|frame.payload|)
        ensures Holds(pieces, id)
      {
        JoinNeedsAll(pieces, Total(|frame.payload|), id);
      }
    }
  }

  /** The last packet of a frame, and no other, carries the marker. */
  lemma MarkerOnLast(stream: Stream, frame: Frame, first: u16, i: nat)
    requires i < |Packets(stream, frame, first)|
    ensures Read(Packets(stream, frame, first)[i]).Some?
    ensures Read(Packets(stream, frame, first)[i]).value.last <==> i == |Packets(stream, frame, first)| - 1
    ensures |Packets(stream, frame, first)[i]| <= MAX_PACKET_SIZE
  {
    UpToCarry(stream, frame, first, Total(|frame.payload|));
  }

  // -------------------------------------------------------------- sequence

  function PacketsOfRun(stream: Stream, frames: seq<Frame>, first: u16): seq<bytes> {
    if frames == [] then []
    else
      var packets := Packets(stream, frames[0], first);
      packets + PacketsOfRun(stream, frames[1..], Low16(first + |packets|))
  }

  lemma SequenceInFrame(stream: Stream, frame: Frame, first: u16, k: nat)
    requires k < |Packets(stream, frame, first)|
    ensures Read(Packets(stream, frame, first)[k]).Some?
    ensures Read(Packets(stream, frame, first)[k]).value.sequence == Low16(first + k)
  {
    UpToCarry(stream, frame, first, Total(|frame.payload|));
  }

  /** Across any run of frames the sequence numbers count on by one, modulo 2^16. */
  lemma {:induction false} SequenceConsecutive(stream: Stream, frames: seq<Frame>, first: u16, k: nat)
    requires k < |PacketsOfRun(stream, frames, first)|
    ensures Read(PacketsOfRun(stream, frames, first)[k]).Some?
    ensures Read(PacketsOfRun(stream, frames, first)[k]).value.sequence == Low16(first + k)
    decreases |frames|
  {
    var packets := Packets(stream, frames[0], first);
    if k < |packets| {
      SequenceInFrame(stream, frames[0], first, k);
      assert PacketsOfRun(stream, frames, first)[k] == packets[k];
    } else {
      SequenceConsecutive(stream, frames[1..], Low16(first + |packets|), k - |packets|);
      WrapSum(first + |packets|, k - |packets|, 0x1_0000);
    }
  }
}
