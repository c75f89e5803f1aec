/**
 * Printing RTCP and reading it back: receiver feedback with its reference
 * times, picture-loss requests, and the sender report.
 */
module RtcpPrint {
  import opened Common
  import opened Rtcp

  const PLAYOUT_DELAY: u16 := 150

  predicate Printable(fb: Feedback) {
    |fb.nacks| <= 255
  }

  function PrintNacks(nacks: seq<Nack>): bytes {
    if nacks == [] then []
    else [nacks[0].frameId] + Be16(nacks[0].packetId) + [nacks[0].bitmask] + PrintNacks(nacks[1..])
  }

  /** Feedback the way the receiver sends it: 20 fixed bytes, then four for each loss. */
  function PrintFeedback(fb: Feedback): bytes
    requires Printable(fb)
  {
    [0x8F, PT_PAYLOAD_SPECIFIC] + Be16(4 + |fb.nacks|)
    + Be32(fb.receiver) + Be32(fb.sender)
    + CAST_IDENTIFIER
    + [fb.checkpoint, |fb.nacks|] + Be16(PLAYOUT_DELAY)
    + PrintNacks(fb.nacks)
  }

  /** A receiver reference time report, section 4.4 of RFC 3611. */
  function PrintTime(receiver: u32, time: u64): bytes {
    [0x80, PT_EXTENDED_REPORTS] + Be16(4) + Be32(receiver) + [4, 0] + Be16(2) + Be64(time)
  }

  // ------------------------------------------------------- printed blocks

  /** A run of bytes that reads as exactly one unpadded block wherever it stands. */
  ghost predicate ReadsAsBlock(b: bytes) {
    && |b| >= 4 && b[0] / 64 == 2 && !Padded(b[0])
    && DeclaredSize(b[2], b[3]) == |b| && WellFormed(b)
  }

  lemma BlockThenRest(b: bytes, rest: bytes)
    requires ReadsAsBlock(b)
    ensures Blocks(b + rest) == Prepend([b], Blocks(rest))
  {
  }

  /** Concatenated blocks are read back one by one. */
  lemma {:induction false} ConcatReads(parts: seq<bytes>)
    requires forall b | b in parts :: ReadsAsBlock(b)
    ensures Blocks(Concat(parts)).Some? && Blocks(Concat(parts)).value == parts
  {
    if parts != [] {
      var rest := parts[1..];
      forall b | b in rest
        ensures ReadsAsBlock(b)
      {
        assert b in parts;
      }
      ConcatReads(rest);
      assert parts[0] in parts;
      BlockThenRest(parts[0], Concat(rest));
      assert [parts[0]] + rest == parts;
    }
  }

  /** A valid datagram followed by any proper part of a block, padded or not, is void: nothing of it is used. */
  lemma TruncatedRejected(a: bytes, b: bytes, cut: nat)
    requires Blocks(a).Some? && |b| >= 4 && DeclaredSize(b[2], b[3]) == |b| && 0 < cut < |b|
    ensures Validated(a + b[..cut]).None? && Feedbacks(a + b[..cut]) == []
  {
    var part := b[..cut];
    if cut >= 4 {
      assert part[0] == b[0] && part[1] == b[1] && part[2] == b[2] && part[3] == b[3];
    }
    assert FirstBlock(part).None?;
    Compose(a, part);
  }

  lemma {:induction false} NacksRoundTrip(nacks: seq<Nack>)
    ensures |PrintNacks(nacks)| == 4 * |nacks|
    ensures Nacks(PrintNacks(nacks)) == nacks
  {
    if nacks != [] {
      NacksRoundTrip(nacks[1..]);
      var n := nacks[0];
      Be16RoundTrip(n.packetId);
      assert PrintNacks(nacks)[4..] == PrintNacks(nacks[1..]);
    }
  }

  lemma FeedbackFields(fb: Feedback)
    requires Printable(fb)
    ensures var b := PrintFeedback(fb);
            && |b| == 20 + 4 * |fb.nacks|
            && b[0] == 0x8F && b[1] == PT_PAYLOAD_SPECIFIC && FromBe16(b[2], b[3]) == 4 + |fb.nacks|
            && b[4..8] == Be32(fb.receiver) && b[8..12] == Be32(fb.sender) && b[12..16] == CAST_IDENTIFIER
            && b[16] == fb.checkpoint && b[17] == |fb.nacks| && b[20..] == PrintNacks(fb.nacks)
  {
    NacksRoundTrip(fb.nacks);
    Be16RoundTrip(4 + |fb.nacks|);
    Be32RoundTrip(fb.receiver);
    Be32RoundTrip(fb.sender);
  }

  lemma FeedbackReads(fb: Feedback)
    requires Printable(fb)
    ensures ReadsAsBlock(PrintFeedback(fb))
    ensures Classify(PrintFeedback(fb)) == CastFeedback
  {
    FeedbackFields(fb);
  }

  lemma FeedbackReadBack(fb: Feedback, all: seq<Block>)
    requires Printable(fb)
    requires ReferenceTime(all, fb.receiver, None) == fb.time
    ensures ReadsAsBlock(PrintFeedback(fb)) && Classify(PrintFeedback(fb)) == CastFeedback
    ensures FeedbackOf(PrintFeedback(fb), all) == fb
  {
    FeedbackReads(fb);
    FeedbackFields(fb);
    NacksRoundTrip(fb.nacks);
    Be32RoundTrip(fb.receiver);
    Be32RoundTrip(fb.sender);
    var b := PrintFeedback(fb);
    assert b[20..20 + LossBytes(b)] == b[20..];
  }

  lemma TimeFields(receiver: u32, time: u64)
    ensures var b := PrintTime(receiver, time);
            && |b| == 20 && b[0] == 0x80 && b[1] == PT_EXTENDED_REPORTS && FromBe16(b[2], b[3]) == 4
            && b[4..8] == Be32(receiver)
            && b[8] == 4 && FromBe16(b[10], b[11]) == 2 && b[12..20] == Be64(time)
  {
  }

  lemma TimeReads(receiver: u32, time: u64, before: Option<u64>)
    ensures ReadsAsBlock(PrintTime(receiver, time))
    ensures Classify(PrintTime(receiver, time)) == ExtendedReport
    ensures ItemTime(PrintTime(receiver, time), 8, before) == Some(time)
  {
    TimeFields(receiver, time);
    Be64RoundTrip(time);
    var b := PrintTime(receiver, time);
    assert XrItemsFit(b, 20);
    assert XrItemsFit(b, 8);
    assert ItemTime(b, 20, Some(time)) == Some(time);
  }

  /** The blocks of a compound datagram: each feedback behind its reference time, if it has one. */
  function PrintBlocks(fbs: seq<Feedback>): (blocks: seq<Block>)
    requires forall fb | fb in fbs :: Printable(fb)
    ensures forall b | b in blocks :: ReadsAsBlock(b) && Classify(b) != PictureLossIndication
  {
    if fbs == [] then []
    else
      FeedbackReads(fbs[0]);
      var own: seq<Block> := [PrintFeedback(fbs[0])];
      if fbs[0].time.None? then own + PrintBlocks(fbs[1..])
      else
        TimeReads(fbs[0].receiver, fbs[0].time.value, None);
        var time: seq<Block> := [PrintTime(fbs[0].receiver, fbs[0].time.value)];
        time + (own + PrintBlocks(fbs[1..]))
  }

  function Print(fbs: seq<Feedback>): bytes
    requires forall fb | fb in fbs :: Printable(fb)
  {
    Concat(PrintBlocks(fbs))
  }

  // ------------------------------------------------------------ round trip

  /** The reference time a reader settles on for `receiver`: the last one printed for it. */
  function LastTime(fbs: seq<Feedback>, receiver: u32, before: Option<u64>): Option<u64> {
    if fbs == [] then before
    else
      LastTime(fbs[1..], receiver,
               if fbs[0].receiver == receiver && fbs[0].time.Some? then fbs[0].time else before)
  }

  /** One receiver gives one time, or none, per datagram. */
  ghost predicate Consistent(fbs: seq<Feedback>) {
    forall i, j | 0 <= i < |fbs| && 0 <= j < |fbs| && fbs[i].receiver == fbs[j].receiver ::
      fbs[i].time == fbs[j].time
  }

  lemma ReferenceTimeSkips(block: Block, rest: seq<Block>, receiver: u32, before: Option<u64>)
    requires !ReportsFor(block, receiver)
    ensures ReferenceTime([block] + rest, receiver, before) == ReferenceTime(rest, receiver, before)
  {
  }

  lemma ReferenceTimeTakes(receiver: u32, time: u64, rest: seq<Block>, asked: u32, before: Option<u64>)
    ensures ReadsAsBlock(PrintTime(receiver, time))
    ensures ReferenceTime([PrintTime(receiver, time)] + rest, asked, before)
         == ReferenceTime(rest, asked, if receiver == asked then Some(time) else before)
  {
    TimeReads(receiver, time, before);
    TimeFields(receiver, time);
    var b: Block := PrintTime(receiver, time);
    assert ([b] + rest)[1..] == rest;
    Be32RoundTrip(receiver);
    Be32RoundTrip(asked);
    assert ReportsFor(b, asked) <==> receiver == asked;
  }

  lemma {:induction false} PrintedTimes(fbs: seq<Feedback>, receiver: u32, before: Option<u64>)
    requires forall fb | fb in fbs :: Printable(fb)
    ensures ReferenceTime(PrintBlocks(fbs), receiver, before) == LastTime(fbs, receiver, before)
    decreases |fbs|
  {
    if fbs != [] {
      var fb, rest := fbs[0], PrintBlocks(fbs[1..]);
      FeedbackReads(fb);
      var own: Block := PrintFeedback(fb);
      var before' := if fb.receiver == receiver && fb.time.Some? then fb.time else before;
      ReferenceTimeSkips(own, rest, receiver, before');
      PrintedTimes(fbs[1..], receiver, before');
      if fb.time.Some? {
        ReferenceTimeTakes(fb.receiver, fb.time.value, [own] + rest, receiver, before);
      }
    }
  }

  /** What is read back: the printed feedbacks, each with the last time of its receiver. */
  function Retimed(fbs: seq<Feedback>, all: seq<Feedback>): seq<Feedback> {
    if fbs == [] then []
    else [fbs[0].(time := LastTime(all, fbs[0].receiver, None))] + Retimed(fbs[1..], all)
  }

  lemma FeedbacksStep(block: Block, rest: seq<Block>, all: seq<Block>)
    ensures FeedbacksIn([block] + rest, all)
         == (if Classify(block) == CastFeedback then [FeedbackOf(block, all)] else []) + FeedbacksIn(rest, all)
  {
  }

  /** The blocks printed for one feedback contribute that feedback, retimed. */
  lemma OnePrintedFeedback(fb: Feedback, rest: seq<Block>, all: seq<Feedback>)
    requires Printable(fb) && forall f | f in all :: Printable(f)
    ensures WellFormed(PrintFeedback(fb))
    ensures FeedbacksIn([PrintFeedback(fb)] + rest, PrintBlocks(all))
         == [fb.(time := LastTime(all, fb.receiver, None))] + FeedbacksIn(rest, PrintBlocks(all))
  {
    PrintedTimes(all, fb.receiver, None);
    var retimed := fb.(time := LastTime(all, fb.receiver, None));
    assert PrintFeedback(fb) == PrintFeedback(retimed);
    FeedbackReadBack(retimed, PrintBlocks(all));
    FeedbacksStep(PrintFeedback(fb), rest, PrintBlocks(all));
  }

  lemma TimeIsNoFeedback(receiver: u32, time: u64, rest: seq<Block>, all: seq<Block>)
    ensures WellFormed(PrintTime(receiver, time))
    ensures FeedbacksIn([PrintTime(receiver, time)] + rest, all) == FeedbacksIn(rest, all)
  {
  }

  lemma {:induction false} PrintedFeedbacks(fbs: seq<Feedback>, all: seq<Feedback>)
    requires forall fb | fb in fbs :: Printable(fb)
    requires forall fb | fb in all :: Printable(fb)
    ensures FeedbacksIn(PrintBlocks(fbs), PrintBlocks(all)) == Retimed(fbs, all)
    decreases |fbs|
  {
    if fbs != [] {
      var fb, rest := fbs[0], PrintBlocks(fbs[1..]);
      PrintedFeedbacks(fbs[1..], all);
      OnePrintedFeedback(fb, rest, all);
      if fb.time.Some? {
        FeedbackReads(fb);
        var own: seq<Block> := [PrintFeedback(fb)];
        TimeIsNoFeedback(fb.receiver, fb.time.value, own + rest, PrintBlocks(all));
      }
    }
  }

  lemma {:induction false} LastTimeOfConsistent(fbs: seq<Feedback>, receiver: u32, time: Option<u64>, before: Option<u64>)
    requires forall fb | fb in fbs && fb.receiver == receiver :: fb.time == time
    ensures LastTime(fbs, receiver, before) ==
            if time.Some? && exists fb :: fb in fbs && fb.receiver == receiver then time else before
  {
    if fbs != [] {
      LastTimeOfConsistent(fbs[1..], receiver, time,
                           if fbs[0].receiver == receiver && time.Some? then time else before);
      assert forall fb | fb in fbs :: fb == fbs[0] || fb in fbs[1..];
    }
  }

  lemma {:induction false} RetimedAt(fbs: seq<Feedback>, all: seq<Feedback>)
    ensures |Retimed(fbs, all)| == |fbs|
    ensures forall i | 0 <= i < |fbs| :: Retimed(fbs, all)[i] == fbs[i].(time := LastTime(all, fbs[i].receiver, None))
  {
    if fbs != [] {
      RetimedAt(fbs[1..], all);
    }
  }

  /**
   * Any list of feedbacks survives printing and parsing, with every feedback
   * carrying its receiver's last reference time; so the list comes back
   * unchanged exactly when each receiver gives one time throughout.
   */
  lemma FeedbackRoundTrip(fbs: seq<Feedback>)
    requires forall fb | fb in fbs :: Printable(fb)
    ensures Feedbacks(Print(fbs)) == Retimed(fbs, fbs)
    ensures Feedbacks(Print(fbs)) == fbs <==> Consistent(fbs)
  {
    ConcatReads(PrintBlocks(fbs));
    PrintedFeedbacks(fbs, fbs);
    RetimedAt(fbs, fbs);
    if Consistent(fbs) {
      forall i | 0 <= i < |fbs|
        ensures LastTime(fbs, fbs[i].receiver, None) == fbs[i].time
      {
        LastTimeOfConsistent(fbs, fbs[i].receiver, fbs[i].time, None);
        assert fbs[i] in fbs;
      }
      assert Retimed(fbs, fbs) == fbs;
    }
    if Retimed(fbs, fbs) == fbs {
      forall i, j | 0 <= i < |fbs| && 0 <= j < |fbs| && fbs[i].receiver == fbs[j].receiver
        ensures fbs[i].time == fbs[j].time
      {
        assert Retimed(fbs, fbs)[i] == fbs[i] && Retimed(fbs, fbs)[j] == fbs[j];
      }
    }
  }

  // ------------------------------------------ picture loss, sender reports

  function PrintPictureLoss(receiver: u32, sender: u32): bytes {
    [0x81, PT_PAYLOAD_SPECIFIC] + Be16(2) + Be32(receiver) + Be32(sender)
  }

  /** A block classified as a request about this pair is the printed request, byte for byte. */
  lemma RequestIsPrinted(b: bytes, asked: u32, mine: u32)
    requires ReadsAsBlock(b)
    ensures Classify(b) == PictureLossIndication && b[4..8] == Be32(asked) && b[8..12] == Be32(mine)
       <==> b == PrintPictureLoss(asked, mine)
  {
    var printed := PrintPictureLoss(asked, mine);
    assert |printed| == 12 && printed[4..8] == Be32(asked) && printed[8..12] == Be32(mine);
    if Classify(b) == PictureLossIndication && b[4..8] == Be32(asked) && b[8..12] == Be32(mine) {
      assert b[0] == 0x81 && b[2] == 0 && b[3] == 2;
      assert b == b[..4] + b[4..8] + b[8..12];
    }
  }

  /** In any compound datagram a picture-loss request is heard exactly for the pairs of SSRCs that some block names. */
  lemma PictureLossScoped(parts: seq<bytes>, asked: u32, mine: u32)
    requires forall b | b in parts :: ReadsAsBlock(b)
    ensures PictureLossFor(Concat(parts), asked, mine) <==> PrintPictureLoss(asked, mine) in parts
  {
    ConcatReads(parts);
    forall b | b in parts
      ensures Classify(b) == PictureLossIndication && b[4..8] == Be32(asked) && b[8..12] == Be32(mine)
         <==> b == PrintPictureLoss(asked, mine)
    {
      RequestIsPrinted(b, asked, mine);
    }
  }

  /** Feedback about the stream is never mistaken for a picture-loss request. */
  lemma FeedbackAsksNoPicture(fbs: seq<Feedback>, receiver: u32, sender: u32)
    requires forall fb | fb in fbs :: Printable(fb)
    ensures !PictureLossFor(Print(fbs), receiver, sender)
  {
    ConcatReads(PrintBlocks(fbs));
  }

  /** The 28-byte sender report, section 6.4.1 of RFC 3550. */
  function SenderReport(ssrc: u32, ntp: u64, rtpTimestamp: u32, stats: SenderStats): bytes {
    [0x80, PT_SENDER_REPORT] + Be16(6)
    + Be32(ssrc) + Be64(ntp) + Be32(rtpTimestamp) + Be32(stats.packets) + Be32(stats.octets)
  }

  lemma SenderReportFields(ssrc: u32, ntp: u64, rtpTimestamp: u32, stats: SenderStats)
    ensures var p := SenderReport(ssrc, ntp, rtpTimestamp, stats);
            && |p| == 28 && ReadsAsBlock(p)
            && p[4..8] == Be32(ssrc) && p[8..16] == Be64(ntp) && p[16..20] == Be32(rtpTimestamp)
            && p[20..24] == Be32(stats.packets) && p[24..28] == Be32(stats.octets)
  {
  }

  /** Every sender report validates as one block and gives back each number put in. */
  lemma SenderReportValid(ssrc: u32, ntp: u64, rtpTimestamp: u32, stats: SenderStats)
    ensures var p := SenderReport(ssrc, ntp, rtpTimestamp, stats);
            && |p| == 28 && Validated(p).Some? && Validated(p).value == [p]
            && FromBe32(p[4..8]) == ssrc && FromBe64(p[8..16]) == ntp && FromBe32(p[16..20]) == rtpTimestamp
            && FromBe32(p[20..24]) == stats.packets && FromBe32(p[24..28]) == stats.octets
  {
    var p := SenderReport(ssrc, ntp, rtpTimestamp, stats);
    SenderReportFields(ssrc, ntp, rtpTimestamp, stats);
    Be32RoundTrip(ssrc);
    Be64RoundTrip(ntp);
    Be32RoundTrip(rtpTimestamp);
    Be32RoundTrip(stats.packets);
    Be32RoundTrip(stats.octets);
    BlockThenRest(p, []);
    assert p + [] == p && [p] + [] == [p];
  }
}
