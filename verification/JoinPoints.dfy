/**
 * Where a late receiver can join the served transport stream: at a buffer with
 * a key frame that either starts with tables or has had the remembered PAT and
 * PMT put in front.  All other buffers are marked as deltas.
 *
 * A transport packet is 188 bytes starting with 0x47 (section 2.4.3 of
 * ISO/IEC 13818-1).
 */
module JoinPoints {
  import opened Common

  const TS_PACKET := 188

  type Packet = p: bytes | |p| == 188 && p[0] == 0x47 witness [0x47] + seq(187, _ => 0)

  /** A 13-bit PID from the low five bits of one byte and all of the next. */
  function Pid(high: int, low: int): nat
    requires 0 <= high && 0 <= low
  {
    high % 0x20 * 0x100 + low
  }

  function TsPid(p: Packet): nat {
    Pid(p[1], p[2])
  }

  /** Where a PAT's first program has its PMT; nothing if that entry lies beyond the packet. */
  function PmtPid(pat: Packet): Option<nat> {
    var pointer: int := pat[4];
    var section := 5 + pointer;
    if section + 12 > 188 then None else Some(Pid(pat[section + 10], pat[section + 11]))
  }

  /** There is an adaptation field and its random-access bit is set. */
  predicate RandomAccess(p: Packet) {
    p[3] / 0x20 % 2 == 1 && p[4] > 0 && p[5] / 0x40 % 2 == 1
  }

  /** A packet on a PID carries it in 13 bits, under three bits of flags (section 2.4.3.2). */
  lemma PidReads(p: Packet, flags: nat, pid: nat)
    requires flags < 8 && pid < 0x2000 && p[1] == 0x20 * flags + pid / 0x100 && p[2] == pid % 0x100
    ensures TsPid(p) == pid
  {
  }

  /**
   * A PAT packet: the header, the pointer and the bytes it skips, the eight bytes
   * of a section header, and the first program with the PID of its map
   * (section 2.4.4.3).
   */
  function PatPacket(header: bytes, skipped: bytes, section: bytes, program: bytes, flags: nat, pid: nat, rest: bytes): bytes
    requires |skipped| < 0x100 && flags < 8 && pid < 0x2000
  {
    header + [|skipped|] + skipped + section + program + [0x20 * flags + pid / 0x100, pid % 0x100] + rest
  }

  /** The PID that a PAT gives its program is read from it, whatever is skipped. */
  lemma PatNames(p: Packet, header: bytes, skipped: bytes, section: bytes, program: bytes, flags: nat, pid: nat, rest: bytes)
    requires |skipped| < 0x100 && flags < 8 && pid < 0x2000 && |header| == 4 && |section| == 8 && |program| == 2
    requires p == PatPacket(header, skipped, section, program, flags, pid, rest)
    ensures PmtPid(p) == Some(pid)
  {
    var at := 15 + |skipped|;
    assert p[4] == |skipped|;
    assert p[at] == 0x20 * flags + pid / 0x100 && p[at + 1] == pid % 0x100;
  }

  /** None is read exactly when the pointer leaves no room for a program in the packet. */
  lemma PatWithoutRoom(p: Packet)
    ensures PmtPid(p).None? <==> 5 + p[4] + 8 + 4 > TS_PACKET
  {
  }

  /**
   * The bits of a random access point (sections 2.4.3.3 and 2.4.3.5): the packet
   * has an adaptation field, alone or before a payload, not empty, and its second
   * flag is set.
   */
  lemma RandomAccessReads(p: Packet, scrambling: nat, control: nat, counter: nat, discontinuity: nat, random: nat, others: nat)
    requires scrambling < 4 && control < 4 && counter < 16 && p[3] == 0x40 * scrambling + 0x10 * control + counter
    requires discontinuity < 2 && random < 2 && others < 0x40 && p[5] == 0x80 * discontinuity + 0x40 * random + others
    ensures RandomAccess(p) <==> control >= 2 && p[4] != 0 && random == 1
  {
  }

  /** The last PAT, and the PMT of the PID the last readable PAT named; empty until one passed. */
  datatype Tables = Tables(pat: Option<Packet>, pmtPid: Option<nat>, pmt: Option<Packet>)

  const NO_TABLES := Tables(None, None, None)

  predicate IsPmt(t: Tables, p: Packet) {
    TsPid(p) != 0 && t.pmtPid == Some(TsPid(p))
  }

  /** What a table packet leaves remembered; other packets change nothing. */
  function Remember(t: Tables, p: Packet): Tables {
    if TsPid(p) == 0 then
      var named := PmtPid(p);
      if named.None? || named == t.pmtPid then t.(pat := Some(p)) else Tables(Some(p), named, None)
    else if IsPmt(t, p) then t.(pmt := Some(p))
    else t
  }

  predicate KeyFrame(t: Tables, p: Packet) {
    TsPid(p) != 0 && !IsPmt(t, p) && RandomAccess(p)
  }

  /** The whole packets at the start of a buffer, up to the first that is none. */
  function PacketsOf(data: bytes): seq<Packet> {
    if |data| < 188 || data[0] != 0x47 then []
    else [data[..188]] + PacketsOf(data[188..])
  }

  /** Walks the packets to the first key-frame packet: its index, and the tables by then. */
  function Walk(t: Tables, packets: seq<Packet>): (Tables, Option<nat>)
    decreases |packets|
  {
    if packets == [] then (t, None)
    else if KeyFrame(t, packets[0]) then (t, Some(0))
    else
      var (t', index) := Walk(Remember(t, packets[0]), packets[1..]);
      (t', if index.Some? then Some(index.value + 1) else None)
  }

  datatype Buffer = Buffer(data: bytes, delta: bool)

  function Join(t: Tables, data: bytes): Buffer {
    var packets := PacketsOf(data);
    var (t', index) := Walk(t, packets);
    if index.None? then Buffer(data, true)
    else if TsPid(packets[0]) == 0 then Buffer(data, false)
    else if index.value == 0 && t'.pat.Some? && t'.pmt.Some? then
      Buffer(t'.pat.value + t'.pmt.value + data, false)
    else Buffer(data, true)
  }

  class Joiner {
    var pat: Option<Packet>
    var pmtPid: Option<nat>
    var pmt: Option<Packet>

    function View(): Tables
      reads this
    {
      Tables(pat, pmtPid, pmt)
    }

    constructor ()
      ensures View() == NO_TABLES
    {
      pat, pmtPid, pmt := None, None, None;
    }

    /** Marks one buffer, keeping what tables pass on the way to its first key-frame packet. */
    method Mark(data: bytes) returns (marked: Buffer)
      modifies this
      ensures marked == Join(old(View()), data)
      ensures View() == Walk(old(View()), PacketsOf(data)).0
    {
      var packets := PacketsOf(data);
      var opensWithTables := false;
      ghost var start := View();
      for index := 0 to |packets|
        invariant opensWithTables <==> index > 0 && TsPid(packets[0]) == 0
        invariant Walk(start, packets).0 == Walk(View(), packets[index..]).0
        invariant Walk(start, packets).1
               == match Walk(View(), packets[index..]).1 case None => None case Some(k) => Some(index + k)
      {
        var packet := packets[index];
        var pid := TsPid(packet);
        assert packets[index..][1..] == packets[index + 1..];
        if pid == 0 {
          var named := PmtPid(packet);
          if named.Some? && named != pmtPid {
            pmtPid := named;
            pmt := None;
          }
          pat := Some(packet);
          if index == 0 {
            opensWithTables := true;
          }
        } else if pmtPid == Some(pid) {
          pmt := Some(packet);
        } else if RandomAccess(packet) {
          if opensWithTables {
            return Buffer(data, false);
          }
          if index == 0 && pat.Some? && pmt.Some? {
            return Buffer(pat.value + pmt.value + data, false);
          }
          return Buffer(data, true);
        }
      }
      return Buffer(data, true);
    }
  }

  // ---------------------------------------------------------------- tables

  /** What the remembered packets are: a PAT, and a PMT on the PID the last readable PAT named. */
  ghost predicate Coherent(t: Tables) {
    && (t.pat.Some? ==> TsPid(t.pat.value) == 0)
    && (t.pmt.Some? ==> t.pmtPid == Some(TsPid(t.pmt.value)) && TsPid(t.pmt.value) != 0)
    && (t.pat.Some? && PmtPid(t.pat.value).Some? ==> t.pmtPid == PmtPid(t.pat.value))
  }

  lemma {:induction false} WalkCoherent(t: Tables, packets: seq<Packet>)
    requires Coherent(t)
    ensures Coherent(Walk(t, packets).0)
    decreases |packets|
  {
    if packets != [] && !KeyFrame(t, packets[0]) {
      WalkCoherent(Remember(t, packets[0]), packets[1..]);
    }
  }

  lemma {:induction false} WalkFinds(t: Tables, packets: seq<Packet>)
    ensures var index := Walk(t, packets).1;
            index.Some? ==> index.value < |packets| && RandomAccess(packets[index.value]) && TsPid(packets[index.value]) != 0
    decreases |packets|
  {
    if packets != [] && !KeyFrame(t, packets[0]) {
      WalkFinds(Remember(t, packets[0]), packets[1..]);
    }
  }

  /** Packet `i` of a buffer is its 188 bytes from `188 * i` on. */
  lemma {:induction false} PacketAt(data: bytes, i: nat)
    requires i < |PacketsOf(data)|
    ensures 188 * i + 188 <= |data| && PacketsOf(data)[i] == data[188 * i..188 * i + 188]
  {
    if i > 0 {
      PacketAt(data[188..], i - 1);
      assert data[188..][188 * (i - 1)..188 * i] == data[188 * i..188 * i + 188];
    }
  }

  lemma {:induction false} PacketsAppend(p: Packet, data: bytes)
    ensures PacketsOf(p + data) == [p] + PacketsOf(data)
  {
  }

  // ---------------------------------------------------------- main results

  /** The data of a marked buffer less what was put in front of it. */
  function Stripped(marked: Buffer, original: bytes): bytes
    requires |marked.data| >= |original|
  {
    marked.data[|marked.data| - |original|..]
  }

  /** The bytes of a join point: PID 0 first, a random-access packet among the rest. */
  ghost predicate Joins(data: bytes) {
    var packets := PacketsOf(data);
    packets != [] && TsPid(packets[0]) == 0 && exists i :: 0 <= i < |packets| && RandomAccess(packets[i])
  }

  /**
   * A join point, as sections 2.4.3 and 2.4.4 of ISO/IEC 13818-1 describe it:
   * its first packet is on PID 0 and it holds a random-access packet; and when
   * tables were put in front, they are a PAT and the PMT on the PID it names
   * if it can be read, and the key-frame packet follows at once.
   */
  lemma JoinPoint(t: Tables, data: bytes)
    requires Coherent(t)
    ensures var out := Join(t, data);
            && |out.data| >= |data| && Stripped(out, data) == data
            && (out.delta ==> out.data == data)
            && (!out.delta ==> Joins(out.data))
            && (out.data != data ==>
                  var packets := PacketsOf(out.data);
                  && |packets| >= 3 && |out.data| == |data| + 2 * TS_PACKET
                  && (PmtPid(packets[0]).Some? ==> PmtPid(packets[0]) == Some(TsPid(packets[1])))
                  && RandomAccess(packets[2]) && packets[2] == data[..188])
  {
    var packets := PacketsOf(data);
    var (t', index) := Walk(t, packets);
    WalkCoherent(t, packets);
    WalkFinds(t, packets);
    var out := Join(t, data);
    if out.data != data {
      var (pat, pmt) := (t'.pat.value, t'.pmt.value);
      assert out.data == pat + (pmt + data);
      PacketsAppend(pmt, data);
      PacketsAppend(pat, pmt + data);
      assert PacketsOf(out.data)[2] == packets[0];
      PacketAt(data, 0);
    } else if !out.delta {
      assert RandomAccess(packets[index.value]);
    }
  }

  /** The marks over a sequence of buffers, and the tables after them. */
  function Marked(t: Tables, buffers: seq<bytes>): (marked: seq<Buffer>)
    ensures |marked| == |buffers|
    decreases |buffers|
  {
    if buffers == [] then []
    else [Join(t, buffers[0])] + Marked(Walk(t, PacketsOf(buffers[0])).0, buffers[1..])
  }

  /** The stream a receiver gets from buffer `from` on, inserted tables taken out again. */
  function Content(marked: seq<Buffer>, originals: seq<bytes>): bytes
    requires |marked| == |originals|
    requires forall k | 0 <= k < |marked| :: |marked[k].data| >= |originals[k]|
  {
    if marked == [] then []
    else Stripped(marked[0], originals[0]) + Content(marked[1..], originals[1..])
  }

  /** Whatever passed before it, a buffer keeps its bytes, and unless marked as a delta it joins. */
  lemma {:induction false} MarkedAt(t: Tables, buffers: seq<bytes>, k: nat)
    requires Coherent(t) && k < |buffers|
    ensures var out := Marked(t, buffers)[k];
            |out.data| >= |buffers[k]| && Stripped(out, buffers[k]) == buffers[k] && (out.delta || Joins(out.data))
    decreases k
  {
    if k == 0 {
      JoinPoint(t, buffers[0]);
    } else {
      WalkCoherent(t, PacketsOf(buffers[0]));
      MarkedAt(Walk(t, PacketsOf(buffers[0])).0, buffers[1..], k - 1);
    }
  }

  lemma {:induction false} ContentIsAll(marked: seq<Buffer>, originals: seq<bytes>)
    requires |marked| == |originals|
    requires forall k | 0 <= k < |marked| ::
               |marked[k].data| >= |originals[k]| && Stripped(marked[k], originals[k]) == originals[k]
    ensures Content(marked, originals) == Concat(originals)
  {
    if marked != [] {
      ContentIsAll(marked[1..], originals[1..]);
    }
  }

  /**
   * Over any sequence of buffers no byte of the stream is lost, repeated or
   * moved: the outputs, inserted tables aside, are the inputs; and each output
   * not marked as a delta is a join point.
   */
  lemma StreamPreserved(t: Tables, buffers: seq<bytes>)
    requires Coherent(t)
    ensures var marked := Marked(t, buffers);
            && |marked| == |buffers|
            && (forall k | 0 <= k < |marked| :: |marked[k].data| >= |buffers[k]|)
            && Content(marked, buffers) == Concat(buffers)
            && (forall k | 0 <= k < |marked| && !marked[k].delta :: Joins(marked[k].data))
  {
    var marked := Marked(t, buffers);
    forall k | 0 <= k < |marked|
      ensures |marked[k].data| >= |buffers[k]| && Stripped(marked[k], buffers[k]) == buffers[k]
      ensures marked[k].delta || Joins(marked[k].data)
    {
      MarkedAt(t, buffers, k);
    }
    ContentIsAll(marked, buffers);
  }

  // --------------------------------------------------- which tables they are

  /** The packets looked at in a buffer: those before its first key-frame packet. */
  function Walked(t: Tables, packets: seq<Packet>): seq<Packet>
    decreases |packets|
  {
    if packets == [] || KeyFrame(t, packets[0]) then []
    else [packets[0]] + Walked(Remember(t, packets[0]), packets[1..])
  }

  /** The packets looked at over a sequence of buffers. */
  function AllWalked(t: Tables, buffers: seq<bytes>): seq<Packet>
    decreases |buffers|
  {
    if buffers == [] then []
    else
      var packets := PacketsOf(buffers[0]);
      Walked(t, packets) + AllWalked(Walk(t, packets).0, buffers[1..])
  }

  function RememberAll(t: Tables, walked: seq<Packet>): Tables {
    if walked == [] then t else Remember(RememberAll(t, walked[..|walked| - 1]), walked[|walked| - 1])
  }

  lemma {:induction false} RememberMore(t: Tables, a: seq<Packet>, b: seq<Packet>)
    ensures RememberAll(t, a + b) == RememberAll(RememberAll(t, a), b)
  {
    if b == [] {
      assert a + b == a;
    } else {
      RememberMore(t, a, b[..|b| - 1]);
      assert (a + b)[..|a + b| - 1] == a + b[..|b| - 1];
    }
  }

  lemma {:induction false} WalkRemembers(t: Tables, packets: seq<Packet>)
    ensures Walk(t, packets).0 == RememberAll(t, Walked(t, packets))
    decreases |packets|
  {
    if packets != [] && !KeyFrame(t, packets[0]) {
      WalkRemembers(Remember(t, packets[0]), packets[1..]);
      RememberMore(t, [packets[0]], Walked(Remember(t, packets[0]), packets[1..]));
      assert RememberAll(t, [packets[0]]) == Remember(t, packets[0]);
    }
  }

  /** Buffer `k` of a stream is joined with the tables that all the packets looked at before it leave. */
  lemma {:induction false} JoinedWith(t: Tables, buffers: seq<bytes>, k: nat)
    requires k < |buffers|
    ensures Marked(t, buffers)[k] == Join(RememberAll(t, AllWalked(t, buffers[..k])), buffers[k])
    decreases k
  {
    if k > 0 {
      var packets := PacketsOf(buffers[0]);
      var t' := Walk(t, packets).0;
      WalkRemembers(t, packets);
      JoinedWith(t', buffers[1..], k - 1);
      assert buffers[..k][1..] == buffers[1..][..k - 1];
      RememberMore(t, Walked(t, packets), AllWalked(t', buffers[1..][..k - 1]));
    }
  }

  predicate IsPat(p: Packet) {
    TsPid(p) == 0
  }

  /** The PID that the last PAT which could be read named. */
  function Named(walked: seq<Packet>): Option<nat> {
    if walked == [] then None
    else
      var p := walked[|walked| - 1];
      if IsPat(p) && PmtPid(p).Some? then PmtPid(p) else Named(walked[..|walked| - 1])
  }

  /** Packet `i` is a PAT and none follows it. */
  ghost predicate LastPat(walked: seq<Packet>, i: nat) {
    i < |walked| && IsPat(walked[i]) && forall j | i < j < |walked| :: !IsPat(walked[j])
  }

  /**
   * Packet `i` is a PMT of the program: it is on the PID named when it passed,
   * no packet on that PID follows it, and no PAT since names another.
   */
  ghost predicate LastPmt(walked: seq<Packet>, i: nat) {
    && i < |walked| && !IsPat(walked[i]) && Named(walked[..i]) == Some(TsPid(walked[i]))
    && forall j | i < j < |walked| ::
         TsPid(walked[j]) != TsPid(walked[i])
         && (IsPat(walked[j]) && PmtPid(walked[j]).Some? ==> PmtPid(walked[j]) == Some(TsPid(walked[i])))
  }

  ghost predicate PatIs(walked: seq<Packet>, p: Packet) {
    exists i: nat :: LastPat(walked, i) && walked[i] == p
  }

  ghost predicate PmtIs(walked: seq<Packet>, p: Packet) {
    exists i: nat :: LastPmt(walked, i) && walked[i] == p
  }

  lemma LastPatStep(walked: seq<Packet>, x: Packet, i: nat)
    requires i < |walked|
    ensures LastPat(walked + [x], i) <==> LastPat(walked, i) && !IsPat(x)
  {
    var longer := walked + [x];
    assert forall j | 0 <= j < |walked| :: longer[j] == walked[j];
    assert longer[|walked|] == x;
  }

  lemma PatIsStep(walked: seq<Packet>, x: Packet, p: Packet)
    ensures PatIs(walked + [x], p) <==> if IsPat(x) then p == x else PatIs(walked, p)
  {
    var longer := walked + [x];
    if IsPat(x) {
      assert LastPat(longer, |walked|);
    }
    if PatIs(longer, p) {
      var i: nat :| LastPat(longer, i) && longer[i] == p;
      if i < |walked| {
        LastPatStep(walked, x, i);
        assert walked[i] == p;
      }
    }
    if PatIs(walked, p) {
      var i: nat :| LastPat(walked, i) && walked[i] == p;
      LastPatStep(walked, x, i);
      assert longer[i] == p;
    }
  }

  lemma LastPmtStep(walked: seq<Packet>, x: Packet, i: nat)
    requires i < |walked|
    ensures LastPmt(walked + [x], i)
       <==> LastPmt(walked, i) && TsPid(x) != TsPid(walked[i])
            && (IsPat(x) && PmtPid(x).Some? ==> PmtPid(x) == Some(TsPid(walked[i])))
  {
    var longer := walked + [x];
    assert longer[..i] == walked[..i];
    assert forall j | 0 <= j < |walked| :: longer[j] == walked[j];
    assert longer[|walked|] == x;
  }

  lemma PmtIsStep(walked: seq<Packet>, x: Packet, p: Packet)
    ensures PmtIs(walked + [x], p)
       <==> if !IsPat(x) && Named(walked) == Some(TsPid(x)) then p == x
            else PmtIs(walked, p) && (IsPat(x) && PmtPid(x).Some? ==> PmtPid(x) == Named(walked))
  {
    var longer := walked + [x];
    assert longer[..|walked|] == walked;
    if !IsPat(x) && Named(walked) == Some(TsPid(x)) {
      assert LastPmt(longer, |walked|) && longer[|walked|] == x;
    }
    if PmtIs(longer, p) {
      var i: nat :| LastPmt(longer, i) && longer[i] == p;
      if i < |walked| {
        LastPmtStep(walked, x, i);
        StillNamed(walked, i);
        assert walked[i] == p;
      }
    }
    if PmtIs(walked, p) {
      var i: nat :| LastPmt(walked, i) && walked[i] == p;
      LastPmtStep(walked, x, i);
      StillNamed(walked, i);
      assert longer[i] == p;
    }
  }

  lemma {:induction false} StillNamed(walked: seq<Packet>, i: nat)
    requires LastPmt(walked, i)
    ensures Named(walked) == Some(TsPid(walked[i]))
  {
    var front := walked[..|walked| - 1];
    if i < |walked| - 1 {
      assert walked == front + [walked[|walked| - 1]];
      LastPmtStep(front, walked[|walked| - 1], i);
      StillNamed(front, i);
    }
  }

  lemma {:induction false} PidNamed(walked: seq<Packet>)
    ensures RememberAll(NO_TABLES, walked).pmtPid == Named(walked)
  {
    if walked != [] {
      PidNamed(walked[..|walked| - 1]);
    }
  }

  /** What is remembered after any packets: the last PAT, and the last PMT on the PID last named, since it was. */
  lemma {:induction false} TablesAre(walked: seq<Packet>, p: Packet)
    ensures RememberAll(NO_TABLES, walked).pat == Some(p) <==> PatIs(walked, p)
    ensures RememberAll(NO_TABLES, walked).pmt == Some(p) <==> PmtIs(walked, p)
  {
    if walked != [] {
      var front, x := walked[..|walked| - 1], walked[|walked| - 1];
      assert walked == front + [x];
      TablesAre(front, p);
      PidNamed(front);
      PatIsStep(front, x, p);
      PmtIsStep(front, x, p);
    }
  }

  /**
   * Which tables stand in front of a key frame, in any stream from its start:
   * when a buffer opens with a key-frame packet, a PAT and a PMT are put
   * before it, byte for byte, exactly when they are the last PAT looked at
   * and the last PMT on the PID named since that PID was named.
   */
  lemma TablesThenKeyFrame(buffers: seq<bytes>, k: nat, pat: Packet, pmt: Packet)
    requires k < |buffers| && PacketsOf(buffers[k]) != []
    requires var first := PacketsOf(buffers[k])[0];
             !IsPat(first) && RandomAccess(first) && Named(AllWalked(NO_TABLES, buffers[..k])) != Some(TsPid(first))
    ensures var walked := AllWalked(NO_TABLES, buffers[..k]);
            Marked(NO_TABLES, buffers)[k] == Buffer(pat + pmt + buffers[k], false) <==> PatIs(walked, pat) && PmtIs(walked, pmt)
  {
    var walked := AllWalked(NO_TABLES, buffers[..k]);
    var t := RememberAll(NO_TABLES, walked);
    JoinedWith(NO_TABLES, buffers, k);
    PidNamed(walked);
    TablesAre(walked, pat);
    TablesAre(walked, pmt);
    assert Walk(t, PacketsOf(buffers[k])) == (t, Some(0));
    if t.pat.Some? && t.pmt.Some? {
      SameTables(t.pat.value, t.pmt.value, pat, pmt, buffers[k]);
    }
  }

  lemma SameTables(pat: Packet, pmt: Packet, pat': Packet, pmt': Packet, data: bytes)
    ensures pat + pmt + data == pat' + pmt' + data <==> pat == pat' && pmt == pmt'
  {
    if pat + pmt + data == pat' + pmt' + data {
      assert pat == (pat + pmt + data)[..188] == pat';
      assert pmt == (pat + pmt + data)[188..376] == pmt';
    }
  }

  /** A key-frame packet: random access, and neither a PAT nor on the PID named for the PMT. */
  predicate IsKey(before: seq<Packet>, p: Packet) {
    !IsPat(p) && RandomAccess(p) && Named(before) != Some(TsPid(p))
  }

  /** Packet `i` of a buffer is one, counting the tables that pass before it in the buffer. */
  ghost predicate KeyAt(walked: seq<Packet>, packets: seq<Packet>, i: nat) {
    i < |packets| && IsKey(walked + packets[..i], packets[i])
  }

  lemma {:induction false} WalkFindsKey(walked: seq<Packet>, packets: seq<Packet>)
    ensures Walk(RememberAll(NO_TABLES, walked), packets).1.Some? <==> exists i: nat :: KeyAt(walked, packets, i)
    decreases |packets|
  {
    if packets != [] {
      var p, rest := packets[0], packets[1..];
      PidNamed(walked);
      assert walked + packets[..0] == walked;
      if IsKey(walked, p) {
        assert KeyAt(walked, packets, 0);
      } else {
        assert RememberAll(NO_TABLES, walked + [p]) == Remember(RememberAll(NO_TABLES, walked), p) by {
          assert (walked + [p])[..|walked|] == walked;
        }
        WalkFindsKey(walked + [p], rest);
        forall i: nat
          ensures KeyAt(walked + [p], rest, i) <==> KeyAt(walked, packets, i + 1)
        {
          KeyAtNext(walked, packets, i);
        }
        if i: nat :| KeyAt(walked, packets, i) {
          assert i != 0 && KeyAt(walked + [p], rest, i - 1);
        }
        if i: nat :| KeyAt(walked + [p], rest, i) {
          assert KeyAt(walked, packets, i + 1);
        }
      }
    }
  }

  lemma KeyAtNext(walked: seq<Packet>, packets: seq<Packet>, i: nat)
    requires packets != []
    ensures KeyAt(walked + [packets[0]], packets[1..], i) <==> KeyAt(walked, packets, i + 1)
  {
    if i + 1 < |packets| {
      assert walked + [packets[0]] + packets[1..][..i] == walked + packets[..i + 1];
    }
  }

  lemma SomeTables(walked: seq<Packet>)
    ensures RememberAll(NO_TABLES, walked).pat.Some? <==> exists p: Packet :: PatIs(walked, p)
    ensures RememberAll(NO_TABLES, walked).pmt.Some? <==> exists p: Packet :: PmtIs(walked, p)
  {
    var t := RememberAll(NO_TABLES, walked);
    if t.pat.Some? {
      TablesAre(walked, t.pat.value);
    } else if p: Packet :| PatIs(walked, p) {
      TablesAre(walked, p);
    }
    if t.pmt.Some? {
      TablesAre(walked, t.pmt.value);
    } else if p: Packet :| PmtIs(walked, p) {
      TablesAre(walked, p);
    }
  }

  lemma FoundAtOnce(t: Tables, packets: seq<Packet>)
    ensures Walk(t, packets).1 == Some(0) <==> packets != [] && KeyFrame(t, packets[0])
    ensures Walk(t, packets).1 == Some(0) ==> Walk(t, packets).0 == t
  {
  }

  lemma JoinCases(t: Tables, data: bytes)
    ensures var packets := PacketsOf(data);
            !Join(t, data).delta <==>
              packets != [] && if IsPat(packets[0]) then Walk(t, packets).1.Some?
                               else KeyFrame(t, packets[0]) && t.pat.Some? && t.pmt.Some?
  {
    FoundAtOnce(t, PacketsOf(data));
  }

  /**
   * Which buffers are join points, in any stream from its start: those that open
   * with a PAT and hold a key-frame packet, and those that open with a
   * key-frame packet once a PAT, and a PMT on the PID it named, have passed.
   */
  lemma KeyFrameJoins(buffers: seq<bytes>, k: nat)
    requires k < |buffers|
    ensures var walked, packets := AllWalked(NO_TABLES, buffers[..k]), PacketsOf(buffers[k]);
            !Marked(NO_TABLES, buffers)[k].delta <==>
              (packets != [] &&
               if IsPat(packets[0]) then exists i: nat :: KeyAt(walked, packets, i)
               else IsKey(walked, packets[0]) && (exists p: Packet :: PatIs(walked, p)) && (exists p: Packet :: PmtIs(walked, p)))
  {
    var walked, packets := AllWalked(NO_TABLES, buffers[..k]), PacketsOf(buffers[k]);
    JoinedWith(NO_TABLES, buffers, k);
    PidNamed(walked);
    SomeTables(walked);
    WalkFindsKey(walked, packets);
    JoinCases(RememberAll(NO_TABLES, walked), buffers[k]);
  }
}
