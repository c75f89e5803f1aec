# BigNetScreen: verified models

This project models the parts of BigNetScreen where many small steps have to
keep one promise: the Cast mirroring transport, the PIN door of the web
publisher, the stores that have to survive concurrency or a crash, the stream
and message transformers, and the two long-running DLNA loops. Each part is a
model of the code's own state, and the main results are statements about every
input, every run or every crash point.

| file | models |
|---|---|
| `Flow.dfy` | the ACK window: expanding an 8-bit frame id, bounding what is outstanding |
| `Rtcp.dfy`, `RtcpPrint.dfy` | validating and reading compound RTCP datagrams; printing and reading back |
| `RtcpGrammar.dfy` | the grammar of the datagrams that are accepted, and what they mean |
| `Rtp.dfy` | packetising frames and reassembling them |
| `Repair.dfy` | retransmission: what a request names, the sender's history and repair queue, what the receiver can rebuild |
| `Mirror.dfy` | sender, receiver and network of one track together, reports travelling in compound RTCP datagrams |
| `Tracks.dfy` | several tracks over one socket: routing of feedback, and every track's safety |
| `Rate.dfy` | bitrate control and its wrapping counters |
| `PinDoor.dfy` | wrong-PIN accounting: per-address and shared lockouts, the bounded table |
| `Identity.dfy`, `IdentityStore.dfy`, `IdentityPins.dfy` | the identity file as text, under concurrent calls, and as a bounded ordered list of pinned keys |
| `FirewallLease.dfy`, `Firewall.dfy` | the firewall lease record and the journalled protocol around it |
| `JoinPoints.dfy` | join points in the served transport stream |
| `Upnp.dfy`, `AvTransport.dfy` | XML escaping and scanning, the two nested documents of `SetAVTransportURI` |
| `Session.dfy` | pause mirroring and the end of a DLNA session |
| `Ssdp.dfy` | the discovery registry and its event log |
| `Common.dfy`, `Text.dfy` | machine integers, byte order, string operations as Rust defines them |

`dafny verify dfyconfig.toml` verifies everything.

## How the models read the code

- Objects that the code updates in place are classes (`AckWindow`, `PinGuards`,
  `Packetizer`, `StreamSender`, `FeedbackRoutes`, `RateControl`, `Machine`, `Joiner`, `PauseMirror`, `Registry`,
  ...). Every method is proved equal to a function of the old state, and the
  lemmas are about that function.
- Integers are unbounded unless a type says otherwise; truncation to 8, 16 and
  32 bits is written out. `x & !0xff` and `| wire` on the 64-bit id are
  arithmetic; `Flow.MaskIsRemainder` and `Flow.JoinIsSum` justify that on words.
- Time is a nondecreasing number of seconds (PIN door) or an opaque instant
  (ACK window). What D-Bus, the network, the file system, GStreamer and the
  renderer answer is a parameter or a nondeterministic choice.
- The loss ratio `resent / sent > 0.02` is exact (`resent * 50 > sent`,
  `Rate.CongestedShare`), not an `f64`.

## Where the code and its own words differ

- `crates/nd-net/src/firewall.rs:286-287` promises that a failed D-Bus cleanup
  never erases the only record of an opened port. `release` keeps it
  (`Firewall.RecordOutlivesRules`), but after a stale release that failed,
  `ensure_ports_open` goes on and `remember` overwrites the record, whether the
  session is then opened or refused.  `Firewall.RecordLost` is a run;
  `Firewall.RecordOverwritten` says exactly when, and at which crash points,
  everything stays on record.
- `crates/nd-webrtc/src/server.rs:43-44` says that one address cannot reach the
  shared PIN limit by itself.  An address that is never right needs exactly 210
  seconds, its own three lockouts; one that enters the right PIN now and then
  needs no time, because that clears its own count and not the shared one:
  `PinDoor.OneAddressLocksEveryone`.
- `crates/nd-chromecast/src/flow.rs:3-5` says that the window bound alone makes
  a wire id name one frame. Without reference times that needs a network that
  never delays a report past 256 frames: `Mirror.StaleReportAliases`,
  `Mirror.ExactIffPrompt`.
- `crates/nd-dlna/src/upnp.rs:383-385` says that escaping drops the characters
  XML 1.0 forbids. It also drops DEL and the controls up to U+009F, which XML
  1.0 allows: `Upnp.LegalExactly`.

## Model

| member | source | states |
|---|---|---|
| Flow.ExpandUnique | crates/nd-chromecast/src/flow.rs:69-72 | for every last sent id, the empty track included, and every byte: the expansion is the one id with that low byte among the 256 most recent |
| Flow.ExpandExact | crates/nd-chromecast/src/flow.rs:58-62 | a true id is recovered from its byte exactly when fewer than 256 ids were sent since |
| Flow.MaskIsRemainder | crates/nd-chromecast/src/flow.rs:69 | masking off the low byte of a 64-bit word is subtracting the remainder modulo 256 |
| Flow.JoinIsSum | crates/nd-chromecast/src/flow.rs:69 | joining the wire byte by `or` is adding it |
| Flow.CoveredIdApplied | crates/nd-chromecast/src/flow.rs:73-83 | a checkpoint the window still covers, not stale, is accepted and applied exactly |
| Flow.FutureIdRefused | crates/nd-chromecast/src/flow.rs:59-60 | an id not sent yet, up to 255 past the checkpoint, is refused |
| Flow.PastIdRefused | crates/nd-chromecast/src/flow.rs:73-75 | an id behind the checkpoint, within one cycle of the last sent, is refused |
| Flow.BoundsKept | crates/nd-chromecast/src/flow.rs:10-38 | sending and acknowledging keep 0 to 120 frames outstanding and never move the checkpoint back |
| Flow.DeadlineOnlyByProgress | crates/nd-chromecast/src/flow.rs:49-54 | over any run, while frames are outstanding, only a checkpoint that moves renews the stall deadline |
| Flow.DeadlineExact | crates/nd-chromecast/src/flow.rs:49-54 | in every run, while frames are outstanding, the stall deadline runs from the latest operation that sent a frame into an idle track or raised the checkpoint |
| Flow.OlderChangesNothing | crates/nd-chromecast/src/flow.rs:64-68 | once a report of some time was accepted, every report of an earlier time changes nothing, whatever came between |
| Flow.AckWindow.Sent | crates/nd-chromecast/src/flow.rs:46-56 | records the next frame; the deadline restarts only from idle |
| Flow.AckWindow.Acknowledge | crates/nd-chromecast/src/flow.rs:63-84 | the whole new window and the verdict; a refused byte changes nothing |
| Mirror.Safe | crates/nd-chromecast/src/flow.rs:58-84 | over every run of one track with loss, duplication, reordering and, given reference times, unbounded delay, its reports in any company: the sender's checkpoint is the highest true checkpoint delivered, never past what the receiver holds, and the window stays bounded |
| Mirror.DeliveryWithTime | crates/nd-chromecast/src/flow.rs:64-68 | with reference times every delivery is either stale and changes nothing or expands to exactly what the receiver meant |
| Mirror.ExactIffPrompt | crates/nd-chromecast/src/flow.rs:61-62 | without them an accepted report is read as meant exactly when fewer than 256 frames were sent since |
| Mirror.StaleReportAliases | crates/nd-chromecast/src/flow.rs:60-62 | a run without reference times after which the sender believes a frame complete that the receiver lacks |
| Mirror.DeliveryIsOneAck | crates/nd-chromecast/src/rtcp.rs:268-315 | the bytes of a compound datagram, parsed by the sender, amount for each track they are about to one acknowledgement of what was meant for it |
| Tracks.FeedbackRoutes.Route | crates/nd-chromecast/src/mirror_session/feedback.rs:73-106 | each feedback moves the window of the track whose pair of SSRCs it names and no other; what was accepted is handed on |
| Tracks.RouteProjects | crates/nd-chromecast/src/mirror_session/feedback.rs:82-98 | routing a datagram is, for each track, applying it to that track alone |
| Tracks.EachTrackIsMirror | crates/nd-chromecast/src/mirror_session/feedback.rs:73-106 | refinement: seen from any one track, every run of the whole session is a run of the single-track protocol |
| Tracks.AllTracksSafe | crates/nd-chromecast/src/mirror_session/feedback.rs:1-7 | over every run of a session with any number of tracks sharing datagrams, every track is safe |
| Tracks.HandedOnInTime | crates/nd-chromecast/src/mirror_session/feedback.rs:89-105 | over every run of a session, of a delivered datagram exactly what is not behind its track in meaning or time is handed on, once, in order, with its own requests |
| Tracks.HeardIsNamed | crates/nd-chromecast/src/mirror_session/feedback.rs:82-88 | whatever arrives, only what names one of our tracks with its own receiver is handed on |
| Rtcp.ValidatedBlocks | crates/nd-chromecast/src/rtcp.rs:119-182 | for every byte string the offset walk terminates with the blocks of the declarative reading, or nothing |
| Rtcp.CheckXrItems | crates/nd-chromecast/src/rtcp.rs:165-177 | the items of an extended report fill it exactly, and a reference time has its size |
| Rtcp.CheckBlock | crates/nd-chromecast/src/rtcp.rs:143-177 | a block passes exactly when it is well formed for its type |
| Rtcp.BlockAt | crates/nd-chromecast/src/rtcp.rs:126-142 | one block found by offset, padding off, is the first block of what is left |
| Rtcp.Compose | crates/nd-chromecast/src/rtcp.rs:115-118 | a valid datagram followed by any bytes validates exactly when it does not end in padding and the rest validates, with the blocks concatenated |
| Rtcp.RawBlocksTile | crates/nd-chromecast/src/rtcp.rs:125-180 | the blocks, padding restored, concatenate to the datagram |
| Rtcp.BlocksUnpad | crates/nd-chromecast/src/rtcp.rs:133-142 | each block is its raw bytes, less exactly the count in the last one if padded |
| Rtcp.FeedbackFits | crates/nd-chromecast/src/rtcp.rs:274-296 | a validated feedback block holds its loss list, so the second length test cannot fail |
| Rtcp.ParseCastFeedbacks | crates/nd-chromecast/src/rtcp.rs:268-315 | the loops, every index in bounds, return the feedbacks of the declarative reading |
| Rtcp.ReadReferenceTime | crates/nd-chromecast/src/rtcp.rs:279-294 | the last reference time of the receiver over all extended reports |
| RtcpGrammar.WellFormedIsPacket | crates/nd-chromecast/src/rtcp.rs:143-177 | a block passes the checks exactly when it is some packet: reports with n blocks of 24 bytes, application data, feedback messages, Cast feedback, or extended report items |
| RtcpGrammar.CutShort | crates/nd-chromecast/src/rtcp.rs:144-164 | such a packet with nothing in it to leave out, cut short anywhere, passes no more |
| RtcpGrammar.AcceptedIsPrinted | crates/nd-chromecast/src/rtcp.rs:119-182 | exactly the datagrams that print some packets one after another, padding behind the last one, are accepted |
| RtcpGrammar.PrintedIsRead | crates/nd-chromecast/src/rtcp.rs:265-315 | from every such datagram exactly its Cast feedbacks are read, in order, each with the last reference time of its receiver |
| RtcpGrammar.SilentChangeNothing | crates/nd-chromecast/src/rtcp.rs:184-195 | other packets anywhere among them change nothing that is read |
| RtcpGrammar.PictureIsRead | crates/nd-chromecast/src/rtcp.rs:197-207 | a picture is asked for exactly by a picture-loss packet that names the pair, in any datagram |
| RtcpPrint.FeedbackRoundTrip | crates/nd-chromecast/src/rtcp.rs:265-315 | any list of feedbacks is read back with each receiver's last time, hence unchanged exactly when each receiver gives one time |
| RtcpPrint.TruncatedRejected | crates/nd-chromecast/src/rtcp.rs:601-613 | a valid datagram followed by any proper part of a block, padded or not, yields nothing |
| RtcpPrint.PictureLossScoped | crates/nd-chromecast/src/rtcp.rs:197-207 | in any datagram of unpadded blocks a picture-loss request is heard exactly for the pairs of SSRCs that some block names |
| RtcpPrint.FeedbackAsksNoPicture | crates/nd-chromecast/src/rtcp.rs:184-207 | no datagram of feedbacks is taken for a picture-loss request |
| RtcpPrint.SenderReportValid | crates/nd-chromecast/src/rtcp.rs:72-94 | every sender report is 28 bytes, validates as one block, and gives back each number put in |
| Rtp.Packetizer.BuildPacket | crates/nd-chromecast/src/rtp.rs:136-178 | header then chunk; the sequence number advances by one modulo 2^16 |
| Rtp.Packetizer.Packetize | crates/nd-chromecast/src/rtp.rs:117-134 | the packets of the frame in order, and the sequence number moved past them |
| Rtp.TotalClosed | crates/nd-chromecast/src/rtp.rs:119-122 | the number of packets is the rounded-up quotient by 1181, never zero |
| Rtp.PacketReads | crates/nd-chromecast/src/rtp.rs:7-21 | every header field and the chunk read back from every packet, which is at most 1200 bytes |
| Rtp.MarkerOnLast | crates/nd-chromecast/src/rtp.rs:150-151 | the last packet of a frame and no other carries the marker; none exceeds 1200 bytes |
| Rtp.SequenceConsecutive | crates/nd-chromecast/src/rtp.rs:152-155 | over any run of frames the sequence numbers count on by one modulo 2^16 |
| Rtp.IdsUnique | crates/nd-chromecast/src/rtp.rs:122-131 | packet ids are distinct exactly up to 65536 times 1181 payload bytes |
| Rtp.FrameRebuilt | crates/nd-chromecast/src/rtp.rs:4-5 | packets in any order and number rebuild the payload exactly when each packet of the frame is among them |
| Repair.NackedFrameRebuilt | crates/nd-chromecast/src/mirror_session/sender.rs:414-448 | for reports of up to 256 requests: the packets that arrived and those the sender queues for the requests rebuild the payload exactly when each packet arrived or was asked for, packet 0xFFFF only by asking for the whole frame; the queue not full |
| Repair.PacketIds | crates/nd-chromecast/src/rtcp.rs:227-243 | ascending ids, an id listed exactly when the request names it; nothing listed exactly for a whole frame |
| Repair.BitReads | crates/nd-chromecast/src/rtcp.rs:233 | a bit of the mask is the binary digit of its place |
| Repair.Addressable | crates/nd-chromecast/src/rtcp.rs:217-239 | a packet can be asked for on its own exactly when its id is not 0xFFFF |
| Repair.MissingCanBeAsked | crates/nd-chromecast/src/rtcp.rs:213-243 | some requests ask for exactly the missing packets, whatever they are, unless they include 0xFFFF and are not all; one request always asks for at least them |
| Repair.StreamSender.Keep | crates/nd-chromecast/src/mirror_session/sender.rs:607-617 | the history after a frame: acknowledged frames that are old, and what is over the bound, dropped from the front |
| Repair.StreamSender.QueueRepairs | crates/nd-chromecast/src/mirror_session/sender.rs:414-448 | the repair queue after a report, and how many requests came too late |
| Repair.QueuedExactly | crates/nd-chromecast/src/mirror_session/sender.rs:421-447 | the queue holds no packet twice and at most 4096, loses none, and short of that gains exactly the packets asked for |
| Repair.ReportQueuedExactly | crates/nd-chromecast/src/mirror_session/sender.rs:421-447 | likewise of a whole report, of whose requests the first 256 are served |
| Repair.ExpiredCounts | crates/nd-chromecast/src/mirror_session/sender.rs:424-431 | what is counted as expired are the requests whose byte no kept frame has |
| Repair.PrunedKeeps | crates/nd-chromecast/src/mirror_session/sender.rs:607-617 | a frame leaves the history exactly when it is acknowledged and older than two seconds, or more than 120 frames back |
| Repair.AwaitedFrameFound | crates/nd-chromecast/src/mirror_session/sender.rs:41-49 | over any run of sending and acknowledging, a request for a frame still awaited finds that frame, as it was sent, by eight bits of its id |
| Repair.OneFrameFits | crates/nd-chromecast/src/mirror_session/sender.rs:29-32 | requests for a single frame of up to 4 MiB never fill the queue |
| Rate.RateControl.Observe | crates/nd-chromecast/src/rate.rs:107-124 | the new rate without 32-bit overflow, in range, announced exactly when it changed |
| Rate.AlwaysInRange | crates/nd-chromecast/src/rate.rs:93-124 | every run stays between 300 and the ceiling |
| Rate.CongestionDecays | crates/nd-chromecast/src/rate.rs:109-113 | n congested windows in a row leave the floor or at most (4/5)^n of the rate |
| Rate.RecoveryBound | crates/nd-chromecast/src/rate.rs:114-122 | after any past, four healthy windows for every 30 kbit missing reach the ceiling and keep it |
| Rate.NoEarlyRise | crates/nd-chromecast/src/rate.rs:36-38 | no three windows after a change raise the rate |
| Rate.OneWindow | crates/nd-chromecast/src/rate.rs:107-124 | a congested window takes a fifth off and no more, a rise adds a tenth and no more, within floor and ceiling; a rise needs four healthy windows in a row and room; nothing else moves the rate |
| Rate.CongestedShare | crates/nd-chromecast/src/rate.rs:51-57 | congested means a dropped frame or more than 2 % of the packets resent |
| Rate.Counters.Record | crates/nd-chromecast/src/rtcp.rs:63-69 | the counters stay the true counts modulo 2^32 |
| Rate.Counters.Advance | crates/nd-chromecast/src/rate.rs:71-83 | the window is what truly left since the last call, whenever that is fewer than 2^32 packets |
| Rate.WindowsConserve | crates/nd-chromecast/src/rate.rs:68-84 | however often the counters wrap, the windows add up to every packet sent, resent and dropped before the last call, and packets and octets are the true ones modulo 2^32 |
| PinDoor.PinGuard.Fail | crates/nd-webrtc/src/server.rs:89-101 | counts a wrong PIN; at the limit locks for twice the last lockout, up to the ceiling |
| PinDoor.PinGuards.MakeRoom | crates/nd-webrtc/src/server.rs:342-344 | a full table forgets exactly the addresses that are not locked, unless this one is known |
| PinDoor.PinGuards.RecordPinAttempt | crates/nd-webrtc/src/server.rs:326-356 | the answer and the whole new table for every attempt |
| PinDoor.SharedSchedule | crates/nd-webrtc/src/server.rs:83-102 | in every run the shared guard is a function of the counted failures, and the n-th of them comes no earlier than the lockouts of all full batches before it |
| PinDoor.LockoutClosed | crates/nd-webrtc/src/server.rs:49-52 | the lockouts last 30, 60, 120, 240, 480 and then 900 seconds |
| PinDoor.BatchesApart | crates/nd-webrtc/src/server.rs:326-355 | between any two counted failures lie all the shared lockouts of the batches between them |
| PinDoor.ExhaustionTakesDays | crates/nd-webrtc/src/server.rs:7-10 | 9,999 counted wrong PINs, all that a search can make, take more than five days, from however many addresses |
| PinDoor.HundredFailuresSpan | crates/nd-webrtc/src/server.rs:42-52 | any 101 consecutive counted failures span more than the longest lockout |
| PinDoor.LockedAtMostHundred | crates/nd-webrtc/src/server.rs:342-344 | at most a hundred addresses are locked at any time of any run |
| PinDoor.TrackedPeersBounded | crates/nd-webrtc/src/server.rs:46-48 | the table never exceeds 256 addresses in any run, although eviction spares the locked ones |
| PinDoor.RunExplained | crates/nd-webrtc/src/server.rs:326-355 | in every run each lock was earned by a failure of that address within 900 seconds of its end |
| PinDoor.AnswerTellsLock | crates/nd-webrtc/src/server.rs:333-355 | in every run 429 is answered exactly when the address is locked out afterwards |
| PinDoor.LockedLearnsNothing | crates/nd-webrtc/src/server.rs:333-335 | while locked out, right and wrong PINs get the same answer and change nothing |
| PinDoor.WrongPinShutsOut | crates/nd-webrtc/src/server.rs:345-355 | a counted wrong PIN shuts out its own address for the lockout it earned, everyone for the shared one if it earned that, and nobody else |
| PinDoor.RightPinKeepsSchedule | crates/nd-webrtc/src/server.rs:336-341 | a right PIN clears its address's count and touches nothing else: not its next lockout's length, not the shared guard, no other address |
| PinDoor.OkExactly | crates/nd-webrtc/src/server.rs:333-341 | the door opens exactly for the right PIN from an address that is not refused |
| PinDoor.LockedOutUntil | crates/nd-webrtc/src/server.rs:326-356 | in every run an address locked until some time is refused at each attempt before then, whatever anyone enters in between and however the table makes room |
| PinDoor.WhoIsRemembered | crates/nd-webrtc/src/server.rs:342-350 | a counted wrong PIN leaves in the table its own address and all others, unless the table was full of others: then just the locked |
| PinDoor.NothingForgotten | crates/nd-webrtc/src/server.rs:46-48 | in every run with at most 256 addresses each guard is what its own attempts earned |
| PinDoor.OneAddressLocksEveryone | crates/nd-webrtc/src/server.rs:42-45 | one address that is never right can shut the door for everyone within d seconds exactly when d is at least 210; one that may also be right can at once |
| PinDoor.LoneSchedule | crates/nd-webrtc/src/server.rs:89-101 | in every run of one address that is never right, its n-th counted wrong PIN comes no earlier than its own lockouts before it |
| Identity.Remembered | crates/nd-chromecast/src/identity.rs:122-160 | the verdict on a receiver and, for a first use, the new text |
| Identity.IdentityFile.CheckIn | crates/nd-chromecast/src/identity.rs:97-117 | accepts or refuses by the verdict; the file changes exactly for a first use |
| Identity.IdentityFile.ForgetIn | crates/nd-chromecast/src/identity.rs:65-84 | rewrites the file without the receiver's lines |
| Identity.EntriesRoundTrip | crates/nd-chromecast/src/identity.rs:124-156 | written entries are read back exactly |
| Identity.HexInjective | crates/nd-chromecast/src/identity.rs:162-164 | different receivers and keys have different texts |
| Identity.LengthTestExact | crates/nd-chromecast/src/identity.rs:71-78 | on any text, equal lengths mean that no line was dropped |
| IdentityStore.CallKeepsProper | crates/nd-chromecast/src/identity.rs:23-24 | every call keeps names unique and at most 256 lines |
| IdentityStore.FirstUseEntries | crates/nd-chromecast/src/identity.rs:146-157 | a first use appends the receiver, dropping the oldest of a full store |
| IdentityStore.ForgetEntries | crates/nd-chromecast/src/identity.rs:65-84 | forgetting removes that receiver's entry from the list and nothing else |
| IdentityStore.FirstKeyPinned | crates/nd-chromecast/src/identity.rs:3-8 | after a first use exactly the same key is accepted, through any calls that do not forget it with at most 255 first uses among them |
| IdentityStore.ForgottenIsNew | crates/nd-chromecast/src/identity.rs:55-57 | a forgotten receiver's next key is a first use |
| IdentityStore.ForgetsNoOther | crates/nd-chromecast/src/identity.rs:69-75 | every other receiver keeps its key, or stays unknown |
| IdentityPins.FileIsPins | crates/nd-chromecast/src/identity.rs:65-160 | refinement: over every sequence of checks and forgets the file answers as, and spells out, the list of receivers with the key each first proved, oldest first, at most 256 |
| IdentityStore.Linearizable | crates/nd-chromecast/src/identity.rs:97-117 | in every interleaving each finished call took effect once, and answers and file are those of the same calls made one at a time |
| IdentityStore.RealTimeOrder | crates/nd-chromecast/src/identity.rs:97-117 | a call that ended before another began took effect before it, in every later log |
| IdentityStore.ConcurrentlyProper | crates/nd-chromecast/src/identity.rs:26-27 | under concurrency no receiver ever has two keys and the bound holds |
| FirewallLease.LeaseRoundTrip | crates/nd-net/src/firewall.rs:83-122 | a lease of WFD ports is read back from its record exactly when the zone's name is one line without white ends |
| FirewallLease.OnlyWfdPortsRead | crates/nd-net/src/firewall.rs:95-117 | from any text at all only WFD ports are read, each once |
| Firewall.Machine.Close | crates/nd-net/src/firewall.rs:305-323 | one rule closed; absence is success, a failed query or removal is not |
| Firewall.Machine.Release | crates/nd-net/src/firewall.rs:288-338 | every world passed through while a lease is released |
| Firewall.Machine.ReleaseStale | crates/nd-net/src/firewall.rs:160-175 | every world passed through while a recorded lease is closed |
| Firewall.Machine.EnsurePortsOpen | crates/nd-net/src/firewall.rs:194-240 | every world passed through while ports are opened, rolled back or found open |
| Firewall.OpenedPortsOpen | crates/nd-net/src/firewall.rs:194-240 | an opened session has every WFD port of its zone open and leases exactly those that were closed; it is refused exactly when some port's query fails or it was closed and does not open, never with D-Bus working |
| Firewall.ReleaseExactly | crates/nd-net/src/firewall.rs:288-338 | with D-Bus reachable a release closes each rule whose query and removal work, and erases the record exactly when none failed and it still holds this lease |
| Firewall.RecordOutlivesRules | crates/nd-net/src/firewall.rs:286-287 | whatever D-Bus does, the record is erased only after every rule on it is absent |
| Firewall.OwnRecordOutlivesRules | crates/nd-net/src/firewall.rs:325-337 | likewise when a session releases its own lease |
| Firewall.EnsureSafe | crates/nd-net/src/firewall.rs:211-239 | at every crash point after the stale release the user's rules are untouched, only WFD ports of the zone were opened and at most one of them is off the record; a lease names no rule that was open before; a session refused with D-Bus working for the rollback ends with the exact rules |
| Firewall.StaleWorks | crates/nd-net/src/firewall.rs:156-175 | with D-Bus working the next start closes exactly what is on record, and the record goes unless it names no port |
| Firewall.CrashRecovered | crates/nd-net/src/firewall.rs:10-12 | a session that dies at any crash point after its stale release leaves the next start, if D-Bus works there, at most one rule of ours more than was open |
| Firewall.LivesSafe | crates/nd-net/src/firewall.rs:1-12 | over any number of lives, each dying at any effect, D-Bus failing at will: the user's rules never change and each life leaves at most two more rules of ours open; with D-Bus working for the stale releases, at most one more off the record |
| Firewall.SessionRestores | crates/nd-net/src/firewall.rs:284-287 | opening, then releasing with D-Bus working, restores the exact rules and leaves no record of the session |
| Firewall.RecordOverwritten | crates/nd-net/src/firewall.rs:198-237 | opened or refused, all that was ours stays on record exactly when the stale release left none of it open or no port was found closed and opened; otherwise it goes off at the crash point after the first added rule |
| Firewall.RecordLost | crates/nd-net/src/firewall.rs:131-142 | the run in which the only record of an open rule is overwritten |
| JoinPoints.Joiner.Mark | crates/nd-core/src/stream_server.rs:427-476 | the packet loop returns the marked buffer and the tables of the declarative walk |
| JoinPoints.JoinPoint | crates/nd-core/src/stream_server.rs:424-426 | a join point starts on PID 0 and holds a random-access packet; inserted tables are a PAT and the PMT it names, with the key-frame packet next; the buffer's own bytes follow unchanged |
| JoinPoints.StreamPreserved | crates/nd-core/src/stream_server.rs:416-476 | over any sequence of buffers the outputs, inserted tables aside, are the inputs, and every unmarked output is a join point |
| JoinPoints.TablesThenKeyFrame | crates/nd-core/src/stream_server.rs:438-458 | in any stream from its start, the tables put in front of a buffer that opens with a key-frame packet are exactly the last PAT looked at and the last PMT on the PID named since that PID was named, byte for byte |
| JoinPoints.KeyFrameJoins | crates/nd-core/src/stream_server.rs:446-462 | in any stream from its start a buffer is a join point exactly when it opens with a PAT and holds a key-frame packet, or opens with a key-frame packet after a PAT and a PMT on the PID it named have passed |
| JoinPoints.PidReads | crates/nd-core/src/stream_server.rs:481-483 | a packet's PID is read from its 13 bits, whatever the flags above them |
| JoinPoints.PatNames | crates/nd-core/src/stream_server.rs:485-490 | the PID that a PAT packet gives its first program is read from it, whatever its pointer skips |
| JoinPoints.PatWithoutRoom | crates/nd-core/src/stream_server.rs:487-488 | none is read exactly when the pointer leaves no room for a program |
| JoinPoints.RandomAccessReads | crates/nd-core/src/stream_server.rs:492-496 | random access is an adaptation field that is present, not empty, and flagged so |
| Upnp.EscapeText | crates/nd-dlna/src/upnp.rs:386-401 | the loop builds the escaped text |
| Upnp.UnescapeEscape | crates/nd-dlna/src/upnp.rs:384-401 | reading escaped text back gives the text without the characters that are dropped |
| Upnp.LegalExactly | crates/nd-dlna/src/upnp.rs:396-398 | what is kept are the characters of XML 1.0 less the controls from DEL to U+009F |
| Upnp.EscapeConcat | crates/nd-dlna/src/upnp.rs:386-401 | escaping is a homomorphism |
| Upnp.EscapeInjective | crates/nd-dlna/src/upnp.rs:386-401 | on what it keeps, escaping is injective |
| Upnp.EscapedHasNoMarkup | crates/nd-dlna/src/upnp.rs:384-386 | escaped text holds no angle bracket and no quote |
| Upnp.TrimEscape | crates/nd-dlna/src/upnp.rs:286 | trimming the escaped text trims the text |
| Upnp.FindTagText | crates/nd-dlna/src/upnp.rs:267-293 | the scan by position gives the text of the declarative scan |
| Upnp.MatchElement | crates/nd-dlna/src/upnp.rs:263-287 | the first element of the name gives its text trimmed, whatever its prefix and attributes |
| Upnp.SkipElement | crates/nd-dlna/src/upnp.rs:282-291 | an element of another name holding only text is passed over |
| AvTransport.StandardServiceHarmless | crates/nd-dlna/src/upnp.rs:366-382 | a service type that passed the check can end neither a header nor an attribute early |
| AvTransport.StandardVersions | crates/nd-dlna/src/upnp.rs:371-381 | a version in decimal passes exactly when it is from 1 to 2^32 - 1 |
| AvTransport.StandardShape | crates/nd-dlna/src/upnp.rs:366-382 | nothing passes but the standard prefix, the name, and digits |
| AvTransport.MetadataFound | crates/nd-dlna/src/avtransport.rs:77-92 | the metadata argument is found in the request whatever it holds |
| AvTransport.DescriptionDelivered | crates/nd-dlna/src/avtransport.rs:77-92 | found and unescaped, it is the very description that was put in |
| AvTransport.TitleRoundTrip | crates/nd-dlna/src/avtransport.rs:222-244 | for every title, two rounds of finding and unescaping give the title less forbidden characters and white ends, and the class reads as written |
| AvTransport.UriDelivered | crates/nd-dlna/src/avtransport.rs:77-92 | for every address, the renderer finds and unescapes it from the request |
| AvTransport.ResourceFound | crates/nd-dlna/src/avtransport.rs:222-244 | and from the description's resource, whatever the title |
| Session.PauseMirror.OnAnswer | crates/nd-dlna/src/session.rs:516-574 | one round of the poller: its variables, the shared flag, the pipeline's target, the end |
| Session.PauseMirror.OnTick | crates/nd-dlna/src/session.rs:353-365 | the renderer is told exactly when the target differs from what it knows |
| Session.TakenLeavesSync | crates/nd-dlna/src/session.rs:519-544 | a pause or resume taken from the renderer leaves nothing to pass back exactly when the pipeline obeys it or was there already |
| Session.PollMoves | crates/nd-dlna/src/session.rs:516-574 | in every run a pause of the renderer's own holds the file, the next Playing answer after it resumes the file, and no other answer moves either |
| Session.FlagIsLastSaid | crates/nd-dlna/src/session.rs:353-365 | in every run the flag is what the renderer last said of itself or was told |
| Session.ActionPassedOn | crates/nd-dlna/src/session.rs:353-365 | what the person does reaches the renderer at the watcher's next turn, once, unless it knows already |
| Session.NoEcho | crates/nd-dlna/src/session.rs:522-523 | over any interleaving with the pipeline obeying, the renderer is told no more often than the person acts, and never without an action from a state in step |
| Session.RefusedHoldEchoes | crates/nd-dlna/src/session.rs:539-541 | a hold the pipeline refuses comes back at the renderer |
| Session.EndsExactly | crates/nd-dlna/src/session.rs:545-573 | the session ends at a poll exactly when it and an earlier one speak for an end with nothing alive between; silence counts only after playing |
| Ssdp.FirstReplies | crates/nd-dlna/src/ssdp.rs:213-223 | the first reply of each renderer, none missing below the bound |
| Ssdp.HeardAmong | crates/nd-dlna/src/ssdp.rs:294 | a renderer is heard exactly when one of the replies is its own |
| Ssdp.Registry.DescribeAnnounced | crates/nd-dlna/src/ssdp.rs:314-355 | what was described is listed, up to the bound, each with its event; the log replays to the registry |
| Ssdp.Registry.RemoveGone | crates/nd-dlna/src/ssdp.rs:303-308 | every renderer silent too long is removed, with exactly one event each and no other, the log in step |
| Ssdp.Registry.SweepOnce | crates/nd-dlna/src/ssdp.rs:265-310 | one sweep: the listed renderers, and every event in order, the log replaying to exactly those listed |
| Ssdp.RegistryBounded | crates/nd-dlna/src/ssdp.rs:340-343 | the registry never exceeds 256 renderers |
| Ssdp.RemovedAtSecondMiss | crates/nd-dlna/src/ssdp.rs:292-302 | a listed renderer is removed exactly by the second successful sweep in a row without its reply |
| Ssdp.ListedWhereDescribed | crates/nd-dlna/src/ssdp.rs:344 | a renderer is listed where a description put it, or as it was |
| Ssdp.DescribedIsListed | crates/nd-dlna/src/ssdp.rs:332-353 | after a sweep a renderer that replied and was described is listed, exactly unless it was new and the registry full, and where its last description said |

## Left out

- The callers of the ACK window and the rate control (`mirror_session/`), except for the routing of feedback and the queueing of repairs: the order of their calls is left open, and the debug assertions are preconditions of `AckWindow.Sent`.
- How much of the repair queue goes out in one turn (burst budget, pacing, send errors), and the bound on the inbox between routing and repair.
- How a receiver decides what it holds and what to ask for: its checkpoint moves freely up to the last frame sent, its NACK lists are arbitrary.
- A receiver that sends reference times on some reports only; a session has them throughout or not at all.
- AES-CTR, TLS, DeviceAuth, protobuf and JSON: payload bytes are opaque.
- `ntp_timestamp`, name tables, size and clock helpers, settings, pages: small functions without a promise beyond their body.
- The `u32` count of healthy windows in `RateControl` is unbounded here; the code's would overflow after 2^32 healthy windows at the ceiling.
- `RateControl.Observe` takes ceilings up to `u32::MAX / 11`, above which the code's own product overflows.
- The constant-time comparison of PINs is equality, and an attempt is right or wrong.
- Identity file: a missing data directory (the check accepts without remembering) and errors other than failing reads and writes.
- Firewall: a D-Bus call that reports failure is taken to have changed nothing, and journal writes succeed.
- Firewall: a zone name that is not one line without white ends; its record could not be read back (`FirewallLease.LeaseRoundTrip`).
- Firewall: rules the user opens or closes, or a reload, in the middle of a session.
- Stream buffers that cannot be mapped, their timestamps, and GStreamer's buffer lists.
- The attributes of the two documents (namespaces, `protocolInfo`, `resolution`) are written as the code does but not read back.
- XML line-end normalisation and character references other than the five named entities on the reader's side.
- `Service::find` and URL resolution; a service type is any text without `>` in the round trip, which `AvTransport.StandardServiceHarmless` grants.
- Session: the hand-over, first-client deadline and size measurement; whether the watcher may run is a flag of each tick.
- Ssdp: which descriptions are fetched (renderers listed at the same address are skipped) is left open; descriptions are taken in any order they finish.
- The engine, capture, Wi-Fi Direct, the GUI and all logging.
