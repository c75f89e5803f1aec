/**
 * The firewall lease: the rules one session opened, and the record of them on
 * disk.  Whoever edits that record can still not make it name other ports than
 * those of WFD.
 */
module FirewallLease {
  import opened Common
  import opened Text

  datatype Port = Port(port: string, proto: string)

  const RTSP := Port("7236", "tcp")
  const RTP := Port("16384-16385", "udp")
  const WFD_PORTS := [RTSP, RTP]

  datatype Lease = Lease(zone: string, ports: seq<Port>)

  // -------------------------------------------------------------- the record

  function PortLines(ports: seq<Port>): string {
    if ports == [] then "" else (ports[0].port + " " + ports[0].proto) + "\n" + PortLines(ports[1..])
  }

  /** The record: a line for the zone, then a line for each port with its protocol. */
  function ToFile(lease: Lease): string {
    lease.zone + "\n" + PortLines(lease.ports)
  }

  /** The port a line names; only the WFD ports are accepted. */
  function PortOf(line: string): Option<Port> {
    var words := Words(line);
    if |words| == 2 && Port(words[0], words[1]) in WFD_PORTS then Some(Port(words[0], words[1])) else None
  }

  function PortsOf(lines: seq<string>): Option<seq<Port>> {
    if lines == [] then Some([])
    else if Trim(lines[0]) == "" then PortsOf(lines[1..])
    else
      match (PortOf(lines[0]), PortsOf(lines[1..]))
      case (Some(p), Some(rest)) => Some([p] + rest)
      case _ => None
  }

  function FromFile(contents: string): Option<Lease> {
    var lines := Lines(contents);
    if lines == [] || Trim(lines[0]) == "" then None
    else
      match PortsOf(lines[1..])
      case None => None
      case Some(ports) =>
        if |ports| > 2 || (|ports| == 2 && ports[0] == ports[1]) then None
        else Some(Lease(Trim(lines[0]), ports))
  }

  /** The leases this code makes: some of the WFD ports, none twice. */
  predicate WfdLease(lease: Lease) {
    && |lease.ports| <= 2
    && (forall p | p in lease.ports :: p in WFD_PORTS)
    && (|lease.ports| == 2 ==> lease.ports[0] != lease.ports[1])
  }

  /** A zone name that survives its line: one line, not blank, no white ends. */
  predicate CleanZone(zone: string) {
    zone != "" && Trim(zone) == zone && forall k | 0 <= k < |zone| :: zone[k] != '\n'
  }

  lemma WordsOfTwo(a: string, b: string)
    requires a != "" && b != "" && NoWhite(a) && NoWhite(b)
    ensures Words(a + " " + b) == [a, b]
  {
    FirstWord(a, " " + b);
    assert a + (" " + b) == a + " " + b;
    assert (" " + b)[1..] == b;
    FirstWord(b, "");
    assert b + "" == b;
  }

  lemma TwoWords(a: string, b: string)
    requires a != "" && b != "" && NoWhite(a) && NoWhite(b)
    ensures var line := a + " " + b;
            Words(line) == [a, b] && PlainLine(line) && Trim(line) != ""
  {
    var line := a + " " + b;
    WordsOfTwo(a, b);
    assert line[0] == a[0] && line[|line| - 1] == b[|b| - 1];
    forall k | 0 <= k < |line|
      ensures line[k] != '\n'
    {
      if k < |a| {
        assert line[k] == a[k];
      } else if k > |a| {
        assert line[k] == b[k - |a| - 1];
      }
    }
  }

  lemma WordsOfPort(p: Port)
    requires p in WFD_PORTS
    ensures var line := p.port + " " + p.proto;
            PlainLine(line) && PortOf(line) == Some(p) && Trim(line) != ""
  {
    assert NoWhite("7236") && NoWhite("tcp") && NoWhite("16384-16385") && NoWhite("udp");
    TwoWords(p.port, p.proto);
  }

  lemma {:induction false} PortsRoundTrip(ports: seq<Port>)
    requires forall p | p in ports :: p in WFD_PORTS
    ensures PortsOf(Lines(PortLines(ports))) == Some(ports)
  {
    if ports != [] {
      WordsOfPort(ports[0]);
      FirstLine(ports[0].port + " " + ports[0].proto, PortLines(ports[1..]));
      PortsRoundTrip(ports[1..]);
      var lines := Lines(PortLines(ports));
      assert lines[0] == ports[0].port + " " + ports[0].proto;
      assert lines[1..] == Lines(PortLines(ports[1..]));
      assert [ports[0]] + ports[1..] == ports;
    }
  }

  lemma CleanZonePlain(zone: string)
    requires CleanZone(zone)
    ensures PlainLine(zone)
  {
    TrimEndEnds(TrimStart(zone));
    assert !IsWhite(zone[|zone| - 1]);
  }

  /** Reading back what was written gives the same lease exactly when the zone's name is clean. */
  lemma LeaseRoundTrip(lease: Lease)
    requires WfdLease(lease)
    ensures FromFile(ToFile(lease)) == Some(lease) <==> CleanZone(lease.zone)
  {
    if CleanZone(lease.zone) {
      CleanZonePlain(lease.zone);
      FirstLine(lease.zone, PortLines(lease.ports));
      PortsRoundTrip(lease.ports);
      assert Lines(ToFile(lease))[1..] == Lines(PortLines(lease.ports));
    }
    if FromFile(ToFile(lease)) == Some(lease) {
      FirstLineHasNoNewline(ToFile(lease));
      TrimTwice(Lines(ToFile(lease))[0]);
    }
  }

  lemma {:induction false} PortsOfKnown(lines: seq<string>)
    ensures PortsOf(lines).Some? ==> forall p | p in PortsOf(lines).value :: p in WFD_PORTS
  {
    if lines != [] {
      PortsOfKnown(lines[1..]);
    }
  }

  /** Whatever the file says, a lease read from it can only close WFD ports, each once. */
  lemma OnlyWfdPortsRead(contents: string)
    ensures FromFile(contents).Some? ==> WfdLease(FromFile(contents).value) && FromFile(contents).value.zone != ""
  {
    if Lines(contents) != [] {
      PortsOfKnown(Lines(contents)[1..]);
    }
  }
}
