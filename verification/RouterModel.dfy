/** The router's controller as a value: what every packet-in event does to its tables and queues,
    and which messages it sends to the switch. */
module RouterModel {
  import opened Results
  import opened NatModel

  type Mac = x: int | 0 <= x < 0x1_0000_0000_0000

  const PRIVATE_SUBNET: Ip := 0xC0A8_0100
  const PRIVATE_IP: Ip := 0xC0A8_01FE
  const PUBLIC_IP: Ip := 0xC800_00FE
  const PUBLIC_MAC: Mac := 0xAA_AAAA
  const PRIVATE_MAC: Mac := 0xBB_BBBB
  const PUBLIC_PORT: nat := 1
  const OFPP_FLOOD: nat := 0xFFFB
  const ARP_REQUEST: nat := 1

  /** inNetwork(PRIVATE_SUBNET, 24). */
  predicate IsPrivate(ip: Ip) {
    ip / 0x100 == PRIVATE_SUBNET / 0x100
  }

  /** The first 24 bits are the subnet's: as a mask on 32-bit words, and as a range. */
  lemma PrivateIsSubnet(ip: bv32)
    ensures IsPrivate(ip as int) <==> ip & 0xFFFF_FF00 == 0xC0A8_0100
    ensures IsPrivate(ip as int) <==> 0xC0A8_0100 <= ip as int <= 0xC0A8_01FF
  {
    assert ip & 0xFFFF_FF00 == 0xC0A8_0100 <==> 0xC0A8_0100 <= ip <= 0xC0A8_01FF;
  }

  // ----- frames, events and messages -----

  datatype Transport = Tcp(srcport: int, dstport: int) | Udp(srcport: int, dstport: int) | Icmp(id: int) | Unsupported

  datatype Payload =
    | Arp(opcode: nat, protosrc: Ip, hwsrc: Mac, protodst: Ip)
    | IpPkt(srcip: Ip, dstip: Ip, transport: Transport)
    | Other

  datatype Frame = Frame(src: Mac, dst: Mac, payload: Payload)

  /** A packet-in: `id` tells events apart, `port` is where the frame entered the switch. */
  datatype Event = PacketIn(id: nat, port: nat, frame: Frame)

  /** The fields a flow matches on; `tp` is absent in flows between private hosts. */
  datatype Match = Match(inPort: nat, nwSrc: Ip, nwDst: Ip, tp: Option<(Proto, int, int)>)

  datatype Action =
    | SetNwSrc(ip: Ip) | SetNwDst(ip: Ip)
    | SetTpSrc(tp: int) | SetTpDst(tp: int)
    | SetDlSrc(mac: Mac) | SetDlDst(mac: Mac)
    | Output(port: nat)

  datatype Msg =
    | PacketOut(frame: Frame, port: nat)
    | FlowMod(match_: Match, actions: seq<Action>)
    | ArpRequest(targetIp: Ip, outPort: nat, sourceIp: Ip, sourceMac: Mac)
    | ArpReply(targetIp: Ip, targetMac: Mac, outPort: nat, sourceIp: Ip, sourceMac: Mac)

  predicate IsIp(ev: Event) {
    ev.frame.payload.IpPkt?
  }

  // ----- ARP table and waiting queue -----

  datatype ArpEntry = ArpEntry(mac: Mac, port: nat, timestamp: real)

  datatype ArpState = ArpState(table: map<Ip, ArpEntry>, waiting: map<Ip, seq<Event>>)

  function Enqueue(a: ArpState, ip: Ip, ev: Event): ArpState {
    a.(waiting := a.waiting[ip := (if ip in a.waiting then a.waiting[ip] else []) + [ev]])
  }

  function Queued(a: ArpState, ip: Ip): seq<Event> {
    if ip in a.waiting then a.waiting[ip] else []
  }

  function Dequeue(a: ArpState, ip: Ip): ArpState {
    a.(waiting := a.waiting - {ip})
  }

  function ReapArp(a: ArpState, now: real): ArpState {
    a.(table := map ip | ip in a.table && now - a.table[ip].timestamp <= ENTRY_TIMEOUT :: a.table[ip])
  }

  function Learn(a: ArpState, ip: Ip, mac: Mac, port: nat, now: real): ArpState {
    var b := ReapArp(a, now);
    b.(table := b.table[ip := ArpEntry(mac, port, now)])
  }

  // ----- the router -----

  /** `pat` leases ports and `icmp` echo identifiers, with the same allocator. `sent` is what went to
      the switch. `forwarded` and `dropped` record, as history, how handled IP events ended. */
  datatype Router = Router(
    arp: ArpState,
    pat: Nat,
    icmp: Nat,
    sent: seq<Msg>,
    forwarded: seq<Event>,
    dropped: seq<Event>)

  function NewRouter(): Router {
    Router(ArpState(map[], map[]), Empty(), Empty(), [], [], [])
  }

  /** Suspend the event until an ARP message from `ip` arrives, and ask for one. */
  function Suspend(r: Router, ip: Ip, ev: Event, outPort: nat, sourceIp: Ip, sourceMac: Mac): Router {
    r.(arp := Enqueue(r.arp, ip, ev), sent := r.sent + [ArpRequest(ip, outPort, sourceIp, sourceMac)])
  }

  function Discard(r: Router, ev: Event): Router {
    r.(dropped := r.dropped + [ev])
  }

  function Forward(r: Router, ev: Event, msgs: seq<Msg>): Router {
    r.(sent := r.sent + msgs, forwarded := r.forwarded + [ev])
  }

  /** Whether `_resolve_mac_and_port` finds an entry; a port of 0 counts as none. */
  predicate Located(a: ArpState, ip: Ip) {
    ip in a.table && a.table[ip].port != 0
  }

  function ProtoOf(t: Transport): Proto
    requires !t.Unsupported?
  {
    match t case Tcp(_, _) => TCP case Udp(_, _) => UDP case Icmp(_) => ICMP
  }

  function SrcPort(t: Transport): int
    requires !t.Unsupported?
  {
    match t case Tcp(s, _) => s case Udp(s, _) => s case Icmp(id) => id
  }

  function DstPort(t: Transport): int
    requires !t.Unsupported?
  {
    match t case Tcp(_, d) => d case Udp(_, d) => d case Icmp(id) => id
  }

  function WithSrcPort(t: Transport, port: int): Transport {
    match t
    case Tcp(_, d) => Tcp(port, d)
    case Udp(_, d) => Udp(port, d)
    case Icmp(_) => Icmp(port)
    case Unsupported => t
  }

  function WithDstPort(t: Transport, port: int): Transport {
    match t
    case Tcp(s, _) => Tcp(s, port)
    case Udp(s, _) => Udp(s, port)
    case Icmp(_) => Icmp(port)
    case Unsupported => t
  }

  // ----- private to public -----

  /** The frame as `_handle_outgoing` rewrites and sends it. */
  function TranslatedOut(f: Frame, publicPort: int, targetMac: Mac): Frame
    requires f.payload.IpPkt?
  {
    Frame(PUBLIC_MAC, targetMac,
          f.payload.(srcip := PUBLIC_IP, transport := WithSrcPort(f.payload.transport, publicPort)))
  }

  function OutFlow(ev: Event, publicPort: int, targetMac: Mac): Msg
    requires IsIp(ev) && !ev.frame.payload.transport.Unsupported?
  {
    var ip := ev.frame.payload;
    FlowMod(Match(ev.port, ip.srcip, ip.dstip,
                  Some((ProtoOf(ip.transport), SrcPort(ip.transport), DstPort(ip.transport)))),
            [SetNwSrc(PUBLIC_IP), SetTpSrc(publicPort),
             SetDlSrc(PUBLIC_MAC), SetDlDst(targetMac), Output(PUBLIC_PORT)])
  }

  function ReturnFlow(ev: Event, publicPort: int): Msg
    requires IsIp(ev) && !ev.frame.payload.transport.Unsupported?
  {
    var ip := ev.frame.payload;
    FlowMod(Match(PUBLIC_PORT, ip.dstip, PUBLIC_IP, Some((ProtoOf(ip.transport), DstPort(ip.transport), publicPort))),
            [SetNwDst(ip.srcip), SetTpDst(SrcPort(ip.transport)),
             SetDlSrc(PRIVATE_MAC), SetDlDst(ev.frame.src), Output(ev.port)])
  }

  ghost function HandleOutgoing(r: Router, ev: Event, now: real): Router
    requires IsIp(ev) && !ev.frame.payload.transport.Unsupported?
  {
    var ip := ev.frame.payload;
    var key := Key(ProtoOf(ip.transport), ip.srcip, SrcPort(ip.transport));
    if ip.dstip !in r.arp.table then Suspend(r, ip.dstip, ev, PUBLIC_PORT, PUBLIC_IP, PUBLIC_MAC)
    else
      var targetMac := r.arp.table[ip.dstip].mac;
      if ip.transport.Icmp? then
        var (icmp, e) := Create(r.icmp, key, PUBLIC_IP, now, now);
        var r' := r.(icmp := icmp);
        if e == None then Discard(r', ev)
        else Forward(r', ev, [PacketOut(TranslatedOut(ev.frame, e.value.publicPort, targetMac), PUBLIC_PORT)])
      else
        var (pat, e) := Create(r.pat, key, PUBLIC_IP, now, now);
        var r' := r.(pat := pat);
        if e == None then Discard(r', ev)
        else
          var publicPort := e.value.publicPort;
          Forward(r', ev, [OutFlow(ev, publicPort, targetMac), ReturnFlow(ev, publicPort),
                           PacketOut(TranslatedOut(ev.frame, publicPort, targetMac), PUBLIC_PORT)])
  }

  // ----- public to private -----

  /** The frame as `_handle_incoming` rewrites and sends it. */
  function TranslatedIn(f: Frame, privateIp: Ip, privatePort: int, targetMac: Mac): Frame
    requires f.payload.IpPkt?
  {
    Frame(PRIVATE_MAC, targetMac,
          f.payload.(dstip := privateIp, transport := WithDstPort(f.payload.transport, privatePort)))
  }

  function InFlow(ev: Event, owner: RevEntry, target: ArpEntry): Msg
    requires IsIp(ev) && !ev.frame.payload.transport.Unsupported?
  {
    var ip := ev.frame.payload;
    FlowMod(Match(ev.port, ip.srcip, PUBLIC_IP,
                  Some((ProtoOf(ip.transport), SrcPort(ip.transport), DstPort(ip.transport)))),
            [SetNwDst(owner.privateIp), SetTpDst(owner.privatePort),
             SetDlSrc(PRIVATE_MAC), SetDlDst(target.mac), Output(target.port)])
  }

  function ReplyFlow(ev: Event, owner: RevEntry, target: ArpEntry): Msg
    requires IsIp(ev) && !ev.frame.payload.transport.Unsupported?
  {
    var ip := ev.frame.payload;
    FlowMod(Match(target.port, owner.privateIp, ip.srcip,
                  Some((ProtoOf(ip.transport), owner.privatePort, SrcPort(ip.transport)))),
            [SetNwSrc(PUBLIC_IP), SetTpSrc(DstPort(ip.transport)),
             SetDlSrc(PUBLIC_MAC), SetDlDst(ev.frame.src), Output(ev.port)])
  }

  /** Deliver to the owner of the public endpoint once its MAC and port are known. */
  function DeliverIn(r: Router, ev: Event, owner: RevEntry): Router
    requires IsIp(ev) && !ev.frame.payload.transport.Unsupported?
  {
    if !Located(r.arp, owner.privateIp) then Suspend(r, owner.privateIp, ev, OFPP_FLOOD, PRIVATE_IP, PRIVATE_MAC)
    else
      var target := r.arp.table[owner.privateIp];
      var out := PacketOut(TranslatedIn(ev.frame, owner.privateIp, owner.privatePort, target.mac), target.port);
      if ev.frame.payload.transport.Icmp? then Forward(r, ev, [out])
      else Forward(r, ev, [InFlow(ev, owner, target), ReplyFlow(ev, owner, target), out])
  }

  function HandleIncoming(r: Router, ev: Event, now: real): Router
    requires IsIp(ev) && !ev.frame.payload.transport.Unsupported?
  {
    var ip := ev.frame.payload;
    if ip.transport.Icmp? then
      var (icmp, owner) := Lookup(r.icmp, Key(ICMP, PUBLIC_IP, ip.transport.id), now);
      var r' := r.(icmp := icmp);
      if owner == None then Discard(r', ev) else DeliverIn(r', ev, owner.value)
    else if ip.dstip != PUBLIC_IP then Discard(r, ev)
    else
      var (pat, owner) := Lookup(r.pat, Key(ProtoOf(ip.transport), ip.dstip, DstPort(ip.transport)), now);
      var r' := r.(pat := pat);
      if owner == None then Discard(r', ev) else DeliverIn(r', ev, owner.value)
  }

  // ----- private to private -----

  function ThereFlow(ev: Event, target: ArpEntry): Msg
    requires IsIp(ev)
  {
    FlowMod(Match(ev.port, ev.frame.payload.srcip, ev.frame.payload.dstip, None),
            [SetDlSrc(PRIVATE_MAC), SetDlDst(target.mac), Output(target.port)])
  }

  function BackFlow(ev: Event, target: ArpEntry): Msg
    requires IsIp(ev)
  {
    FlowMod(Match(target.port, ev.frame.payload.dstip, ev.frame.payload.srcip, None),
            [SetDlSrc(PRIVATE_MAC), SetDlDst(ev.frame.src), Output(ev.port)])
  }

  function HandlePrivateToPrivate(r: Router, ev: Event): Router
    requires IsIp(ev)
  {
    var ip := ev.frame.payload;
    if !Located(r.arp, ip.dstip) then Suspend(r, ip.dstip, ev, OFPP_FLOOD, PRIVATE_IP, PRIVATE_MAC)
    else
      var target := r.arp.table[ip.dstip];
      Forward(r, ev, [ThereFlow(ev, target), BackFlow(ev, target),
                       PacketOut(Frame(PRIVATE_MAC, target.mac, ip), target.port)])
  }

  // ----- dispatch -----

  ghost function HandleIp(r: Router, ev: Event, now: real): Router
    requires IsIp(ev)
  {
    var ip := ev.frame.payload;
    if ip.transport.Unsupported? then Discard(r, ev)
    else if !IsPrivate(ip.srcip) then HandleIncoming(r, ev, now)
    else if IsPrivate(ip.dstip) then HandlePrivateToPrivate(r, ev)
    else HandleOutgoing(r, ev, now)
  }

  /** Handle suspended events again, in the order of the queue. Only IP events are ever suspended. */
  ghost function Resume(r: Router, evs: seq<Event>, now: real): Router
    decreases |evs|
  {
    if evs == [] then r
    else Resume(if IsIp(evs[0]) then HandleIp(r, evs[0], now) else r, evs[1..], now)
  }

  /** What the router sends by itself in answer to an ARP message. */
  function ArpAnswer(ev: Event): seq<Msg>
    requires ev.frame.payload.Arp?
  {
    var a := ev.frame.payload;
    if IsPrivate(a.protosrc) && IsPrivate(a.protodst) && a.protodst != PRIVATE_IP then [PacketOut(ev.frame, OFPP_FLOOD)]
    else if a.opcode != ARP_REQUEST then []
    else if a.protodst == PUBLIC_IP then [ArpReply(a.protosrc, a.hwsrc, ev.port, PUBLIC_IP, PUBLIC_MAC)]
    else if a.protodst == PRIVATE_IP then [ArpReply(a.protosrc, a.hwsrc, ev.port, PRIVATE_IP, PRIVATE_MAC)]
    else []
  }

  /** The router after learning the sender and taking its queue out. */
  function Learned(r: Router, ev: Event, now: real): Router
    requires ev.frame.payload.Arp?
  {
    var a := ev.frame.payload;
    r.(arp := Dequeue(Learn(r.arp, a.protosrc, a.hwsrc, ev.port, now), a.protosrc))
  }

  ghost function HandleArp(r: Router, ev: Event, now: real): Router
    requires ev.frame.payload.Arp?
  {
    var resumed := Resume(Learned(r, ev, now), Queued(r.arp, ev.frame.payload.protosrc), now);
    resumed.(sent := resumed.sent + ArpAnswer(ev))
  }

  ghost function HandlePacketIn(r: Router, ev: Event, now: real): Router {
    if ev.frame.payload.Arp? then HandleArp(r, ev, now)
    else if IsIp(ev) then HandleIp(r, ev, now)
    else r
  }

  // ----- runs -----

  datatype Timed = Timed(ev: Event, at: real)

  ghost function Run(r: Router, evs: seq<Timed>): Router
    decreases |evs|
  {
    if evs == [] then r else Run(HandlePacketIn(r, evs[0].ev, evs[0].at), evs[1..])
  }
}
