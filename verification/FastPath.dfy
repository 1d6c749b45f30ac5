/** The flows that the controller installs rewrite packets as the controller itself would. */
module FastPath {
  import opened Results
  import opened NatModel
  import opened RouterModel
  import NatProofs

  // ----- what a switch does with a flow -----

  function Act(a: Action, f: Frame): Frame
    requires f.payload.IpPkt?
    ensures Act(a, f).payload.IpPkt?
  {
    match a
    case SetNwSrc(ip) => f.(payload := f.payload.(srcip := ip))
    case SetNwDst(ip) => f.(payload := f.payload.(dstip := ip))
    case SetTpSrc(tp) => f.(payload := f.payload.(transport := WithSrcPort(f.payload.transport, tp)))
    case SetTpDst(tp) => f.(payload := f.payload.(transport := WithDstPort(f.payload.transport, tp)))
    case SetDlSrc(mac) => f.(src := mac)
    case SetDlDst(mac) => f.(dst := mac)
    case Output(_) => f
  }

  /** An output to a port by its number never sends a packet back out of the port it came in on; that
      takes OFPP_IN_PORT (section 5.2.1 of OpenFlow Switch Specification 1.0.0). */
  function Emitted(f: Frame, inPort: nat, outPort: nat): Option<Msg> {
    if outPort == inPort then None else Some(PacketOut(f, outPort))
  }

  /** What a switch sends for a packet that came in on `inPort`: the actions applied in order, up to the
      output. */
  function Switched(actions: seq<Action>, inPort: nat, f: Frame): Option<Msg>
    requires f.payload.IpPkt?
    decreases |actions|
  {
    if actions == [] then None
    else if actions[0].Output? then Emitted(f, inPort, actions[0].port)
    else Switched(actions[1..], inPort, Act(actions[0], f))
  }

  predicate Matches(m: Match, port: nat, f: Frame) {
    && f.payload.IpPkt? && port == m.inPort && f.payload.srcip == m.nwSrc && f.payload.dstip == m.nwDst
    && (m.tp.Some? ==>
          var t := f.payload.transport;
          !t.Unsupported? && m.tp.value == (ProtoOf(t), SrcPort(t), DstPort(t)))
  }

  /** The five-action lists that the router installs, run by the switch. */
  lemma FiveActions(a: Action, b: Action, c: Action, d: Action, outPort: nat, inPort: nat, f: Frame)
    requires f.payload.IpPkt? && !a.Output? && !b.Output? && !c.Output? && !d.Output?
    ensures Switched([a, b, c, d, Output(outPort)], inPort, f)
         == Emitted(Act(d, Act(c, Act(b, Act(a, f)))), inPort, outPort)
  {
    var out := Output(outPort);
    var all := [a, b, c, d, out];
    assert all[1..] == [b, c, d, out];
    assert all[1..][1..] == [c, d, out];
    assert all[1..][1..][1..] == [d, out];
    assert all[1..][1..][1..][1..] == [out];
    var f1 := Act(a, f);
    var f2 := Act(b, f1);
    var f3 := Act(c, f2);
    assert Switched([d, out], inPort, f3) == Switched([out], inPort, Act(d, f3));
    assert Switched([c, d, out], inPort, f2) == Switched([d, out], inPort, f3);
    assert Switched([b, c, d, out], inPort, f1) == Switched([c, d, out], inPort, f2);
  }

  // ----- what the router keeps of its allocators -----

  /** The allocator that leases to this protocol. */
  function Allocator(r: Router, protocol: Proto): Nat {
    if protocol == ICMP then r.icmp else r.pat
  }

  /** What the router keeps of an allocator: a valid one, which leases its own address to private hosts. */
  predicate Tables(s: Nat) {
    Valid(s) && forall k :: k in s.table ==> s.table[k].publicIp == PUBLIC_IP && IsPrivate(k.ip)
  }

  // ----- the outgoing connection -----

  predicate IsConnection(ev: Event) {
    && IsIp(ev) && (ev.frame.payload.transport.Tcp? || ev.frame.payload.transport.Udp?)
    && IsPrivate(ev.frame.payload.srcip) && !IsPrivate(ev.frame.payload.dstip)
  }

  function PrivateEnd(ev: Event): Key
    requires IsConnection(ev)
  {
    var ip := ev.frame.payload;
    Key(ProtoOf(ip.transport), ip.srcip, SrcPort(ip.transport))
  }

  /** The lease that handling the packet finds or makes. */
  ghost function LeaseOf(r: Router, ev: Event, now: real): Option<Entry>
    requires IsConnection(ev)
  {
    Create(r.pat, PrivateEnd(ev), PUBLIC_IP, now, now).1
  }

  /** The packet belongs to a connection to a known destination and has or gets a lease, so that the
      controller installs the flows for it. */
  ghost predicate Connects(r: Router, ev: Event, now: real) {
    Tables(r.pat) && IsConnection(ev) && ev.frame.payload.dstip in r.arp.table && LeaseOf(r, ev, now).Some?
  }

  /** The last of the messages that the controller sends when it handles the event, if it sends any. */
  ghost function Answered(s: Router, ev: Event, now: real): Option<Msg>
    requires IsIp(ev)
  {
    var sent := HandleIp(s, ev, now).sent;
    if |sent| > |s.sent| then Some(sent[|sent| - 1]) else None
  }

  /** What the controller sends for an outgoing packet whose destination is known. */
  lemma SlowPathOut(r: Router, ev: Event, now: real)
    requires Connects(r, ev, now)
    ensures var port := LeaseOf(r, ev, now).value.publicPort;
      var mac := r.arp.table[ev.frame.payload.dstip].mac;
      && HandleIp(r, ev, now).sent == r.sent + [OutFlow(ev, port, mac), ReturnFlow(ev, port),
           PacketOut(TranslatedOut(ev.frame, port, mac), PUBLIC_PORT)]
      && HandleIp(r, ev, now).pat == Create(r.pat, PrivateEnd(ev), PUBLIC_IP, now, now).0
  {
  }

  /** The outgoing flow matches the packet it was installed for, and turns every packet it matches
      into what the slow path sends for it. */
  lemma OutFlowTranslates(ev: Event, publicPort: int, mac: Mac, f: Frame)
    requires IsConnection(ev)
    ensures Matches(OutFlow(ev, publicPort, mac).match_, ev.port, ev.frame)
    ensures Matches(OutFlow(ev, publicPort, mac).match_, ev.port, f) ==>
      Switched(OutFlow(ev, publicPort, mac).actions, ev.port, f)
        == Emitted(TranslatedOut(f, publicPort, mac), ev.port, PUBLIC_PORT)
  {
    if Matches(OutFlow(ev, publicPort, mac).match_, ev.port, f) {
      FiveActions(SetNwSrc(PUBLIC_IP), SetTpSrc(publicPort), SetDlSrc(PUBLIC_MAC), SetDlDst(mac),
                  PUBLIC_PORT, ev.port, f);
    }
  }

  /** The return flow turns every packet it matches into one for the connection's private end. */
  lemma ReturnFlowTranslates(ev: Event, publicPort: int, f: Frame)
    requires IsConnection(ev) && Matches(ReturnFlow(ev, publicPort).match_, PUBLIC_PORT, f)
    ensures Switched(ReturnFlow(ev, publicPort).actions, PUBLIC_PORT, f)
         == Emitted(TranslatedIn(f, PrivateEnd(ev).ip, PrivateEnd(ev).port, ev.frame.src), PUBLIC_PORT, ev.port)
  {
    var ip := ev.frame.payload;
    FiveActions(SetNwDst(ip.srcip), SetTpDst(SrcPort(ip.transport)), SetDlSrc(PRIVATE_MAC), SetDlDst(ev.frame.src),
                ev.port, PUBLIC_PORT, f);
  }

  // ----- the lease lives on while other events are handled -----

  predicate Leased(r: Router, k: Key, e: Entry) {
    var s := Allocator(r, k.protocol);
    Tables(s) && k in s.table && s.table[k] == e
  }

  /** An operation that the router performs on an allocator, at the time of the event. */
  predicate RouterOp(op: NatProofs.Op, now: real) {
    NatProofs.ReapTime(op) == now && (op.CreateOp? ==> op.publicIp == PUBLIC_IP && IsPrivate(op.key.ip))
  }

  /** Handling an IP event leaves an allocator alone or performs one operation on it. */
  lemma HandleIpAllocates(r: Router, ev: Event, now: real, protocol: Proto) returns (op: NatProofs.Op)
    requires IsIp(ev)
    ensures RouterOp(op, now)
    ensures var before, after := Allocator(r, protocol), Allocator(HandleIp(r, ev, now), protocol);
      after == before || after == NatProofs.Step(before, op)
  {
    var ip := ev.frame.payload;
    op := NatProofs.LookupOp(Key(TCP, PUBLIC_IP, 0), now);
    if !ip.transport.Unsupported? {
      if IsPrivate(ip.srcip) {
        op := NatProofs.CreateOp(Key(ProtoOf(ip.transport), ip.srcip, SrcPort(ip.transport)), PUBLIC_IP, now, now);
      } else {
        op := NatProofs.LookupOp(Key(ProtoOf(ip.transport), PUBLIC_IP, DstPort(ip.transport)), now);
      }
    }
  }

  lemma OpKeepsTables(s: Nat, op: NatProofs.Op, now: real)
    requires Tables(s) && RouterOp(op, now)
    ensures Tables(NatProofs.Step(s, op))
  {
    NatProofs.StepValid(s, op);
  }

  lemma HandleIpKeepsTables(r: Router, ev: Event, now: real, protocol: Proto)
    requires Tables(Allocator(r, protocol)) && IsIp(ev)
    ensures Tables(Allocator(HandleIp(r, ev, now), protocol))
  {
    var op := HandleIpAllocates(r, ev, now, protocol);
    OpKeepsTables(Allocator(r, protocol), op, now);
  }

  lemma HandleIpKeepsLease(r: Router, ev: Event, now: real, k: Key, e: Entry)
    requires Leased(r, k, e) && IsIp(ev) && now <= e.timestamp + ENTRY_TIMEOUT
    ensures Leased(HandleIp(r, ev, now), k, e)
  {
    var op := HandleIpAllocates(r, ev, now, k.protocol);
    OpKeepsTables(Allocator(r, k.protocol), op, now);
    NatProofs.StepKeepsLease(Allocator(r, k.protocol), op, k);
  }

  lemma {:induction false} ResumeKeepsTables(r: Router, evs: seq<Event>, now: real, protocol: Proto)
    requires Tables(Allocator(r, protocol))
    ensures Tables(Allocator(Resume(r, evs, now), protocol))
    decreases |evs|
  {
    if evs != [] {
      if IsIp(evs[0]) {
        HandleIpKeepsTables(r, evs[0], now, protocol);
        ResumeKeepsTables(HandleIp(r, evs[0], now), evs[1..], now, protocol);
      } else {
        ResumeKeepsTables(r, evs[1..], now, protocol);
      }
    }
  }

  lemma {:induction false} RunKeepsTables(r: Router, evs: seq<Timed>, protocol: Proto)
    requires Tables(Allocator(r, protocol))
    ensures Tables(Allocator(Run(r, evs), protocol))
    decreases |evs|
  {
    if evs != [] {
      var ev, now := evs[0].ev, evs[0].at;
      if ev.frame.payload.Arp? {
        ResumeKeepsTables(Learned(r, ev, now), Queued(r.arp, ev.frame.payload.protosrc), now, protocol);
      } else if IsIp(ev) {
        HandleIpKeepsTables(r, ev, now, protocol);
      }
      RunKeepsTables(HandlePacketIn(r, ev, now), evs[1..], protocol);
    }
  }

  /** In every run the router's tables are mutually inverse and lease its own address to private hosts
      only. */
  lemma AlwaysTables(evs: seq<Timed>, protocol: Proto)
    ensures Tables(Allocator(Run(NewRouter(), evs), protocol))
  {
    assert Held(Empty().table) == {};
    RunKeepsTables(NewRouter(), evs, protocol);
  }

  lemma {:induction false} ResumeKeepsLease(r: Router, evs: seq<Event>, now: real, k: Key, e: Entry)
    requires Leased(r, k, e) && now <= e.timestamp + ENTRY_TIMEOUT
    ensures Leased(Resume(r, evs, now), k, e)
    decreases |evs|
  {
    if evs != [] {
      if IsIp(evs[0]) {
        HandleIpKeepsLease(r, evs[0], now, k, e);
        ResumeKeepsLease(HandleIp(r, evs[0], now), evs[1..], now, k, e);
      } else {
        ResumeKeepsLease(r, evs[1..], now, k, e);
      }
    }
  }

  lemma EventKeepsLease(r: Router, ev: Event, now: real, k: Key, e: Entry)
    requires Leased(r, k, e) && now <= e.timestamp + ENTRY_TIMEOUT
    ensures Leased(HandlePacketIn(r, ev, now), k, e)
  {
    if ev.frame.payload.Arp? {
      ResumeKeepsLease(Learned(r, ev, now), Queued(r.arp, ev.frame.payload.protosrc), now, k, e);
    } else if IsIp(ev) {
      HandleIpKeepsLease(r, ev, now, k, e);
    }
  }

  predicate NotAfter(evs: seq<Timed>, until: real) {
    forall i :: 0 <= i < |evs| ==> evs[i].at <= until
  }

  /** A lease of either allocator outlives every run of events within its 30 seconds. */
  lemma {:induction false} RunKeepsLease(r: Router, evs: seq<Timed>, k: Key, e: Entry)
    requires Leased(r, k, e) && NotAfter(evs, e.timestamp + ENTRY_TIMEOUT)
    ensures Leased(Run(r, evs), k, e)
    decreases |evs|
  {
    if evs != [] {
      EventKeepsLease(r, evs[0].ev, evs[0].at, k, e);
      RunKeepsLease(HandlePacketIn(r, evs[0].ev, evs[0].at), evs[1..], k, e);
    }
  }

  // ----- agreement -----

  /** The last moment of the connection's lease. */
  ghost function LeaseEnd(r: Router, ev: Event, now: real): real
    requires Connects(r, ev, now)
  {
    LeaseOf(r, ev, now).value.timestamp + ENTRY_TIMEOUT
  }

  lemma ConnectionLeased(r: Router, ev: Event, now: real)
    requires Connects(r, ev, now)
    ensures Leased(HandleIp(r, ev, now), PrivateEnd(ev), LeaseOf(r, ev, now).value)
    ensures LeaseEnd(r, ev, now) >= now
  {
    SlowPathOut(r, ev, now);
    HandleIpKeepsTables(r, ev, now, TCP);
  }

  /** A packet from the private end of a lease goes out from the public end of that lease, or waits for
      its destination's MAC. */
  lemma LeaseAnswers(s: Router, ev: Event, now: real, k: Key, e: Entry)
    requires Leased(s, k, e) && now <= e.timestamp + ENTRY_TIMEOUT
    requires IsConnection(ev) && PrivateEnd(ev) == k
    ensures var dst := ev.frame.payload.dstip;
      Answered(s, ev, now) == Some(
        if dst in s.arp.table then PacketOut(TranslatedOut(ev.frame, e.publicPort, s.arp.table[dst].mac), PUBLIC_PORT)
        else ArpRequest(dst, PUBLIC_PORT, PUBLIC_IP, PUBLIC_MAC))
  {
    NatProofs.ReapExact(s.pat, now, k);
    if ev.frame.payload.dstip in s.arp.table {
      SlowPathOut(s, ev, now);
    }
  }

  /** Fast path out: while the lease lives, whatever other events come between, the outgoing flow does to
      each packet it matches what the controller would, same frame and same port, exactly when the
      destination is still known by the same MAC and the packet did not come in on the public port. */
  lemma OutgoingAgrees(r: Router, ev: Event, now: real, evs: seq<Timed>, f: Frame, id: nat, later: real)
    requires Connects(r, ev, now) && NotAfter(evs, LeaseEnd(r, ev, now)) && later <= LeaseEnd(r, ev, now)
    ensures var dst := ev.frame.payload.dstip;
      var flow := OutFlow(ev, LeaseOf(r, ev, now).value.publicPort, r.arp.table[dst].mac);
      var s := Run(HandleIp(r, ev, now), evs);
      && flow in HandleIp(r, ev, now).sent && Matches(flow.match_, ev.port, ev.frame)
      && (Matches(flow.match_, ev.port, f) ==>
          (Switched(flow.actions, ev.port, f) == Answered(s, PacketIn(id, ev.port, f), later) <==>
            dst in s.arp.table && s.arp.table[dst].mac == r.arp.table[dst].mac && ev.port != PUBLIC_PORT))
  {
    var e := LeaseOf(r, ev, now).value;
    var flow := OutFlow(ev, e.publicPort, r.arp.table[ev.frame.payload.dstip].mac);
    SlowPathOut(r, ev, now);
    ConnectionLeased(r, ev, now);
    RunKeepsLease(HandleIp(r, ev, now), evs, PrivateEnd(ev), e);
    if Matches(flow.match_, ev.port, f) {
      LeaseAnswers(Run(HandleIp(r, ev, now), evs), PacketIn(id, ev.port, f), later, PrivateEnd(ev), e);
    }
    OutFlowTranslates(ev, e.publicPort, r.arp.table[ev.frame.payload.dstip].mac, ev.frame);
    OutFlowTranslates(ev, e.publicPort, r.arp.table[ev.frame.payload.dstip].mac, f);
  }

  /** A packet from outside for the public end of a lease; of an echo message only the identifier counts. */
  predicate ToLease(ev: Event, k: Key, e: Entry) {
    && IsIp(ev) && !IsPrivate(ev.frame.payload.srcip) && !ev.frame.payload.transport.Unsupported?
    && (ev.frame.payload.transport.Icmp? || ev.frame.payload.dstip == PUBLIC_IP)
    && ProtoOf(ev.frame.payload.transport) == k.protocol && DstPort(ev.frame.payload.transport) == e.publicPort
  }

  /** What the controller sends for it when its owner is at `target`; no flow for an echo message. */
  function Delivery(ev: Event, k: Key, e: Entry, target: ArpEntry): seq<Msg>
    requires ToLease(ev, k, e)
  {
    (if k.protocol == ICMP then [] else [InFlow(ev, Owner(k, e), target), ReplyFlow(ev, Owner(k, e), target)])
    + [PacketOut(TranslatedIn(ev.frame, k.ip, k.port, target.mac), target.port)]
  }

  /** It is delivered to the owner of the lease, or waits for the owner's location. */
  lemma SlowPathIn(s: Router, ev: Event, now: real, k: Key, e: Entry)
    requires Leased(s, k, e) && now <= e.timestamp + ENTRY_TIMEOUT && ToLease(ev, k, e)
    ensures HandleIp(s, ev, now).sent == s.sent +
      if Located(s.arp, k.ip) then Delivery(ev, k, e, s.arp.table[k.ip])
      else [ArpRequest(k.ip, OFPP_FLOOD, PRIVATE_IP, PRIVATE_MAC)]
  {
    var allocator := Allocator(s, k.protocol);
    DropValid(allocator, ExpiredKeys(allocator.table, now));
    NatProofs.ReapExact(allocator, now, k);
    assert Lookup(allocator, PublicKey(k, e), now).1 == Some(Owner(k, e));
  }

  lemma OwnerAnswers(s: Router, ev: Event, now: real, k: Key, e: Entry)
    requires Leased(s, k, e) && now <= e.timestamp + ENTRY_TIMEOUT && ToLease(ev, k, e)
    ensures Answered(s, ev, now) == Some(
      if Located(s.arp, k.ip) then
        PacketOut(TranslatedIn(ev.frame, k.ip, k.port, s.arp.table[k.ip].mac), s.arp.table[k.ip].port)
      else ArpRequest(k.ip, OFPP_FLOOD, PRIVATE_IP, PRIVATE_MAC))
  {
    SlowPathIn(s, ev, now, k, e);
  }

  /** The same address, port and source MAC; only the destination MAC and output port may differ. */
  predicate SameRewrite(x: Msg, y: Msg) {
    x.PacketOut? && y.PacketOut? && x.frame.payload == y.frame.payload && x.frame.src == y.frame.src
  }

  predicate LocatedAt(a: ArpState, ip: Ip, mac: Mac, port: nat) {
    Located(a, ip) && a.table[ip].mac == mac && a.table[ip].port == port
  }

  /** Fast path back: while the lease lives, the return flow and the controller agree exactly when the
      private end is located at the MAC and port that the connection's first packet came from, and that
      port is not the public one, where the switch would not send the answer. When the private end is
      located elsewhere they still rewrite addresses and ports alike; when it is not located, the
      controller asks for it. */
  lemma ReturnAgrees(r: Router, ev: Event, now: real, evs: seq<Timed>, f: Frame, id: nat, later: real)
    requires Connects(r, ev, now) && NotAfter(evs, LeaseEnd(r, ev, now)) && later <= LeaseEnd(r, ev, now)
    requires Matches(ReturnFlow(ev, LeaseOf(r, ev, now).value.publicPort).match_, PUBLIC_PORT, f)
    ensures var flow := ReturnFlow(ev, LeaseOf(r, ev, now).value.publicPort);
      var s := Run(HandleIp(r, ev, now), evs); var host := ev.frame.payload.srcip;
      var fast := Switched(flow.actions, PUBLIC_PORT, f);
      var slow := Answered(s, PacketIn(id, PUBLIC_PORT, f), later);
      && flow in HandleIp(r, ev, now).sent && slow.Some?
      && (fast == None <==> ev.port == PUBLIC_PORT)
      && (fast.Some? ==> (Located(s.arp, host) <==> SameRewrite(fast.value, slow.value)))
      && (!Located(s.arp, host) ==> slow.value == ArpRequest(host, OFPP_FLOOD, PRIVATE_IP, PRIVATE_MAC))
      && (fast == slow <==> LocatedAt(s.arp, host, ev.frame.src, ev.port) && ev.port != PUBLIC_PORT)
  {
    var e := LeaseOf(r, ev, now).value;
    SlowPathOut(r, ev, now);
    ConnectionLeased(r, ev, now);
    RunKeepsLease(HandleIp(r, ev, now), evs, PrivateEnd(ev), e);
    OwnerAnswers(Run(HandleIp(r, ev, now), evs), PacketIn(id, PUBLIC_PORT, f), later, PrivateEnd(ev), e);
    ReturnFlowTranslates(ev, e.publicPort, f);
  }

  // ----- the flows that incoming packets install -----

  /** An incoming packet's flow translates what it matches as the controller translates it. */
  lemma InFlowTranslates(ev: Event, owner: RevEntry, target: ArpEntry, f: Frame)
    requires IsIp(ev) && f.payload.IpPkt? && !ev.frame.payload.transport.Unsupported?
    ensures Switched(InFlow(ev, owner, target).actions, ev.port, f)
         == Emitted(TranslatedIn(f, owner.privateIp, owner.privatePort, target.mac), ev.port, target.port)
  {
    FiveActions(SetNwDst(owner.privateIp), SetTpDst(owner.privatePort), SetDlSrc(PRIVATE_MAC), SetDlDst(target.mac),
                target.port, ev.port, f);
  }

  /** Its reply flow sends the private end's packets out from the public port that the packet came
      to, back to where it came from. */
  lemma ReplyFlowTranslates(ev: Event, owner: RevEntry, target: ArpEntry, f: Frame)
    requires IsIp(ev) && f.payload.IpPkt? && !ev.frame.payload.transport.Unsupported?
    ensures Switched(ReplyFlow(ev, owner, target).actions, target.port, f)
         == Emitted(TranslatedOut(f, DstPort(ev.frame.payload.transport), ev.frame.src), target.port, ev.port)
  {
    FiveActions(SetNwSrc(PUBLIC_IP), SetTpSrc(DstPort(ev.frame.payload.transport)), SetDlSrc(PUBLIC_MAC),
                SetDlDst(ev.frame.src), ev.port, target.port, f);
  }

  /** A packet from outside is delivered to a live lease, so that the controller installs its flows. */
  predicate Arrives(r: Router, ev: Event, now: real, k: Key, e: Entry) {
    && Leased(r, k, e) && k.protocol != ICMP && now <= e.timestamp + ENTRY_TIMEOUT
    && ToLease(ev, k, e) && Located(r.arp, k.ip)
  }

  /** Fast path for incoming packets: while the lease lives, whatever other events come between, the flow
      that an incoming packet installs matches that packet, and agrees with the controller on every
      packet it matches exactly when the owner is located where it was, and that is not where the packet
      came in. */
  lemma IncomingAgrees(r: Router, ev: Event, now: real, k: Key, e: Entry,
                       evs: seq<Timed>, f: Frame, id: nat, later: real)
    requires Arrives(r, ev, now, k, e)
    requires NotAfter(evs, e.timestamp + ENTRY_TIMEOUT) && later <= e.timestamp + ENTRY_TIMEOUT
    ensures var target := r.arp.table[k.ip];
      var flow := InFlow(ev, Owner(k, e), target);
      var s := Run(HandleIp(r, ev, now), evs);
      && flow in HandleIp(r, ev, now).sent && Matches(flow.match_, ev.port, ev.frame)
      && (Matches(flow.match_, ev.port, f) ==>
          (Switched(flow.actions, ev.port, f) == Answered(s, PacketIn(id, ev.port, f), later) <==>
            LocatedAt(s.arp, k.ip, target.mac, target.port) && target.port != ev.port))
  {
    SlowPathIn(r, ev, now, k, e);
    HandleIpKeepsLease(r, ev, now, k, e);
    RunKeepsLease(HandleIp(r, ev, now), evs, k, e);
    if Matches(InFlow(ev, Owner(k, e), r.arp.table[k.ip]).match_, ev.port, f) {
      OwnerAnswers(Run(HandleIp(r, ev, now), evs), PacketIn(id, ev.port, f), later, k, e);
      InFlowTranslates(ev, Owner(k, e), r.arp.table[k.ip], f);
    }
  }

  /** Its reply flow agrees with the controller on every packet of the private end that it matches
      exactly when the peer is known by the MAC that the incoming packet had, and that packet, but not the
      private end's, came in on the public port. */
  lemma ReplyAgrees(r: Router, ev: Event, now: real, k: Key, e: Entry,
                    evs: seq<Timed>, f: Frame, id: nat, later: real)
    requires Arrives(r, ev, now, k, e)
    requires NotAfter(evs, e.timestamp + ENTRY_TIMEOUT) && later <= e.timestamp + ENTRY_TIMEOUT
    requires Matches(ReplyFlow(ev, Owner(k, e), r.arp.table[k.ip]).match_, r.arp.table[k.ip].port, f)
    ensures var target := r.arp.table[k.ip];
      var flow := ReplyFlow(ev, Owner(k, e), target);
      var s := Run(HandleIp(r, ev, now), evs); var peer := ev.frame.payload.srcip;
      && flow in HandleIp(r, ev, now).sent
      && (Switched(flow.actions, target.port, f) == Answered(s, PacketIn(id, target.port, f), later) <==>
            && peer in s.arp.table && s.arp.table[peer].mac == ev.frame.src
            && ev.port == PUBLIC_PORT && target.port != PUBLIC_PORT)
  {
    SlowPathIn(r, ev, now, k, e);
    HandleIpKeepsLease(r, ev, now, k, e);
    RunKeepsLease(HandleIp(r, ev, now), evs, k, e);
    LeaseAnswers(Run(HandleIp(r, ev, now), evs), PacketIn(id, r.arp.table[k.ip].port, f), later, k, e);
    ReplyFlowTranslates(ev, Owner(k, e), r.arp.table[k.ip], f);
  }

  // ----- private hosts -----

  predicate IsPrivatePair(ev: Event) {
    IsIp(ev) && IsPrivate(ev.frame.payload.srcip) && IsPrivate(ev.frame.payload.dstip)
  }

  /** The actions of the flows between private hosts, run by the switch. */
  lemma PrivateFlowTranslates(mac: Mac, outPort: nat, inPort: nat, f: Frame)
    requires f.payload.IpPkt?
    ensures Switched([SetDlSrc(PRIVATE_MAC), SetDlDst(mac), Output(outPort)], inPort, f)
         == Emitted(Frame(PRIVATE_MAC, mac, f.payload), inPort, outPort)
  {
    var all := [SetDlSrc(PRIVATE_MAC), SetDlDst(mac), Output(outPort)];
    assert all[1..] == [SetDlDst(mac), Output(outPort)];
    assert all[1..][1..] == [Output(outPort)];
    var f1 := Act(all[0], f);
    assert Switched(all[1..], inPort, f1) == Switched([Output(outPort)], inPort, Act(all[1], f1));
  }

  /** What the controller sends between private hosts: the two flows, then the packet itself with its
      addresses and ports as they were; an ARP request if it must wait; nothing for an unsupported one. */
  lemma SlowPathPrivate(r: Router, ev: Event, now: real)
    requires IsPrivatePair(ev)
    ensures var dst := ev.frame.payload.dstip;
      HandleIp(r, ev, now).sent == r.sent +
        if ev.frame.payload.transport.Unsupported? then []
        else if Located(r.arp, dst) then
          [ThereFlow(ev, r.arp.table[dst]), BackFlow(ev, r.arp.table[dst]),
           PacketOut(Frame(PRIVATE_MAC, r.arp.table[dst].mac, ev.frame.payload), r.arp.table[dst].port)]
        else [ArpRequest(dst, OFPP_FLOOD, PRIVATE_IP, PRIVATE_MAC)]
  {
  }

  /** Between private hosts the flow that a packet installs matches it, and agrees with the controller
      in any later state, on every packet it matches, exactly when the destination is located where it
      was and that is not where the packet came in. A packet that is not TCP, UDP or ICMP the controller
      drops, and the switch only when it would go out where it came in. */
  lemma ThereAgrees(r: Router, ev: Event, now: real, s: Router, f: Frame, id: nat, later: real)
    requires IsPrivatePair(ev) && !ev.frame.payload.transport.Unsupported? && Located(r.arp, ev.frame.payload.dstip)
    ensures var dst := ev.frame.payload.dstip; var target := r.arp.table[dst];
      var flow := ThereFlow(ev, target);
      && flow in HandleIp(r, ev, now).sent && Matches(flow.match_, ev.port, ev.frame)
      && (Matches(flow.match_, ev.port, f) ==>
          (Switched(flow.actions, ev.port, f) == Answered(s, PacketIn(id, ev.port, f), later) <==>
            if f.payload.transport.Unsupported? then target.port == ev.port
            else LocatedAt(s.arp, dst, target.mac, target.port) && target.port != ev.port))
  {
    var target := r.arp.table[ev.frame.payload.dstip];
    SlowPathPrivate(r, ev, now);
    if Matches(ThereFlow(ev, target).match_, ev.port, f) {
      SlowPathPrivate(s, PacketIn(id, ev.port, f), later);
      PrivateFlowTranslates(target.mac, target.port, ev.port, f);
    }
  }

  /** The flow for the answers agrees with the controller exactly when the host that sent the packet is
      located where the packet came from, and that is not where the answer comes in. */
  lemma BackAgrees(r: Router, ev: Event, now: real, s: Router, f: Frame, id: nat, later: real)
    requires IsPrivatePair(ev) && !ev.frame.payload.transport.Unsupported? && Located(r.arp, ev.frame.payload.dstip)
    requires var target := r.arp.table[ev.frame.payload.dstip]; Matches(BackFlow(ev, target).match_, target.port, f)
    ensures var host := ev.frame.payload.srcip; var target := r.arp.table[ev.frame.payload.dstip];
      var flow := BackFlow(ev, target);
      && flow in HandleIp(r, ev, now).sent
      && (Switched(flow.actions, target.port, f) == Answered(s, PacketIn(id, target.port, f), later) <==>
            if f.payload.transport.Unsupported? then target.port == ev.port
            else LocatedAt(s.arp, host, ev.frame.src, ev.port) && target.port != ev.port)
  {
    var target := r.arp.table[ev.frame.payload.dstip];
    SlowPathPrivate(r, ev, now);
    SlowPathPrivate(s, PacketIn(id, target.port, f), later);
    PrivateFlowTranslates(ev.frame.src, ev.port, target.port, f);
  }

  // ----- round trips -----

  /** A peer's answer: source and destination change places. */
  function Swapped(p: Payload): Payload
    requires p.IpPkt?
  {
    p.(srcip := p.dstip, dstip := p.srcip, transport := match p.transport
      case Tcp(s, d) => Tcp(d, s) case Udp(s, d) => Udp(d, s) case t => t)
  }

  /** Where the answer goes when the controller handles it: to the host, if that is located. */
  function BackTo(s: Router, p: Payload): Msg
    requires p.IpPkt?
  {
    var host := p.srcip;
    if Located(s.arp, host) then
      PacketOut(Frame(PRIVATE_MAC, s.arp.table[host].mac, Swapped(p)), s.arp.table[host].port)
    else ArpRequest(host, OFPP_FLOOD, PRIVATE_IP, PRIVATE_MAC)
  }

  /** Translation round trip: a connection's packet goes out as `out`, a peer swaps source and destination,
      and after any events within the lease the answer comes back as the answer to the original packet:
      through the controller to where the private host is located, or to wait for its location; through
      the return flow, which it matches, to where the packet came from, unless that is the public port. */
  lemma RoundTrip(r: Router, ev: Event, now: real, out: Frame, evs: seq<Timed>, back: Frame, id: nat, later: real)
    requires Connects(r, ev, now) && NotAfter(evs, LeaseEnd(r, ev, now)) && later <= LeaseEnd(r, ev, now)
    requires Answered(r, ev, now) == Some(PacketOut(out, PUBLIC_PORT)) && out.payload.IpPkt?
    requires back.payload == Swapped(out.payload)
    ensures var s := Run(HandleIp(r, ev, now), evs);
      Answered(s, PacketIn(id, PUBLIC_PORT, back), later) == Some(BackTo(s, ev.frame.payload))
    ensures var flow := ReturnFlow(ev, LeaseOf(r, ev, now).value.publicPort);
      && flow in HandleIp(r, ev, now).sent && Matches(flow.match_, PUBLIC_PORT, back)
      && Switched(flow.actions, PUBLIC_PORT, back)
           == Emitted(Frame(PRIVATE_MAC, ev.frame.src, Swapped(ev.frame.payload)), PUBLIC_PORT, ev.port)
  {
    var e := LeaseOf(r, ev, now).value;
    SlowPathOut(r, ev, now);
    assert out == TranslatedOut(ev.frame, e.publicPort, r.arp.table[ev.frame.payload.dstip].mac);
    ConnectionLeased(r, ev, now);
    RunKeepsLease(HandleIp(r, ev, now), evs, PrivateEnd(ev), e);
    OwnerAnswers(Run(HandleIp(r, ev, now), evs), PacketIn(id, PUBLIC_PORT, back), later, PrivateEnd(ev), e);
    ReturnFlowTranslates(ev, e.publicPort, back);
  }

  /** Round trip of a connection from outside: a peer's packet reaches the private end as `out`, the
      private end swaps source and destination, and after any events within the lease the peer gets the
      answer to the packet it sent: through the controller, or after an ARP request for the peer; and
      through the reply flow, which the answer matches, to where the peer's packet came from, unless the
      private end is there too. */
  lemma ReplyRoundTrip(r: Router, ev: Event, now: real, k: Key, e: Entry, out: Frame,
                       evs: seq<Timed>, back: Frame, id: nat, later: real)
    requires Arrives(r, ev, now, k, e)
    requires NotAfter(evs, e.timestamp + ENTRY_TIMEOUT) && later <= e.timestamp + ENTRY_TIMEOUT
    requires Answered(r, ev, now) == Some(PacketOut(out, r.arp.table[k.ip].port)) && out.payload.IpPkt?
    requires back.payload == Swapped(out.payload)
    ensures var s := Run(HandleIp(r, ev, now), evs); var peer := ev.frame.payload.srcip;
      Answered(s, PacketIn(id, r.arp.table[k.ip].port, back), later) == Some(
        if peer in s.arp.table then
          PacketOut(Frame(PUBLIC_MAC, s.arp.table[peer].mac, Swapped(ev.frame.payload)), PUBLIC_PORT)
        else ArpRequest(peer, PUBLIC_PORT, PUBLIC_IP, PUBLIC_MAC))
    ensures var target := r.arp.table[k.ip]; var flow := ReplyFlow(ev, Owner(k, e), target);
      && flow in HandleIp(r, ev, now).sent && Matches(flow.match_, target.port, back)
      && Switched(flow.actions, target.port, back)
           == Emitted(Frame(PUBLIC_MAC, ev.frame.src, Swapped(ev.frame.payload)), target.port, ev.port)
  {
    var target := r.arp.table[k.ip];
    SlowPathIn(r, ev, now, k, e);
    assert out == TranslatedIn(ev.frame, k.ip, k.port, target.mac);
    HandleIpKeepsLease(r, ev, now, k, e);
    RunKeepsLease(HandleIp(r, ev, now), evs, k, e);
    LeaseAnswers(Run(HandleIp(r, ev, now), evs), PacketIn(id, target.port, back), later, k, e);
    ReplyFlowTranslates(ev, Owner(k, e), target, back);
  }

  /** Between private hosts the answer to a packet matches the flow installed for answers, where the other
      host is. The switch passes it on to where the packet came from, unless both are behind one port; the
      controller, in any later state, to where the host is located, or it asks for the host. */
  lemma PrivateRoundTrip(r: Router, ev: Event, now: real, s: Router, back: Frame, id: nat, later: real)
    requires IsPrivatePair(ev) && !ev.frame.payload.transport.Unsupported? && Located(r.arp, ev.frame.payload.dstip)
    requires back.payload == Swapped(ev.frame.payload)
    ensures var target := r.arp.table[ev.frame.payload.dstip]; var flow := BackFlow(ev, target);
      && flow in HandleIp(r, ev, now).sent && Matches(flow.match_, target.port, back)
      && Switched(flow.actions, target.port, back)
           == Emitted(Frame(PRIVATE_MAC, ev.frame.src, Swapped(ev.frame.payload)), target.port, ev.port)
    ensures Answered(s, PacketIn(id, r.arp.table[ev.frame.payload.dstip].port, back), later)
         == Some(BackTo(s, ev.frame.payload))
  {
    var target := r.arp.table[ev.frame.payload.dstip];
    SlowPathPrivate(r, ev, now);
    SlowPathPrivate(s, PacketIn(id, target.port, back), later);
    PrivateFlowTranslates(ev.frame.src, ev.port, target.port, back);
  }

  predicate IsEchoOut(ev: Event) {
    && IsIp(ev) && ev.frame.payload.transport.Icmp?
    && IsPrivate(ev.frame.payload.srcip) && !IsPrivate(ev.frame.payload.dstip)
  }

  function EchoEnd(ev: Event): Key
    requires IsEchoOut(ev)
  {
    Key(ICMP, ev.frame.payload.srcip, ev.frame.payload.transport.id)
  }

  /** The identifier that handling the echo message finds or leases. */
  ghost function EchoLease(r: Router, ev: Event, now: real): Option<Entry>
    requires IsEchoOut(ev)
  {
    Create(r.icmp, EchoEnd(ev), PUBLIC_IP, now, now).1
  }

  /** What the controller sends for an outgoing echo message: no flows, the message under its leased
      identifier. */
  lemma EchoOut(r: Router, ev: Event, now: real)
    requires Tables(r.icmp) && IsEchoOut(ev) && ev.frame.payload.dstip in r.arp.table && EchoLease(r, ev, now).Some?
    ensures var e := EchoLease(r, ev, now).value;
      && HandleIp(r, ev, now).sent == r.sent
           + [PacketOut(TranslatedOut(ev.frame, e.publicPort, r.arp.table[ev.frame.payload.dstip].mac), PUBLIC_PORT)]
      && Leased(HandleIp(r, ev, now), EchoEnd(ev), e)
  {
    HandleIpKeepsTables(r, ev, now, ICMP);
  }

  /** Pings come back: an echo message goes out as `out`, and after any events within the lease its answer
      reaches the host that sent it, under the identifier it used, or waits for that host's location. */
  lemma EchoRoundTrip(r: Router, ev: Event, now: real, out: Frame, evs: seq<Timed>, back: Event, later: real)
    requires Tables(r.icmp) && IsEchoOut(ev) && ev.frame.payload.dstip in r.arp.table && EchoLease(r, ev, now).Some?
    requires var until := EchoLease(r, ev, now).value.timestamp + ENTRY_TIMEOUT; NotAfter(evs, until) && later <= until
    requires Answered(r, ev, now) == Some(PacketOut(out, PUBLIC_PORT)) && out.payload.IpPkt?
    requires back.frame.payload == Swapped(out.payload)
    ensures var s := Run(HandleIp(r, ev, now), evs);
      HandleIp(s, back, later).sent == s.sent + [BackTo(s, ev.frame.payload)]
  {
    var k, e := EchoEnd(ev), EchoLease(r, ev, now).value;
    EchoOut(r, ev, now);
    assert out == TranslatedOut(ev.frame, e.publicPort, r.arp.table[ev.frame.payload.dstip].mac);
    RunKeepsLease(HandleIp(r, ev, now), evs, k, e);
    SlowPathIn(Run(HandleIp(r, ev, now), evs), back, later, k, e);
  }

  // ----- runs on which they differ -----

  /** A connection whose private end is not in the ARP table: the switch forwards every answer that the
      return flow matches, the controller would ask for the host instead. */
  lemma UnlocatedDiffers(r: Router, ev: Event, now: real, answer: Frame)
    requires Connects(r, ev, now) && ev.frame.payload.srcip !in r.arp.table && ev.port != PUBLIC_PORT
    requires Matches(ReturnFlow(ev, LeaseOf(r, ev, now).value.publicPort).match_, PUBLIC_PORT, answer)
    ensures var s := HandleIp(r, ev, now); var flow := ReturnFlow(ev, LeaseOf(r, ev, now).value.publicPort);
      && flow in s.sent
      && Switched(flow.actions, PUBLIC_PORT, answer).Some?
      && Switched(flow.actions, PUBLIC_PORT, answer).value.PacketOut?
      && Answered(s, PacketIn(2, PUBLIC_PORT, answer), now)
           == Some(ArpRequest(ev.frame.payload.srcip, OFPP_FLOOD, PRIVATE_IP, PRIVATE_MAC))
  {
    SlowPathOut(r, ev, now);
    ConnectionLeased(r, ev, now);
    OwnerAnswers(HandleIp(r, ev, now), PacketIn(2, PUBLIC_PORT, answer), now,
                 PrivateEnd(ev), LeaseOf(r, ev, now).value);
    ReturnFlowTranslates(ev, LeaseOf(r, ev, now).value.publicPort, answer);
  }

  /** An ARP message that a new router does not answer only teaches it the sender. */
  lemma FirstReply(learn: Event, now: real)
    requires learn.frame.payload.Arp? && ArpAnswer(learn) == []
    ensures var a := learn.frame.payload;
      HandlePacketIn(NewRouter(), learn, now) ==
        NewRouter().(arp := ArpState(map[a.protosrc := ArpEntry(a.hwsrc, learn.port, now)], map[]))
  {
  }

  lemma FirstLease(r: Router, ev: Event, now: real)
    requires r.pat == Empty() && IsConnection(ev) && ev.frame.payload.dstip in r.arp.table
    ensures Connects(r, ev, now)
  {
    AlwaysTables([], TCP);
    assert PAT_PORT_MIN in Reap(Empty(), now).pool;
  }

  lemma RunOfTwo(x: Timed, y: Timed)
    ensures Run(NewRouter(), [x, y]) == HandlePacketIn(HandlePacketIn(NewRouter(), x.ev, x.at), y.ev, y.at)
  {
    var r := HandlePacketIn(NewRouter(), x.ev, x.at);
    assert [x, y][1..] == [y] && [y][1..] == [];
    assert Run(r, [y]) == Run(HandlePacketIn(r, y.ev, y.at), []);
  }

  /** From the start: the peer is learned, then a host that never sent an ARP message opens a connection.
      The flow that this installs and the controller differ on the peer's answer. */
  lemma ControllerAndSwitchDiffer(now: real)
    returns (learn: Event, send: Event, flow: Msg, answer: Frame)
    ensures IsIp(send) && answer.payload.IpPkt? && flow.FlowMod?
    ensures var s := Run(NewRouter(), [Timed(learn, now), Timed(send, now)]);
      && flow in s.sent && Matches(flow.match_, PUBLIC_PORT, answer)
      && Switched(flow.actions, PUBLIC_PORT, answer).Some?
      && Switched(flow.actions, PUBLIC_PORT, answer).value.PacketOut?
      && Answered(s, PacketIn(2, PUBLIC_PORT, answer), now)
           == Some(ArpRequest(send.frame.payload.srcip, OFPP_FLOOD, PRIVATE_IP, PRIVATE_MAC))
  {
    var peer: Ip, host: Ip := 0x0808_0808, 0xC0A8_0102;
    learn := PacketIn(0, PUBLIC_PORT, Frame(7, PUBLIC_MAC, Arp(2, peer, 7, PUBLIC_IP)));
    send := PacketIn(1, 3, Frame(2, PRIVATE_MAC, IpPkt(host, peer, Udp(5000, 53))));
    var r := HandlePacketIn(NewRouter(), learn, now);
    FirstReply(learn, now);
    FirstLease(r, send, now);
    var port := LeaseOf(r, send, now).value.publicPort;
    flow := ReturnFlow(send, port);
    answer := Frame(7, PUBLIC_MAC, IpPkt(peer, PUBLIC_IP, Udp(53, port)));
    UnlocatedDiffers(r, send, now, answer);
    RunOfTwo(Timed(learn, now), Timed(send, now));
  }

  /** From the start: a private host is learned on a port, then another host behind the same port sends to
      it. The controller sends that packet back out of the port; the flow that it installs does not. */
  lemma SharedPortDiffers(now: real)
    returns (learn: Event, send: Event, flow: Msg)
    ensures IsIp(send) && flow.FlowMod?
    ensures var s := Run(NewRouter(), [Timed(learn, now), Timed(send, now)]);
      && flow in s.sent && Matches(flow.match_, send.port, send.frame)
      && Switched(flow.actions, send.port, send.frame) == None
      && Answered(s, PacketIn(2, send.port, send.frame), now).Some?
      && Answered(s, PacketIn(2, send.port, send.frame), now).value.PacketOut?
  {
    var host: Ip, other: Ip := 0xC0A8_0132, 0xC0A8_0102;
    learn := PacketIn(0, 3, Frame(5, PRIVATE_MAC, Arp(2, host, 5, PRIVATE_IP)));
    send := PacketIn(1, 3, Frame(2, PRIVATE_MAC, IpPkt(other, host, Udp(5000, 53))));
    var r := HandlePacketIn(NewRouter(), learn, now);
    FirstReply(learn, now);
    var target := r.arp.table[host];
    flow := ThereFlow(send, target);
    RunOfTwo(Timed(learn, now), Timed(send, now));
    SlowPathPrivate(r, send, now);
    SlowPathPrivate(HandleIp(r, send, now), PacketIn(2, 3, send.frame), now);
    PrivateFlowTranslates(target.mac, 3, 3, send.frame);
  }
}
