/** The controller object: dispatch, suspension, rewriting and flow installation, every method
    proved to make the transition that `RouterModel` describes. */
module ProtoRouter {
  import opened Results
  import opened NatModel
  import opened RouterModel
  import ArpHandler
  import NatHandler

  class ProtoRouter {
    const arpHandler: ArpHandler.ArpHandler
    const natHandler: NatHandler.NatHandler
    const icmpHandler: NatHandler.NatHandler
    var sent: seq<Msg>
    ghost var forwarded: seq<Event>
    ghost var dropped: seq<Event>

    ghost function State(): Router
      reads this, arpHandler, natHandler, icmpHandler
    {
      Router(arpHandler.State(), natHandler.State(), icmpHandler.State(), sent, forwarded, dropped)
    }

    /** The two allocators are separate objects, and only IP events wait. */
    ghost predicate Valid()
      reads this, arpHandler
    {
      && natHandler != icmpHandler
      && forall ip, ev :: ip in arpHandler.waitingQueue && ev in arpHandler.waitingQueue[ip] ==> IsIp(ev)
    }

    constructor ()
      ensures Valid() && State() == NewRouter()
      ensures fresh(arpHandler) && fresh(natHandler) && fresh(icmpHandler)
    {
      arpHandler := new ArpHandler.ArpHandler();
      natHandler := new NatHandler.NatHandler();
      icmpHandler := new NatHandler.NatHandler();
      sent, forwarded, dropped := [], [], [];
    }

    method Send(msg: Msg)
      modifies `sent
      ensures sent == old(sent) + [msg]
    {
      sent := sent + [msg];
    }

    method InstallFlow(match_: Match, actions: seq<Action>)
      modifies `sent
      ensures sent == old(sent) + [FlowMod(match_, actions)]
    {
      Send(FlowMod(match_, actions));
    }

    method SendPacket(frame: Frame, srcMac: Mac, dstMac: Mac, outPort: nat)
      modifies `sent
      ensures sent == old(sent) + [PacketOut(frame.(src := srcMac, dst := dstMac), outPort)]
    {
      var packet := frame;
      packet := packet.(src := srcMac);
      packet := packet.(dst := dstMac);
      Send(PacketOut(packet, outPort));
    }

    method ResolveMac(ip: Ip, ev: Event, outPort: nat, sourceIp: Ip, sourceMac: Mac) returns (mac: Option<Mac>)
      requires Valid() && IsIp(ev)
      modifies `sent, arpHandler
      ensures Valid()
      ensures mac.Some? <==> ip in old(arpHandler.arpTable)
      ensures mac.Some? ==> mac.value == old(arpHandler.arpTable)[ip].mac && State() == old(State())
      ensures mac == None ==> State() == Suspend(old(State()), ip, ev, outPort, sourceIp, sourceMac)
    {
      mac := arpHandler.GetMac(ip);
      if mac == None {
        arpHandler.EnqueuePacket(ip, ev);
        Send(ArpRequest(ip, outPort, sourceIp, sourceMac));
      }
    }

    method ResolveMacAndPort(ip: Ip, ev: Event, outPort: nat, sourceIp: Ip, sourceMac: Mac)
      returns (target: Option<(Mac, nat)>)
      requires Valid() && IsIp(ev)
      modifies `sent, arpHandler
      ensures Valid()
      ensures target.Some? <==> Located(old(arpHandler.State()), ip)
      ensures target.Some? ==>
        && target.value == (old(arpHandler.arpTable)[ip].mac, old(arpHandler.arpTable)[ip].port)
        && State() == old(State())
      ensures target == None ==> State() == Suspend(old(State()), ip, ev, outPort, sourceIp, sourceMac)
    {
      var mac := arpHandler.GetMac(ip);
      var port := arpHandler.GetPort(ip);
      if mac == None || port == None || port.value == 0 {
        arpHandler.EnqueuePacket(ip, ev);
        Send(ArpRequest(ip, outPort, sourceIp, sourceMac));
        return None;
      }
      target := Some((mac.value, port.value));
    }

    method HandleOutgoing(ev: Event, now: real)
      requires Valid() && IsIp(ev) && !ev.frame.payload.transport.Unsupported?
      modifies this, arpHandler, natHandler, icmpHandler
      ensures Valid() && State() == RouterModel.HandleOutgoing(old(State()), ev, now)
    {
      var packet := ev.frame;
      var ip := packet.payload;
      var protocol, srcPort, dstPort := ProtoOf(ip.transport), SrcPort(ip.transport), DstPort(ip.transport);
      var mac := ResolveMac(ip.dstip, ev, PUBLIC_PORT, PUBLIC_IP, PUBLIC_MAC);
      if mac == None {
        return;
      }
      if protocol == ICMP {
        var icmpEntry := icmpHandler.CreatePatEntry(protocol, ip.srcip, srcPort, PUBLIC_IP, now, now);
        if icmpEntry == None {
          dropped := dropped + [ev];
          return;
        }
        ip := ip.(transport := WithSrcPort(ip.transport, icmpEntry.value.publicPort));
        ip := ip.(srcip := PUBLIC_IP);
        SendPacket(packet.(payload := ip), PUBLIC_MAC, mac.value, PUBLIC_PORT);
        forwarded := forwarded + [ev];
        return;
      }
      var patEntry := natHandler.CreatePatEntry(protocol, ip.srcip, srcPort, PUBLIC_IP, now, now);
      if patEntry == None {
        dropped := dropped + [ev];
        return;
      }
      var publicPort := patEntry.value.publicPort;
      InstallFlow(Match(ev.port, ip.srcip, ip.dstip, Some((protocol, srcPort, dstPort))),
                  [SetNwSrc(PUBLIC_IP), SetTpSrc(publicPort),
                   SetDlSrc(PUBLIC_MAC), SetDlDst(mac.value), Output(PUBLIC_PORT)]);
      InstallFlow(Match(PUBLIC_PORT, ip.dstip, PUBLIC_IP, Some((protocol, dstPort, publicPort))),
                  [SetNwDst(ip.srcip), SetTpDst(srcPort),
                   SetDlSrc(PRIVATE_MAC), SetDlDst(packet.src), Output(ev.port)]);
      ip := ip.(srcip := PUBLIC_IP);
      ip := ip.(transport := WithSrcPort(ip.transport, publicPort));
      SendPacket(packet.(payload := ip), PUBLIC_MAC, mac.value, PUBLIC_PORT);
      forwarded := forwarded + [ev];
    }

    method HandlePrivateToPrivate(ev: Event)
      requires Valid() && IsIp(ev)
      modifies this, arpHandler
      ensures Valid() && State() == RouterModel.HandlePrivateToPrivate(old(State()), ev)
    {
      var packet := ev.frame;
      var ip := packet.payload;
      var target := ResolveMacAndPort(ip.dstip, ev, OFPP_FLOOD, PRIVATE_IP, PRIVATE_MAC);
      if target == None {
        return;
      }
      var (mac, port) := target.value;
      InstallFlow(Match(ev.port, ip.srcip, ip.dstip, None),
                  [SetDlSrc(PRIVATE_MAC), SetDlDst(mac), Output(port)]);
      InstallFlow(Match(port, ip.dstip, ip.srcip, None),
                  [SetDlSrc(PRIVATE_MAC), SetDlDst(packet.src), Output(ev.port)]);
      SendPacket(packet, PRIVATE_MAC, mac, port);
      forwarded := forwarded + [ev];
    }

    /** Both halves of `_handle_incoming` end alike once the owner of the endpoint is known. */
    method DeliverIn(ev: Event, owner: RevEntry)
      requires Valid() && IsIp(ev) && !ev.frame.payload.transport.Unsupported?
      modifies this, arpHandler
      ensures Valid() && State() == RouterModel.DeliverIn(old(State()), ev, owner)
    {
      var packet := ev.frame;
      var ip := packet.payload;
      var protocol, srcPort, dstPort := ProtoOf(ip.transport), SrcPort(ip.transport), DstPort(ip.transport);
      var target := ResolveMacAndPort(owner.privateIp, ev, OFPP_FLOOD, PRIVATE_IP, PRIVATE_MAC);
      if target == None {
        return;
      }
      var (mac, port) := target.value;
      if protocol != ICMP {
        InstallFlow(Match(ev.port, ip.srcip, PUBLIC_IP, Some((protocol, srcPort, dstPort))),
                    [SetNwDst(owner.privateIp), SetTpDst(owner.privatePort),
                     SetDlSrc(PRIVATE_MAC), SetDlDst(mac), Output(port)]);
        InstallFlow(Match(port, owner.privateIp, ip.srcip, Some((protocol, owner.privatePort, srcPort))),
                    [SetNwSrc(PUBLIC_IP), SetTpSrc(dstPort),
                     SetDlSrc(PUBLIC_MAC), SetDlDst(packet.src), Output(ev.port)]);
      }
      ip := ip.(dstip := owner.privateIp);
      ip := ip.(transport := WithDstPort(ip.transport, owner.privatePort));
      SendPacket(packet.(payload := ip), PRIVATE_MAC, mac, port);
      forwarded := forwarded + [ev];
    }

    method HandleIncoming(ev: Event, now: real)
      requires Valid() && IsIp(ev) && !ev.frame.payload.transport.Unsupported?
      modifies this, arpHandler, natHandler, icmpHandler
      ensures Valid() && State() == RouterModel.HandleIncoming(old(State()), ev, now)
    {
      var ip := ev.frame.payload;
      var dstPort := DstPort(ip.transport);
      if ip.transport.Icmp? {
        var owner := icmpHandler.GetReverseEntry(ICMP, PUBLIC_IP, dstPort, now);
        if owner == None {
          dropped := dropped + [ev];
          return;
        }
        DeliverIn(ev, owner.value);
        return;
      }
      if ip.dstip != PUBLIC_IP {
        dropped := dropped + [ev];
        return;
      }
      var owner := natHandler.GetReverseEntry(ProtoOf(ip.transport), ip.dstip, dstPort, now);
      if owner == None {
        dropped := dropped + [ev];
        return;
      }
      DeliverIn(ev, owner.value);
    }

    method HandleIp(ev: Event, now: real)
      requires Valid() && IsIp(ev)
      modifies this, arpHandler, natHandler, icmpHandler
      ensures Valid() && State() == RouterModel.HandleIp(old(State()), ev, now)
    {
      var ip := ev.frame.payload;
      if ip.transport.Unsupported? {
        dropped := dropped + [ev];
        return;
      }
      if IsPrivate(ip.srcip) {
        if IsPrivate(ip.dstip) {
          HandlePrivateToPrivate(ev);
        } else {
          HandleOutgoing(ev, now);
        }
      } else {
        HandleIncoming(ev, now);
      }
    }

    method HandleArp(ev: Event, now: real)
      requires Valid() && ev.frame.payload.Arp?
      modifies this, arpHandler, natHandler, icmpHandler
      ensures Valid() && State() == RouterModel.HandleArp(old(State()), ev, now)
      decreases 1
    {
      var arp := ev.frame.payload;
      arpHandler.LearnArpEntry(arp.protosrc, arp.hwsrc, ev.port, now);
      var toResume := arpHandler.DequeuePackets(arp.protosrc);
      ghost var learned := State();
      assert learned == Learned(old(State()), ev, now);
      var i := 0;
      while i < |toResume|
        invariant 0 <= i <= |toResume| && Valid()
        invariant Resume(State(), toResume[i..], now) == Resume(learned, toResume, now)
      {
        assert toResume[i..][1..] == toResume[i + 1..];
        HandlePacketIn(toResume[i], now);
        i := i + 1;
      }
      assert State() == Resume(learned, toResume, now);
      if IsPrivate(arp.protosrc) && IsPrivate(arp.protodst) && arp.protodst != PRIVATE_IP {
        SendPacket(ev.frame, ev.frame.src, ev.frame.dst, OFPP_FLOOD);
        return;
      }
      if arp.opcode != ARP_REQUEST {
        return;
      }
      if arp.protodst == PUBLIC_IP {
        Send(ArpReply(arp.protosrc, arp.hwsrc, ev.port, PUBLIC_IP, PUBLIC_MAC));
      } else if arp.protodst == PRIVATE_IP {
        Send(ArpReply(arp.protosrc, arp.hwsrc, ev.port, PRIVATE_IP, PRIVATE_MAC));
      }
    }

    /** Resuming an event comes back here; it ends because only IP events are resumed. */
    method HandlePacketIn(ev: Event, now: real)
      requires Valid()
      modifies this, arpHandler, natHandler, icmpHandler
      ensures Valid() && State() == RouterModel.HandlePacketIn(old(State()), ev, now)
      decreases if ev.frame.payload.Arp? then 2 else 0
    {
      if ev.frame.payload.Arp? {
        HandleArp(ev, now);
      } else if IsIp(ev) {
        HandleIp(ev, now);
      }
    }
  }
}
