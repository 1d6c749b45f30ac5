/** Which IP packets the controller refuses, which wait and for whom, and how the others leave: exactly,
    from the lease and ARP tables before the event. */
module Outcomes {
  import opened Results
  import opened NatModel
  import opened RouterModel
  import opened RouterProofs
  import opened FastPath
  import NatProofs

  /** Both allocators are as every run keeps them. */
  predicate Sound(r: Router) {
    Tables(r.pat) && Tables(r.icmp)
  }

  function ProtocolOf(ev: Event): Proto
    requires IsIp(ev) && !ev.frame.payload.transport.Unsupported?
  {
    ProtoOf(ev.frame.payload.transport)
  }

  /** The forward table that concerns the packet. */
  function Leases(r: Router, ev: Event): map<Key, Entry>
    requires IsIp(ev) && !ev.frame.payload.transport.Unsupported?
  {
    Allocator(r, ProtocolOf(ev)).table
  }

  /** An unexpired lease to k has the public end that a packet from outside is sent to. */
  predicate OwnedBy(r: Router, ev: Event, now: real, k: Key)
    requires IsIp(ev) && !ev.frame.payload.transport.Unsupported?
  {
    var leases := Leases(r, ev);
    k in leases && !Expired(leases[k], now) && ToLease(ev, k, leases[k])
  }

  function LiveKeys(leases: map<Key, Entry>, now: real): set<Key> {
    set k | k in leases && !Expired(leases[k], now)
  }

  /** Nothing can be leased to the packet's private end: it has no unexpired lease, and unexpired leases
      hold all 64512 ports. */
  predicate Exhausted(r: Router, ev: Event, now: real)
    requires IsIp(ev) && !ev.frame.payload.transport.Unsupported?
  {
    var ip := ev.frame.payload;
    var live := LiveKeys(Leases(r, ev), now);
    Key(ProtocolOf(ev), ip.srcip, SrcPort(ip.transport)) !in live && |live| == 64512
  }

  /** The packets that the controller refuses: those of other protocols, those from outside that no lease
      owns, and those that would need a lease when there is none left. */
  ghost predicate Refused(r: Router, ev: Event, now: real)
    requires IsIp(ev)
  {
    var ip := ev.frame.payload;
    if ip.transport.Unsupported? then true
    else if !IsPrivate(ip.srcip) then !exists k :: OwnedBy(r, ev, now, k)
    else !IsPrivate(ip.dstip) && ip.dstip in r.arp.table && Exhausted(r, ev, now)
  }

  /** The address that the packet is to reach next: its destination, or the owner of the public end that a
      packet from outside is sent to. */
  ghost predicate NextHop(r: Router, ev: Event, now: real, ip: Ip)
    requires IsIp(ev) && !ev.frame.payload.transport.Unsupported?
  {
    if IsPrivate(ev.frame.payload.srcip) then ip == ev.frame.payload.dstip
    else exists k :: OwnedBy(r, ev, now, k) && k.ip == ip
  }

  /** Outside it is enough to know the MAC; inside the port must be known too. */
  predicate Resolved(a: ArpState, ip: Ip) {
    if IsPrivate(ip) then Located(a, ip) else ip in a.table
  }

  /** The question for an address, on the side where it is. */
  function RequestFor(ip: Ip): Msg {
    if IsPrivate(ip) then ArpRequest(ip, OFPP_FLOOD, PRIVATE_IP, PRIVATE_MAC)
    else ArpRequest(ip, PUBLIC_PORT, PUBLIC_IP, PUBLIC_MAC)
  }

  /** The event ended in no place but this one, and if it was not forwarded nothing else was sent. */
  predicate Ended(r: Router, r': Router, ev: Event, how: Outcome) {
    match how
    case Dropped =>
      r'.sent == r.sent && r'.dropped == r.dropped + [ev] && r'.forwarded == r.forwarded && r'.arp == r.arp
    case Suspended(ip) =>
      && r'.sent == r.sent + [RequestFor(ip)] && r'.arp == Enqueue(r.arp, ip, ev)
      && r'.dropped == r.dropped && r'.forwarded == r.forwarded
    case Forwarded =>
      && |r'.sent| > |r.sent| && r'.sent[..|r.sent|] == r.sent && r'.sent[|r'.sent| - 1].PacketOut?
      && r'.forwarded == r.forwarded + [ev] && r'.dropped == r.dropped && r'.arp == r.arp
  }

  // ----- packets from outside -----

  lemma OwnerIsUnique(r: Router, ev: Event, now: real, k: Key, l: Key)
    requires Sound(r) && IsIp(ev) && !ev.frame.payload.transport.Unsupported?
    requires OwnedBy(r, ev, now, k) && OwnedBy(r, ev, now, l)
    ensures k == l
  {
  }

  lemma OwnedEnds(r: Router, ev: Event, now: real, k: Key)
    requires Sound(r) && IsIp(ev) && !ev.frame.payload.transport.Unsupported? && OwnedBy(r, ev, now, k)
    ensures IsPrivate(k.ip)
    ensures Ended(r, HandleIp(r, ev, now), ev, if Located(r.arp, k.ip) then Forwarded else Suspended(k.ip))
  {
    var e := Leases(r, ev)[k];
    SlowPathIn(r, ev, now, k, e);
    HandleIpMoves(r, ev, now);
    OutcomeIsVisible(r, ev, now);
  }

  lemma UnownedEnds(r: Router, ev: Event, now: real)
    requires Sound(r) && IsIp(ev) && !ev.frame.payload.transport.Unsupported? && !IsPrivate(ev.frame.payload.srcip)
    requires !exists k :: OwnedBy(r, ev, now, k)
    ensures Ended(r, HandleIp(r, ev, now), ev, Dropped)
  {
    var ip := ev.frame.payload;
    var q := Key(ProtocolOf(ev), PUBLIC_IP, DstPort(ip.transport));
    var allocator := Allocator(r, ProtocolOf(ev));
    var found := Lookup(allocator, q, now).1;
    if found.Some? && (ip.transport.Icmp? || ip.dstip == PUBLIC_IP) {
      NatProofs.LookupIsScan(allocator, q, now, found.value);
      var k :| k in allocator.table && !Expired(allocator.table[k], now)
        && PublicKey(k, allocator.table[k]) == q && found.value == Owner(k, allocator.table[k]);
      assert OwnedBy(r, ev, now, k);
    }
  }

  lemma IncomingEndsExactly(r: Router, ev: Event, now: real, hop: Ip) returns (how: Outcome)
    requires Sound(r) && IsIp(ev) && !ev.frame.payload.transport.Unsupported? && !IsPrivate(ev.frame.payload.srcip)
    ensures Ended(r, HandleIp(r, ev, now), ev, how)
    ensures how == Dropped <==> Refused(r, ev, now)
    ensures how == Suspended(hop) <==>
      !Refused(r, ev, now) && NextHop(r, ev, now, hop) && !Resolved(r.arp, hop)
  {
    if k :| OwnedBy(r, ev, now, k) {
      OwnedEnds(r, ev, now, k);
      how := if Located(r.arp, k.ip) then Forwarded else Suspended(k.ip);
      if l :| OwnedBy(r, ev, now, l) && l.ip == hop {
        OwnerIsUnique(r, ev, now, k, l);
      }
    } else {
      UnownedEnds(r, ev, now);
      how := Dropped;
    }
  }

  // ----- packets from private hosts -----

  lemma ReapedIsLive(s: Nat, now: real)
    ensures Reap(s, now).table.Keys == LiveKeys(s.table, now)
  {
  }

  /** The private end of an outgoing packet has or gets a lease unless there is none left for it. */
  lemma GrantsUnlessExhausted(r: Router, ev: Event, now: real)
    requires Sound(r) && IsIp(ev) && !ev.frame.payload.transport.Unsupported?
    ensures var ip := ev.frame.payload;
      var key := Key(ProtocolOf(ev), ip.srcip, SrcPort(ip.transport));
      Create(Allocator(r, ProtocolOf(ev)), key, PUBLIC_IP, now, now).1 == None <==> Exhausted(r, ev, now)
  {
    var ip := ev.frame.payload;
    var key := Key(ProtocolOf(ev), ip.srcip, SrcPort(ip.transport));
    var allocator := Allocator(r, ProtocolOf(ev));
    NatProofs.FailsExactlyWhenFull(allocator, key, PUBLIC_IP, now, now);
    ReapedIsLive(allocator, now);
    assert |Reap(allocator, now).table| == |Reap(allocator, now).table.Keys|;
  }

  lemma OutgoingEnds(r: Router, ev: Event, now: real)
    requires Sound(r) && IsIp(ev) && !ev.frame.payload.transport.Unsupported?
    requires IsPrivate(ev.frame.payload.srcip) && !IsPrivate(ev.frame.payload.dstip)
    ensures var dst := ev.frame.payload.dstip;
      Ended(r, HandleIp(r, ev, now), ev,
            if dst !in r.arp.table then Suspended(dst) else if Exhausted(r, ev, now) then Dropped else Forwarded)
  {
    GrantsUnlessExhausted(r, ev, now);
    OutcomeIsVisible(r, ev, now);
  }

  lemma PrivateEnds(r: Router, ev: Event, now: real)
    requires IsPrivatePair(ev) && !ev.frame.payload.transport.Unsupported?
    ensures var dst := ev.frame.payload.dstip;
      Ended(r, HandleIp(r, ev, now), ev, if Located(r.arp, dst) then Forwarded else Suspended(dst))
  {
    OutcomeIsVisible(r, ev, now);
  }

  // ----- every IP event -----

  /** How an IP event ends, exactly: a refused one is dropped and sends nothing; another one waits for its
      next hop exactly when that is not resolved, and sends one question for it on its own side; the rest
      are forwarded. */
  lemma EndsExactly(r: Router, ev: Event, now: real, hop: Ip) returns (how: Outcome)
    requires Sound(r) && IsIp(ev)
    ensures Ended(r, HandleIp(r, ev, now), ev, how)
    ensures how == Dropped <==> Refused(r, ev, now)
    ensures how == Suspended(hop) <==>
      !Refused(r, ev, now) && NextHop(r, ev, now, hop) && !Resolved(r.arp, hop)
  {
    var ip := ev.frame.payload;
    if ip.transport.Unsupported? {
      how := Dropped;
    } else if !IsPrivate(ip.srcip) {
      how := IncomingEndsExactly(r, ev, now, hop);
    } else if IsPrivate(ip.dstip) {
      PrivateEnds(r, ev, now);
      how := if Located(r.arp, ip.dstip) then Forwarded else Suspended(ip.dstip);
    } else {
      OutgoingEnds(r, ev, now);
      how := if ip.dstip !in r.arp.table then Suspended(ip.dstip)
             else if Exhausted(r, ev, now) then Dropped else Forwarded;
    }
  }

  /** So it is for every IP event after every run. */
  lemma EveryEventEndsExactly(evs: seq<Timed>, ev: Event, now: real, hop: Ip) returns (how: Outcome)
    requires IsIp(ev)
    ensures var r := Run(NewRouter(), evs);
      && Ended(r, HandleIp(r, ev, now), ev, how)
      && (how == Dropped <==> Refused(r, ev, now))
      && (how == Suspended(hop) <==> !Refused(r, ev, now) && NextHop(r, ev, now, hop) && !Resolved(r.arp, hop))
  {
    AlwaysTables(evs, TCP);
    AlwaysTables(evs, ICMP);
    how := EndsExactly(Run(NewRouter(), evs), ev, now, hop);
  }

  // ----- what becomes of the leases -----

  /** Handling the packet consults the allocator of its protocol. */
  predicate Consults(r: Router, ev: Event)
    requires IsIp(ev)
  {
    var ip := ev.frame.payload;
    if ip.transport.Unsupported? then false
    else if !IsPrivate(ip.srcip) then ip.transport.Icmp? || ip.dstip == PUBLIC_IP
    else !IsPrivate(ip.dstip) && ip.dstip in r.arp.table
  }

  /** A packet that consults no allocator leaves both as they were. */
  lemma LeasesUntouched(r: Router, ev: Event, now: real)
    requires IsIp(ev) && !Consults(r, ev)
    ensures HandleIp(r, ev, now).pat == r.pat && HandleIp(r, ev, now).icmp == r.icmp
  {
  }

  /** An allocator that was consulted keeps exactly its unexpired leases, unchanged, and has a new one from
      the time of the event if one was granted. */
  predicate Kept(before: map<Key, Entry>, after: map<Key, Entry>, now: real, k: Key, granted: bool) {
    var live := LiveKeys(before, now);
    && (k in after <==> k in live || granted)
    && (k in live ==> after[k] == before[k])
    && (granted ==> k !in live && after[k].publicIp == PUBLIC_IP && after[k].timestamp == now)
  }

  lemma CreateKeeps(s: Nat, key: Key, now: real, k: Key)
    requires NatModel.Valid(s)
    ensures var (after, e) := Create(s, key, PUBLIC_IP, now, now);
      Kept(s.table, after.table, now, k, e.Some? && k == key && k !in LiveKeys(s.table, now))
  {
  }

  lemma OutgoingLeases(r: Router, ev: Event, now: real, k: Key)
    requires Sound(r) && IsIp(ev) && Consults(r, ev) && IsPrivate(ev.frame.payload.srcip)
    ensures var r' := HandleIp(r, ev, now); if ProtocolOf(ev) == ICMP then r'.pat == r.pat else r'.icmp == r.icmp
    ensures var ip := ev.frame.payload;
      Kept(Leases(r, ev), Leases(HandleIp(r, ev, now), ev), now, k,
           && !Refused(r, ev, now) && k == Key(ProtocolOf(ev), ip.srcip, SrcPort(ip.transport))
           && k !in LiveKeys(Leases(r, ev), now))
  {
    var ip := ev.frame.payload;
    var key := Key(ProtocolOf(ev), ip.srcip, SrcPort(ip.transport));
    var allocator := Allocator(r, ProtocolOf(ev));
    CreateKeeps(allocator, key, now, k);
    GrantsUnlessExhausted(r, ev, now);
    assert Allocator(HandleIp(r, ev, now), ProtocolOf(ev)) == Create(allocator, key, PUBLIC_IP, now, now).0;
  }

  lemma IncomingLeases(r: Router, ev: Event, now: real, k: Key)
    requires Sound(r) && IsIp(ev) && Consults(r, ev) && !IsPrivate(ev.frame.payload.srcip)
    ensures var r' := HandleIp(r, ev, now); if ProtocolOf(ev) == ICMP then r'.pat == r.pat else r'.icmp == r.icmp
    ensures Kept(Leases(r, ev), Leases(HandleIp(r, ev, now), ev), now, k, false)
  {
  }

  /** What an event that consults an allocator leaves in it: exactly the unexpired leases, and a new one for
      the private end of an outgoing packet that had none and was not refused. The other allocator stays as
      it was. */
  lemma LeasesAfter(r: Router, ev: Event, now: real, k: Key)
    requires Sound(r) && IsIp(ev) && Consults(r, ev)
    ensures var r' := HandleIp(r, ev, now); if ProtocolOf(ev) == ICMP then r'.pat == r.pat else r'.icmp == r.icmp
    ensures var ip := ev.frame.payload;
      Kept(Leases(r, ev), Leases(HandleIp(r, ev, now), ev), now, k,
           && IsPrivate(ip.srcip) && !Refused(r, ev, now)
           && k == Key(ProtocolOf(ev), ip.srcip, SrcPort(ip.transport)) && k !in LiveKeys(Leases(r, ev), now))
  {
    if IsPrivate(ev.frame.payload.srcip) {
      OutgoingLeases(r, ev, now, k);
    } else {
      IncomingLeases(r, ev, now, k);
    }
  }

  /** An ARP message for which nothing waits touches no lease and no event: it teaches its sender's address
      and sends at most its own answer. */
  lemma ArpAlone(r: Router, ev: Event, now: real)
    requires ev.frame.payload.Arp? && ev.frame.payload.protosrc !in r.arp.waiting
    ensures var r' := HandleArp(r, ev, now);
      && r'.pat == r.pat && r'.icmp == r.icmp && r'.forwarded == r.forwarded && r'.dropped == r.dropped
      && r'.arp.waiting == r.arp.waiting
      && |r'.sent| <= |r.sent| + 1 && r'.sent[..|r.sent|] == r.sent
  {
    assert r.arp.waiting - {ev.frame.payload.protosrc} == r.arp.waiting;
  }

  // ----- what forwarded packets look like -----

  /** The packet was sent on with these MACs between these addresses, as the same kind of packet. */
  predicate SentOn(ev: Event, f: Frame, src: Mac, dst: Mac, srcip: Ip, dstip: Ip)
    requires IsIp(ev) && !ev.frame.payload.transport.Unsupported?
  {
    && f.src == src && f.dst == dst
    && f.payload.IpPkt? && f.payload.srcip == srcip && f.payload.dstip == dstip
    && !f.payload.transport.Unsupported? && ProtoOf(f.payload.transport) == ProtocolOf(ev)
  }

  /** A packet that leaves carries nothing of its private end: it goes out of the public port from the
      router's public addresses to the same destination and port, and its source port or identifier is one
      that the reverse lookup resolves to the private end. */
  lemma LeavesTranslated(r: Router, ev: Event, now: real) returns (f: Frame)
    requires Sound(r) && IsIp(ev) && !ev.frame.payload.transport.Unsupported?
    requires IsPrivate(ev.frame.payload.srcip) && !IsPrivate(ev.frame.payload.dstip)
    requires ev.frame.payload.dstip in r.arp.table && !Exhausted(r, ev, now)
    ensures var dst := ev.frame.payload.dstip;
      && Answered(r, ev, now) == Some(PacketOut(f, PUBLIC_PORT))
      && SentOn(ev, f, PUBLIC_MAC, r.arp.table[dst].mac, PUBLIC_IP, dst)
    ensures var t := ev.frame.payload.transport; !t.Icmp? ==> DstPort(f.payload.transport) == DstPort(t)
    ensures var owner := Lookup(Allocator(HandleIp(r, ev, now), ProtocolOf(ev)),
                                Key(ProtocolOf(ev), PUBLIC_IP, SrcPort(f.payload.transport)), now).1;
      owner.Some? && owner.value.privateIp == ev.frame.payload.srcip
      && owner.value.privatePort == SrcPort(ev.frame.payload.transport)
  {
    var ip := ev.frame.payload;
    var key := Key(ProtocolOf(ev), ip.srcip, SrcPort(ip.transport));
    var allocator := Allocator(r, ProtocolOf(ev));
    OutgoingEnds(r, ev, now);
    var (after, e) := Create(allocator, key, PUBLIC_IP, now, now);
    assert e.Some?;
    f := TranslatedOut(ev.frame, e.value.publicPort, r.arp.table[ip.dstip].mac);
    HandleIpKeepsTables(r, ev, now, ProtocolOf(ev));
    NatProofs.LookupIsScan(after, PublicKey(key, e.value), now, Owner(key, e.value));
  }

  /** A packet that is delivered inside comes from the router's private MAC, goes to the owner of the public
      end it was sent to, where that is located, under the owner's own port or identifier, and still shows
      the peer's address and port. */
  lemma EntersTranslated(r: Router, ev: Event, now: real, k: Key) returns (f: Frame)
    requires Sound(r) && IsIp(ev) && !ev.frame.payload.transport.Unsupported?
    requires OwnedBy(r, ev, now, k) && Located(r.arp, k.ip)
    ensures Answered(r, ev, now) == Some(PacketOut(f, r.arp.table[k.ip].port))
    ensures SentOn(ev, f, PRIVATE_MAC, r.arp.table[k.ip].mac, ev.frame.payload.srcip, k.ip)
    ensures var t := ev.frame.payload.transport; !t.Icmp? ==> SrcPort(f.payload.transport) == SrcPort(t)
    ensures DstPort(f.payload.transport) == k.port
  {
    var target := r.arp.table[k.ip];
    OwnerAnswers(r, ev, now, k, Leases(r, ev)[k]);
    f := TranslatedIn(ev.frame, k.ip, k.port, target.mac);
  }
}
