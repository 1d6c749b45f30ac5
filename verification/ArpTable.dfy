/** What the ARP table holds: over every run, what the last ARP message from each address said. */
module ArpTable {
  import opened NatModel
  import opened RouterModel
  import RouterProofs

  predicate ArpFrom(t: Timed, ip: Ip) {
    t.ev.frame.payload.Arp? && t.ev.frame.payload.protosrc == ip
  }

  /** The i-th event is the last ARP message from the address. */
  predicate LastFrom(evs: seq<Timed>, ip: Ip, i: nat) {
    i < |evs| && ArpFrom(evs[i], ip) && forall j :: i < j < |evs| ==> !ArpFrom(evs[j], ip)
  }

  /** No later ARP message, from anyone, came more than 30 seconds after it. */
  predicate Kept(evs: seq<Timed>, i: nat) {
    i < |evs| && forall j :: i < j < |evs| && evs[j].ev.frame.payload.Arp? ==> evs[j].at - evs[i].at <= ENTRY_TIMEOUT
  }

  /** What an ARP message teaches about its sender. */
  function Taught(t: Timed): ArpEntry
    requires t.ev.frame.payload.Arp?
  {
    ArpEntry(t.ev.frame.payload.hwsrc, t.ev.port, t.at)
  }

  lemma {:induction false} ResumeKeepsTable(r: Router, evs: seq<Event>, now: real)
    ensures Resume(r, evs, now).arp.table == r.arp.table
    decreases |evs|
  {
    if evs != [] {
      if IsIp(evs[0]) {
        RouterProofs.HandleIpMoves(r, evs[0], now);
        ResumeKeepsTable(HandleIp(r, evs[0], now), evs[1..], now);
      } else {
        ResumeKeepsTable(r, evs[1..], now);
      }
    }
  }

  /** Only ARP messages change the table: each drops what is over 30 seconds old, then puts its sender's
      entry in place of an older one. */
  lemma EventTeaches(r: Router, t: Timed, ip: Ip)
    ensures var before, after := r.arp.table, HandlePacketIn(r, t.ev, t.at).arp.table;
      if !t.ev.frame.payload.Arp? then after == before
      else if ArpFrom(t, ip) then ip in after && after[ip] == Taught(t)
      else
        && (ip in after <==> ip in before && t.at - before[ip].timestamp <= ENTRY_TIMEOUT)
        && (ip in after ==> after[ip] == before[ip])
  {
    if t.ev.frame.payload.Arp? {
      ResumeKeepsTable(Learned(r, t.ev, t.at), Queued(r.arp, t.ev.frame.payload.protosrc), t.at);
    } else if IsIp(t.ev) {
      RouterProofs.HandleIpMoves(r, t.ev, t.at);
    }
  }

  lemma {:induction false} RunThen(r: Router, evs: seq<Timed>, t: Timed)
    ensures Run(r, evs + [t]) == HandlePacketIn(Run(r, evs), t.ev, t.at)
    decreases |evs|
  {
    if evs == [] {
      assert [t][1..] == [];
      assert Run(HandlePacketIn(r, t.ev, t.at), []) == HandlePacketIn(r, t.ev, t.at);
    } else {
      assert (evs + [t])[1..] == evs[1..] + [t];
      RunThen(HandlePacketIn(r, evs[0].ev, evs[0].at), evs[1..], t);
    }
  }

  /** The i-th event is what the table says about the address. */
  predicate Holds(evs: seq<Timed>, ip: Ip, i: nat) {
    LastFrom(evs, ip, i) && Kept(evs, i)
  }

  lemma HoldsThen(evs: seq<Timed>, t: Timed, ip: Ip, i: nat)
    ensures Holds(evs + [t], ip, i) <==>
      if ArpFrom(t, ip) then i == |evs|
      else Holds(evs, ip, i) && (t.ev.frame.payload.Arp? ==> t.at - evs[i].at <= ENTRY_TIMEOUT)
  {
    var all := evs + [t];
    assert all[|evs|] == t;
    assert forall j :: 0 <= j < |evs| ==> all[j] == evs[j];
  }

  /** In every run an address is in the table exactly when no ARP message came more than 30 seconds after
      the last one from it, and its entry is what that last one said, with the time of that one. */
  lemma {:induction false} TableExact(evs: seq<Timed>, ip: Ip)
    ensures var table := Run(NewRouter(), evs).arp.table;
      && (ip in table <==> exists i :: Holds(evs, ip, i))
      && (forall i: nat :: Holds(evs, ip, i) ==> ip in table && table[ip] == Taught(evs[i]))
    decreases |evs|
  {
    if evs != [] {
      var init, t := evs[..|evs| - 1], evs[|evs| - 1];
      assert evs == init + [t];
      TableExact(init, ip);
      RunThen(NewRouter(), init, t);
      EventTeaches(Run(NewRouter(), init), t, ip);
      var table := Run(NewRouter(), evs).arp.table;
      forall i: nat | Holds(evs, ip, i) ensures ip in table && table[ip] == Taught(evs[i]) {
        HoldsThen(init, t, ip, i);
        assert i < |init| ==> evs[i] == init[i];
      }
      if ArpFrom(t, ip) {
        HoldsThen(init, t, ip, |init|);
      } else if ip in table {
        var i: nat :| Holds(init, ip, i);
        HoldsThen(init, t, ip, i);
      }
    }
  }
}
