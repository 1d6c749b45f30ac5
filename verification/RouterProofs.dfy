/** Suspending and resuming: no IP event is lost, repeated or left where it could be resolved. */
module RouterProofs {
  import opened Results
  import opened NatModel
  import opened RouterModel

  // ----- conservation -----

  predicate NoDup(evs: seq<Event>) {
    forall i, j :: 0 <= i < j < |evs| ==> evs[i] != evs[j]
  }

  predicate Waiting(r: Router, ev: Event) {
    exists ip :: ip in r.arp.waiting && ev in r.arp.waiting[ip]
  }

  /** Every arrived IP event is in exactly one of forwarded, dropped and waiting, there exactly once
      and under one address; nothing else is anywhere. */
  ghost predicate Conserved(r: Router, arrived: set<Event>) {
    && (forall ev :: ev in arrived <==> ev in r.forwarded || ev in r.dropped || Waiting(r, ev))
    && NoDup(r.forwarded) && NoDup(r.dropped)
    && (forall ev :: ev in r.forwarded ==> ev !in r.dropped && !Waiting(r, ev))
    && (forall ev :: ev in r.dropped ==> !Waiting(r, ev))
    && (forall ip :: ip in r.arp.waiting ==> NoDup(r.arp.waiting[ip]))
    && (forall ip, jp, ev | ip in r.arp.waiting && jp in r.arp.waiting ::
          ev in r.arp.waiting[ip] && ev in r.arp.waiting[jp] ==> ip == jp)
  }

  /** The ways in which handling one IP event can end. */
  datatype Outcome = Forwarded | Dropped | Suspended(ip: Ip)

  /** The address whose MAC the event needs. */
  ghost function Target(r: Router, ev: Event, now: real): Ip
    requires IsIp(ev)
  {
    var ip := ev.frame.payload;
    if IsPrivate(ip.srcip) || ip.transport.Unsupported? then ip.dstip
    else
      var owner := if ip.transport.Icmp? then Lookup(r.icmp, Key(ICMP, PUBLIC_IP, ip.transport.id), now).1
                   else Lookup(r.pat, Key(ProtoOf(ip.transport), ip.dstip, DstPort(ip.transport)), now).1;
      if owner == None then ip.dstip else owner.value.privateIp
  }

  /** Where handling an IP event puts it. */
  ghost function OutcomeOf(r: Router, ev: Event, now: real): Outcome
    requires IsIp(ev)
  {
    var r' := HandleIp(r, ev, now);
    if |r'.forwarded| > |r.forwarded| then Forwarded
    else if |r'.dropped| > |r.dropped| then Dropped
    else Suspended(Target(r, ev, now))
  }

  /** The event went to exactly one place, no other event moved, and learned addresses stay. */
  predicate Moved(r: Router, r': Router, ev: Event, target: Ip) {
    && r'.arp.table == r.arp.table
    && (|| (r'.forwarded == r.forwarded + [ev] && r'.dropped == r.dropped && r'.arp == r.arp)
        || (r'.forwarded == r.forwarded && r'.dropped == r.dropped + [ev] && r'.arp == r.arp)
        || (r'.forwarded == r.forwarded && r'.dropped == r.dropped && r'.arp == Enqueue(r.arp, target, ev)))
  }

  /** Each direction on its own. */
  lemma OutgoingMoves(r: Router, ev: Event, now: real)
    requires IsIp(ev) && !ev.frame.payload.transport.Unsupported?
    ensures var r' := HandleOutgoing(r, ev, now); Moved(r, r', ev, ev.frame.payload.dstip)
  {
  }

  lemma IncomingMoves(r: Router, ev: Event, now: real)
    requires IsIp(ev) && !ev.frame.payload.transport.Unsupported? && !IsPrivate(ev.frame.payload.srcip)
    ensures var r' := HandleIncoming(r, ev, now); Moved(r, r', ev, Target(r, ev, now))
  {
  }

  /** Handling an IP event moves it to exactly one place and touches no other event; learned
      addresses are untouched too. */
  lemma HandleIpMoves(r: Router, ev: Event, now: real)
    requires IsIp(ev)
    ensures var r' := HandleIp(r, ev, now);
      && r'.arp.table == r.arp.table
      && match OutcomeOf(r, ev, now)
         case Forwarded => r'.forwarded == r.forwarded + [ev] && r'.dropped == r.dropped && r'.arp == r.arp
         case Dropped => r'.forwarded == r.forwarded && r'.dropped == r.dropped + [ev] && r'.arp == r.arp
         case Suspended(ip) =>
           r'.forwarded == r.forwarded && r'.dropped == r.dropped && r'.arp == Enqueue(r.arp, ip, ev)
  {
    var ip := ev.frame.payload;
    if !ip.transport.Unsupported? {
      if IsPrivate(ip.srcip) {
        OutgoingMoves(r, ev, now);
      } else {
        IncomingMoves(r, ev, now);
      }
    }
    assert Moved(r, HandleIp(r, ev, now), ev, Target(r, ev, now));
  }

  lemma AppendedNoDup(evs: seq<Event>, ev: Event)
    requires NoDup(evs) && ev !in evs
    ensures NoDup(evs + [ev])
  {
  }

  /** Suspending puts the event at the end of one queue and leaves the others alone. */
  lemma EnqueuedWaiting(r: Router, r': Router, ip: Ip, ev: Event, other: Event)
    requires r'.arp == Enqueue(r.arp, ip, ev)
    ensures Waiting(r', other) <==> Waiting(r, other) || other == ev
  {
    var queue := Queued(r.arp, ip) + [ev];
    assert r'.arp.waiting == r.arp.waiting[ip := queue];
    if Waiting(r, other) {
      var jp :| jp in r.arp.waiting && other in r.arp.waiting[jp];
      assert other in r'.arp.waiting[jp];
    }
    if other == ev {
      assert queue[|queue| - 1] == ev && ev in r'.arp.waiting[ip];
    }
  }

  lemma SuspendConserves(r: Router, r': Router, arrived: set<Event>, ip: Ip, ev: Event)
    requires Conserved(r, arrived) && ev !in arrived
    requires r'.arp == Enqueue(r.arp, ip, ev) && r'.forwarded == r.forwarded && r'.dropped == r.dropped
    ensures Conserved(r', arrived + {ev})
  {
    forall other ensures Waiting(r', other) <==> Waiting(r, other) || other == ev {
      EnqueuedWaiting(r, r', ip, ev, other);
    }
    assert !Waiting(r, ev);
    AppendedNoDup(Queued(r.arp, ip), ev);
  }

  lemma ForwardConserves(r: Router, r': Router, arrived: set<Event>, ev: Event)
    requires Conserved(r, arrived) && ev !in arrived
    requires r'.arp == r.arp && r'.forwarded == r.forwarded + [ev] && r'.dropped == r.dropped
    ensures Conserved(r', arrived + {ev})
  {
    AppendedNoDup(r.forwarded, ev);
    assert forall other :: Waiting(r', other) <==> Waiting(r, other);
  }

  lemma DropConserves(r: Router, r': Router, arrived: set<Event>, ev: Event)
    requires Conserved(r, arrived) && ev !in arrived
    requires r'.arp == r.arp && r'.forwarded == r.forwarded && r'.dropped == r.dropped + [ev]
    ensures Conserved(r', arrived + {ev})
  {
    AppendedNoDup(r.dropped, ev);
    assert forall other :: Waiting(r', other) <==> Waiting(r, other);
  }

  lemma HandleIpConserves(r: Router, arrived: set<Event>, ev: Event, now: real)
    requires Conserved(r, arrived) && ev !in arrived && IsIp(ev)
    ensures Conserved(HandleIp(r, ev, now), arrived + {ev})
  {
    var r' := HandleIp(r, ev, now);
    HandleIpMoves(r, ev, now);
    match OutcomeOf(r, ev, now)
    case Forwarded => ForwardConserves(r, r', arrived, ev);
    case Dropped => DropConserves(r, r', arrived, ev);
    case Suspended(ip) => SuspendConserves(r, r', arrived, ip, ev);
  }

  /** Taking a queue out takes out exactly its events. */
  lemma DequeueConserves(r: Router, r': Router, arrived: set<Event>, ip: Ip)
    requires Conserved(r, arrived)
    requires r'.arp.waiting == r.arp.waiting - {ip} && r'.forwarded == r.forwarded && r'.dropped == r.dropped
    ensures Conserved(r', arrived - (set ev | ev in Queued(r.arp, ip)))
    ensures NoDup(Queued(r.arp, ip)) && forall ev :: ev in Queued(r.arp, ip) ==> ev in arrived
  {
    forall ev ensures Waiting(r', ev) <==> Waiting(r, ev) && ev !in Queued(r.arp, ip) {
      if Waiting(r, ev) && ev !in Queued(r.arp, ip) {
        var jp :| jp in r.arp.waiting && ev in r.arp.waiting[jp];
        assert jp in r'.arp.waiting;
      }
    }
    assert forall ev :: ev in Queued(r.arp, ip) ==> Waiting(r, ev);
  }

  lemma {:induction false} ResumeConserves(r: Router, arrived: set<Event>, evs: seq<Event>, now: real)
    requires Conserved(r, arrived) && NoDup(evs)
    requires forall ev :: ev in evs ==> ev !in arrived && IsIp(ev)
    ensures Conserved(Resume(r, evs, now), arrived + (set ev | ev in evs))
    decreases |evs|
  {
    if evs == [] {
      assert arrived + (set ev | ev in evs) == arrived;
    } else {
      var rest := evs[1..];
      HandleIpConserves(r, arrived, evs[0], now);
      assert evs[0] !in rest;
      ResumeConserves(HandleIp(r, evs[0], now), arrived + {evs[0]}, rest, now);
      assert arrived + {evs[0]} + (set ev | ev in rest) == arrived + (set ev | ev in evs);
    }
  }

  /** Only IP events ever wait. */
  ghost predicate OnlyIpWaits(r: Router) {
    forall ev :: Waiting(r, ev) ==> IsIp(ev)
  }

  /** The IP events among those that have arrived once this one has. */
  function Arrived(arrived: set<Event>, ev: Event): set<Event> {
    if IsIp(ev) then arrived + {ev} else arrived
  }

  lemma HandleArpConserves(r: Router, arrived: set<Event>, ev: Event, now: real)
    requires Conserved(r, arrived) && ev.frame.payload.Arp?
    requires forall e :: e in arrived ==> IsIp(e)
    ensures Conserved(HandleArp(r, ev, now), arrived)
  {
    var ip := ev.frame.payload.protosrc;
    var evs := Queued(r.arp, ip);
    var mid := Learned(r, ev, now);
    DequeueConserves(r, mid, arrived, ip);
    var inTransit := set e | e in evs;
    ResumeConserves(mid, arrived - inTransit, evs, now);
    assert arrived - inTransit + inTransit == arrived;
    var done := Resume(mid, evs, now);
    assert forall e :: Waiting(HandleArp(r, ev, now), e) <==> Waiting(done, e);
  }

  /** One event, of whatever kind, keeps every IP event in exactly one place. */
  lemma EventConserves(r: Router, arrived: set<Event>, ev: Event, now: real)
    requires Conserved(r, arrived) && (IsIp(ev) ==> ev !in arrived)
    requires forall e :: e in arrived ==> IsIp(e)
    ensures Conserved(HandlePacketIn(r, ev, now), Arrived(arrived, ev))
  {
    if ev.frame.payload.Arp? {
      HandleArpConserves(r, arrived, ev, now);
    } else if IsIp(ev) {
      HandleIpConserves(r, arrived, ev, now);
    }
  }

  function IpEvents(evs: seq<Timed>): set<Event> {
    set t | t in evs && IsIp(t.ev) :: t.ev
  }

  /** IP events of a run are told apart by their identity. */
  predicate DistinctIp(evs: seq<Timed>) {
    forall i, j :: 0 <= i < j < |evs| && IsIp(evs[i].ev) && IsIp(evs[j].ev) ==> evs[i].ev != evs[j].ev
  }

  lemma {:induction false} RunConserves(r: Router, arrived: set<Event>, evs: seq<Timed>)
    requires Conserved(r, arrived) && (forall e :: e in arrived ==> IsIp(e))
    requires DistinctIp(evs) && IpEvents(evs) !! arrived
    ensures Conserved(Run(r, evs), arrived + IpEvents(evs))
    decreases |evs|
  {
    if evs == [] {
      assert arrived + IpEvents(evs) == arrived;
    } else {
      var ev, rest := evs[0].ev, evs[1..];
      assert evs[0] in evs;
      EventConserves(r, arrived, ev, evs[0].at);
      forall e | e in IpEvents(rest) ensures e in IpEvents(evs) && (IsIp(ev) ==> e != ev) {
        var t :| t in rest && t.ev == e;
        assert t in evs;
      }
      RunConserves(HandlePacketIn(r, ev, evs[0].at), Arrived(arrived, ev), rest);
      assert Arrived(arrived, ev) + IpEvents(rest) == arrived + IpEvents(evs);
    }
  }

  /** Conservation over any run of ARP, IP and other events: each IP event ends in exactly one of
      forwarded, dropped and waiting, exactly once. */
  lemma EveryIpEventInOnePlace(evs: seq<Timed>)
    requires DistinctIp(evs)
    ensures Conserved(Run(NewRouter(), evs), IpEvents(evs))
  {
    assert forall ev :: !Waiting(NewRouter(), ev);
    RunConserves(NewRouter(), {}, evs);
    assert {} + IpEvents(evs) == IpEvents(evs);
  }

  // ----- order -----

  /** `a` is `b` with some elements left out. */
  ghost predicate Subsequence(a: seq<Event>, b: seq<Event>) {
    if a == [] then true
    else b != [] && ((a[0] == b[0] && Subsequence(a[1..], b[1..])) || Subsequence(a, b[1..]))
  }

  /** The event as a list, if it ends in the given way. */
  ghost function EndsAs(r: Router, ev: Event, now: real, how: Outcome): seq<Event>
    requires IsIp(ev)
  {
    if OutcomeOf(r, ev, now) == how then [ev] else []
  }

  /** The events of the list that end in the given way when they are handled one after the other. */
  ghost function Ending(r: Router, evs: seq<Event>, now: real, how: Outcome): seq<Event>
    requires forall ev :: ev in evs ==> IsIp(ev)
    decreases |evs|
  {
    if evs == [] then []
    else
      EndsAs(r, evs[0], now, how) + Ending(HandleIp(r, evs[0], now), evs[1..], now, how)
  }

  lemma {:induction false} EndingInOrder(r: Router, evs: seq<Event>, now: real, how: Outcome)
    requires forall ev :: ev in evs ==> IsIp(ev)
    ensures Subsequence(Ending(r, evs, now, how), evs)
    decreases |evs|
  {
    if evs != [] {
      var rest := Ending(HandleIp(r, evs[0], now), evs[1..], now, how);
      EndingInOrder(HandleIp(r, evs[0], now), evs[1..], now, how);
      assert ([evs[0]] + rest)[1..] == rest && [] + rest == rest;
    }
  }

  lemma HandleIpAppends(r: Router, ev: Event, now: real, ip: Ip)
    requires IsIp(ev)
    ensures var r' := HandleIp(r, ev, now);
      && r'.forwarded == r.forwarded + EndsAs(r, ev, now, Forwarded)
      && r'.dropped == r.dropped + EndsAs(r, ev, now, Dropped)
      && Queued(r'.arp, ip) == Queued(r.arp, ip) + EndsAs(r, ev, now, Suspended(ip))
  {
    HandleIpMoves(r, ev, now);
  }

  lemma Associate(a: seq<Event>, b: seq<Event>, c: seq<Event>)
    ensures (a + b) + c == a + (b + c)
  {
  }

  /** Resumed events are sent, dropped or queued again, each kind in the order of the old queue. */
  lemma {:induction false} ResumeEndings(r: Router, evs: seq<Event>, now: real, ip: Ip)
    requires forall ev :: ev in evs ==> IsIp(ev)
    ensures var done := Resume(r, evs, now);
      && done.forwarded == r.forwarded + Ending(r, evs, now, Forwarded)
      && done.dropped == r.dropped + Ending(r, evs, now, Dropped)
      && Queued(done.arp, ip) == Queued(r.arp, ip) + Ending(r, evs, now, Suspended(ip))
    decreases |evs|
  {
    if evs != [] {
      var ev, rest := evs[0], evs[1..];
      var r' := HandleIp(r, ev, now);
      HandleIpAppends(r, ev, now, ip);
      ResumeEndings(r', rest, now, ip);
      Associate(r.forwarded, EndsAs(r, ev, now, Forwarded), Ending(r', rest, now, Forwarded));
      Associate(r.dropped, EndsAs(r, ev, now, Dropped), Ending(r', rest, now, Dropped));
      Associate(Queued(r.arp, ip), EndsAs(r, ev, now, Suspended(ip)), Ending(r', rest, now, Suspended(ip)));
    }
  }

  /** An ARP message resumes the whole queue of its sender, once and in arrival order: what is sent,
      dropped or queued again because of it are subsequences of that queue. */
  lemma ArpResumesInOrder(r: Router, ev: Event, now: real, ip: Ip)
    requires ev.frame.payload.Arp? && OnlyIpWaits(r)
    ensures var queue := Queued(r.arp, ev.frame.payload.protosrc);
      var mid := Learned(r, ev, now);
      var r' := HandleArp(r, ev, now);
      && (forall e :: e in queue ==> IsIp(e))
      && r'.forwarded == r.forwarded + Ending(mid, queue, now, Forwarded)
      && r'.dropped == r.dropped + Ending(mid, queue, now, Dropped)
      && Queued(r'.arp, ip) == Queued(mid.arp, ip) + Ending(mid, queue, now, Suspended(ip))
      && Subsequence(Ending(mid, queue, now, Forwarded), queue)
      && Subsequence(Ending(mid, queue, now, Dropped), queue)
      && Subsequence(Ending(mid, queue, now, Suspended(ip)), queue)
  {
    var queue := Queued(r.arp, ev.frame.payload.protosrc);
    var mid := Learned(r, ev, now);
    forall e | e in queue ensures IsIp(e) {
      assert Waiting(r, e);
    }
    ResumeEndings(mid, queue, now, ip);
    EndingInOrder(mid, queue, now, Forwarded);
    EndingInOrder(mid, queue, now, Dropped);
    EndingInOrder(mid, queue, now, Suspended(ip));
  }

  lemma HandleIpOnlyIpWaits(r: Router, ev: Event, now: real)
    requires OnlyIpWaits(r) && IsIp(ev)
    ensures OnlyIpWaits(HandleIp(r, ev, now))
  {
    var r' := HandleIp(r, ev, now);
    HandleIpMoves(r, ev, now);
    forall other | Waiting(r', other) ensures IsIp(other) {
      match OutcomeOf(r, ev, now)
      case Suspended(ip) => EnqueuedWaiting(r, r', ip, ev, other);
      case _ => assert Waiting(r, other);
    }
  }

  lemma {:induction false} ResumeOnlyIpWaits(r: Router, evs: seq<Event>, now: real)
    requires OnlyIpWaits(r)
    ensures OnlyIpWaits(Resume(r, evs, now))
    decreases |evs|
  {
    if evs != [] {
      if IsIp(evs[0]) {
        HandleIpOnlyIpWaits(r, evs[0], now);
        ResumeOnlyIpWaits(HandleIp(r, evs[0], now), evs[1..], now);
      } else {
        ResumeOnlyIpWaits(r, evs[1..], now);
      }
    }
  }

  lemma EventOnlyIpWaits(r: Router, ev: Event, now: real)
    requires OnlyIpWaits(r)
    ensures OnlyIpWaits(HandlePacketIn(r, ev, now))
  {
    if ev.frame.payload.Arp? {
      var mid := Learned(r, ev, now);
      assert forall e :: Waiting(mid, e) ==> Waiting(r, e);
      var done := Resume(mid, Queued(r.arp, ev.frame.payload.protosrc), now);
      ResumeOnlyIpWaits(mid, Queued(r.arp, ev.frame.payload.protosrc), now);
      assert forall e :: Waiting(HandleArp(r, ev, now), e) ==> Waiting(done, e);
    } else if IsIp(ev) {
      HandleIpOnlyIpWaits(r, ev, now);
    }
  }

  lemma {:induction false} RunOnlyIpWaits(r: Router, evs: seq<Timed>)
    requires OnlyIpWaits(r)
    ensures OnlyIpWaits(Run(r, evs))
    decreases |evs|
  {
    if evs != [] {
      EventOnlyIpWaits(r, evs[0].ev, evs[0].at);
      RunOnlyIpWaits(HandlePacketIn(r, evs[0].ev, evs[0].at), evs[1..]);
    }
  }

  /** In every run only IP events wait, so every resumption is one of `ArpResumesInOrder`. */
  lemma OnlyIpEverWaits(evs: seq<Timed>)
    ensures OnlyIpWaits(Run(NewRouter(), evs))
  {
    assert forall ev :: !Waiting(NewRouter(), ev);
    RunOnlyIpWaits(NewRouter(), evs);
  }

  // ----- what goes out -----

  predicate AsksFor(msg: Msg, ip: Ip) {
    msg.ArpRequest? && msg.targetIp == ip
  }

  /** Each ending shows in what is sent: a forwarded event ends in a packet-out, a dropped one sends
      nothing, a suspended one sends a single ARP request for the address it waits for. */
  predicate Visible(r: Router, r': Router, how: Outcome) {
    match how
    case Forwarded => |r'.sent| > |r.sent| && r'.sent[..|r.sent|] == r.sent && r'.sent[|r'.sent| - 1].PacketOut?
    case Dropped => r'.sent == r.sent
    case Suspended(ip) => |r'.sent| == |r.sent| + 1 && r'.sent[..|r.sent|] == r.sent && AsksFor(r'.sent[|r.sent|], ip)
  }

  lemma OutgoingIsVisible(r: Router, ev: Event, now: real)
    requires IsIp(ev) && !ev.frame.payload.transport.Unsupported? && IsPrivate(ev.frame.payload.srcip)
    ensures Visible(r, HandleIp(r, ev, now), OutcomeOf(r, ev, now))
  {
  }

  lemma IncomingIsVisible(r: Router, ev: Event, now: real)
    requires IsIp(ev) && !ev.frame.payload.transport.Unsupported? && !IsPrivate(ev.frame.payload.srcip)
    ensures Visible(r, HandleIp(r, ev, now), OutcomeOf(r, ev, now))
  {
  }

  lemma OutcomeIsVisible(r: Router, ev: Event, now: real)
    requires IsIp(ev)
    ensures Visible(r, HandleIp(r, ev, now), OutcomeOf(r, ev, now))
  {
    var ip := ev.frame.payload;
    if !ip.transport.Unsupported? {
      if IsPrivate(ip.srcip) {
        OutgoingIsVisible(r, ev, now);
      } else {
        IncomingIsVisible(r, ev, now);
      }
    }
  }

  /** An ARP request went out for every address that events wait for. */
  ghost predicate Asked(r: Router) {
    forall ip :: ip in r.arp.waiting ==> exists msg :: msg in r.sent && AsksFor(msg, ip)
  }

  lemma HandleIpAsks(r: Router, ev: Event, now: real)
    requires IsIp(ev) && Asked(r)
    ensures Asked(HandleIp(r, ev, now))
  {
    var r' := HandleIp(r, ev, now);
    HandleIpMoves(r, ev, now);
    OutcomeIsVisible(r, ev, now);
    forall msg | msg in r.sent ensures msg in r'.sent {
      if r'.sent != r.sent {
        assert msg in r'.sent[..|r.sent|];
      }
    }
    if OutcomeOf(r, ev, now).Suspended? {
      assert r'.sent[|r.sent|] in r'.sent;
    }
  }

  lemma {:induction false} ResumeAsks(r: Router, evs: seq<Event>, now: real)
    requires Asked(r)
    ensures Asked(Resume(r, evs, now))
    decreases |evs|
  {
    if evs != [] {
      if IsIp(evs[0]) {
        HandleIpAsks(r, evs[0], now);
        ResumeAsks(HandleIp(r, evs[0], now), evs[1..], now);
      } else {
        ResumeAsks(r, evs[1..], now);
      }
    }
  }

  /** In every run whatever waits has been asked for. */
  lemma {:induction false} WaitingIsAsked(r: Router, evs: seq<Timed>)
    requires Asked(r)
    ensures Asked(Run(r, evs))
    decreases |evs|
  {
    if evs != [] {
      var ev, now := evs[0].ev, evs[0].at;
      if ev.frame.payload.Arp? {
        ResumeAsks(Learned(r, ev, now), Queued(r.arp, ev.frame.payload.protosrc), now);
      } else if IsIp(ev) {
        HandleIpAsks(r, ev, now);
      }
      WaitingIsAsked(HandlePacketIn(r, ev, now), evs[1..]);
    }
  }

  /** The messages with which the router reacts to ARP messages: a reply of its own, or a frame passed on. */
  predicate IsAnswer(msg: Msg) {
    msg.ArpReply? || (msg.PacketOut? && msg.frame.payload.Arp?)
  }

  /** What was sent before stays, and nothing that is sent on top of it is such an answer. */
  predicate NoAnswerAdded(before: seq<Msg>, after: seq<Msg>) {
    |before| <= |after| && after[..|before|] == before && forall msg :: msg in after[|before|..] ==> !IsAnswer(msg)
  }

  lemma NoAnswerTwice(a: seq<Msg>, b: seq<Msg>, c: seq<Msg>)
    requires NoAnswerAdded(a, b) && NoAnswerAdded(b, c)
    ensures NoAnswerAdded(a, c)
  {
    assert b == a + b[|a|..] && c == b + c[|b|..];
    assert c == a + (b[|a|..] + c[|b|..]);
  }

  lemma OutgoingSendsNoAnswer(r: Router, ev: Event, now: real)
    requires IsIp(ev) && !ev.frame.payload.transport.Unsupported? && IsPrivate(ev.frame.payload.srcip)
    ensures NoAnswerAdded(r.sent, HandleIp(r, ev, now).sent)
  {
  }

  lemma IncomingSendsNoAnswer(r: Router, ev: Event, now: real)
    requires IsIp(ev) && !ev.frame.payload.transport.Unsupported? && !IsPrivate(ev.frame.payload.srcip)
    ensures NoAnswerAdded(r.sent, HandleIp(r, ev, now).sent)
  {
  }

  lemma HandleIpSendsNoAnswer(r: Router, ev: Event, now: real)
    requires IsIp(ev)
    ensures NoAnswerAdded(r.sent, HandleIp(r, ev, now).sent)
  {
    var ip := ev.frame.payload;
    if !ip.transport.Unsupported? {
      if IsPrivate(ip.srcip) {
        OutgoingSendsNoAnswer(r, ev, now);
      } else {
        IncomingSendsNoAnswer(r, ev, now);
      }
    }
  }

  lemma {:induction false} ResumeSendsNoAnswer(r: Router, evs: seq<Event>, now: real)
    ensures NoAnswerAdded(r.sent, Resume(r, evs, now).sent)
    decreases |evs|
  {
    if evs != [] {
      if IsIp(evs[0]) {
        var r' := HandleIp(r, evs[0], now);
        HandleIpSendsNoAnswer(r, evs[0], now);
        ResumeSendsNoAnswer(r', evs[1..], now);
        NoAnswerTwice(r.sent, r'.sent, Resume(r', evs[1..], now).sent);
      } else {
        ResumeSendsNoAnswer(r, evs[1..], now);
      }
    }
  }

  lemma LastOf(before: seq<Msg>, added: seq<Msg>, msg: Msg)
    ensures before + added == before + [msg] <==> added == [msg]
    ensures before + added == before <==> added == []
  {
    assert (before + added)[|before|..] == added;
    assert (before + [msg])[|before|..] == [msg];
  }

  /** The message is a request for one of the router's own two addresses. */
  predicate AsksRouter(ev: Event)
    requires ev.frame.payload.Arp?
  {
    var a := ev.frame.payload;
    a.opcode == ARP_REQUEST && (a.protodst == PUBLIC_IP || a.protodst == PRIVATE_IP)
  }

  /** The answer to it: the MAC of that side, to the sender, where the request came in. */
  function OwnReply(ev: Event): Msg
    requires ev.frame.payload.Arp?
  {
    var a := ev.frame.payload;
    ArpReply(a.protosrc, a.hwsrc, ev.port, a.protodst, if a.protodst == PUBLIC_IP then PUBLIC_MAC else PRIVATE_MAC)
  }

  /** The message goes from one private host to another. */
  predicate BetweenHosts(ev: Event)
    requires ev.frame.payload.Arp?
  {
    var a := ev.frame.payload;
    IsPrivate(a.protosrc) && IsPrivate(a.protodst) && a.protodst != PRIVATE_IP
  }

  /** After what the resumed events send, in which no answer is, handling an ARP message sends exactly one
      more message if it goes between private hosts, its own frame to all ports; exactly one more if it asks
      for the router, the reply; and otherwise none. */
  lemma ArpAnswerFollows(r: Router, ev: Event, now: real)
    requires ev.frame.payload.Arp?
    ensures var resumed := Resume(Learned(r, ev, now), Queued(r.arp, ev.frame.payload.protosrc), now).sent;
      var sent := HandleArp(r, ev, now).sent;
      && NoAnswerAdded(r.sent, resumed)
      && (BetweenHosts(ev) <==> sent == resumed + [PacketOut(ev.frame, OFPP_FLOOD)])
      && (AsksRouter(ev) <==> sent == resumed + [OwnReply(ev)])
      && (!BetweenHosts(ev) && !AsksRouter(ev) <==> sent == resumed)
  {
    var resumed := Resume(Learned(r, ev, now), Queued(r.arp, ev.frame.payload.protosrc), now).sent;
    ResumeSendsNoAnswer(Learned(r, ev, now), Queued(r.arp, ev.frame.payload.protosrc), now);
    assert HandleArp(r, ev, now).sent == resumed + ArpAnswer(ev);
    assert !IsPrivate(PUBLIC_IP) && IsPrivate(PRIVATE_IP);
    LastOf(resumed, ArpAnswer(ev), PacketOut(ev.frame, OFPP_FLOOD));
    LastOf(resumed, ArpAnswer(ev), OwnReply(ev));
  }

  /** Over all that handling an ARP message sends, the resumption of waiting events included: the frame
      goes out again exactly when it goes between private hosts, to all ports, and an ARP reply goes out
      exactly when the message asks for the router, and then that reply. */
  lemma AnswersExact(r: Router, ev: Event, now: real, msg: Msg)
    requires ev.frame.payload.Arp?
    ensures var sent := HandleArp(r, ev, now).sent;
      && |r.sent| <= |sent| && sent[..|r.sent|] == r.sent
      && (msg in sent[|r.sent|..] && IsAnswer(msg) <==>
            || (BetweenHosts(ev) && msg == PacketOut(ev.frame, OFPP_FLOOD))
            || (AsksRouter(ev) && msg == OwnReply(ev)))
  {
    var resumed := Resume(Learned(r, ev, now), Queued(r.arp, ev.frame.payload.protosrc), now).sent;
    var sent := HandleArp(r, ev, now).sent;
    ArpAnswerFollows(r, ev, now);
    assert sent[|r.sent|..] == resumed[|r.sent|..] + sent[|resumed|..];
  }

  // ----- everything else is ignored -----

  predicate Counts(t: Timed) {
    t.ev.frame.payload.Arp? || IsIp(t.ev)
  }

  /** The ARP and IP events of a run, in their order. */
  function Counting(evs: seq<Timed>): seq<Timed>
    decreases |evs|
  {
    if evs == [] then []
    else (if Counts(evs[0]) then [evs[0]] else []) + Counting(evs[1..])
  }

  /** Frames of other types leave no trace: a run does what its ARP and IP events do without them. */
  lemma {:induction false} OthersAreIgnored(r: Router, evs: seq<Timed>)
    ensures Run(r, evs) == Run(r, Counting(evs))
    decreases |evs|
  {
    if evs != [] {
      OthersAreIgnored(HandlePacketIn(r, evs[0].ev, evs[0].at), evs[1..]);
      if Counts(evs[0]) {
        assert ([evs[0]] + Counting(evs[1..]))[1..] == Counting(evs[1..]);
      } else {
        assert [] + Counting(evs[1..]) == Counting(evs[1..]);
      }
    }
  }

  // ----- waiting means unresolved -----

  predicate Unresolved(a: ArpState) {
    forall ip :: ip in a.waiting ==> ip !in a.table
  }

  predicate PortsKnown(a: ArpState) {
    forall ip :: ip in a.table ==> a.table[ip].port != 0
  }

  /** The address whose MAC and port the event needs, if it is one that needs both: the destination
      between private hosts, the owner of the public endpoint for incoming packets. */
  function NeedsPort(r: Router, ev: Event, now: real): Option<Ip>
    requires IsIp(ev)
  {
    var ip := ev.frame.payload;
    if ip.transport.Unsupported? then None
    else if IsPrivate(ip.srcip) then if IsPrivate(ip.dstip) then Some(ip.dstip) else None
    else if !ip.transport.Icmp? && ip.dstip != PUBLIC_IP then None
    else
      var owner := if ip.transport.Icmp? then Lookup(r.icmp, Key(ICMP, PUBLIC_IP, ip.transport.id), now).1
                   else Lookup(r.pat, Key(ProtoOf(ip.transport), ip.dstip, DstPort(ip.transport)), now).1;
      if owner == None then None else Some(owner.value.privateIp)
  }

  /** The event needs the port of an address that was learned at port 0. */
  predicate NeedsPortZero(r: Router, ev: Event, now: real)
    requires IsIp(ev)
  {
    var needs := NeedsPort(r, ev, now);
    needs.Some? && needs.value in r.arp.table && r.arp.table[needs.value].port == 0
  }

  /** Exactly when an IP event keeps queues and learned addresses apart: unless the address it needs
      was learned at port 0. */
  lemma StaysUnresolvedExact(r: Router, ev: Event, now: real)
    requires IsIp(ev) && Unresolved(r.arp)
    ensures Unresolved(HandleIp(r, ev, now).arp) <==> !NeedsPortZero(r, ev, now)
  {
    var r' := HandleIp(r, ev, now);
    var needs := NeedsPort(r, ev, now);
    if needs.Some? {
      assert r'.arp == if Located(r.arp, needs.value) then r.arp else Enqueue(r.arp, needs.value, ev);
      assert !Located(r.arp, needs.value) ==> needs.value in r'.arp.waiting;
    } else {
      var dst := ev.frame.payload.dstip;
      assert r'.arp == r.arp || (dst !in r.arp.table && r'.arp == Enqueue(r.arp, dst, ev));
    }
  }

  /** Some event of the list, at its turn, needs the port of an address that was learned at port 0. */
  ghost predicate SomeNeedsPortZero(r: Router, evs: seq<Event>, now: real)
    decreases |evs|
  {
    evs != [] &&
    if IsIp(evs[0]) then NeedsPortZero(r, evs[0], now) || SomeNeedsPortZero(HandleIp(r, evs[0], now), evs[1..], now)
    else SomeNeedsPortZero(r, evs[1..], now)
  }

  /** An address that is both waited for and known stays so while events are resumed. */
  lemma {:induction false} ResolvedStays(r: Router, evs: seq<Event>, now: real, ip: Ip)
    requires ip in r.arp.waiting && ip in r.arp.table
    ensures ip in Resume(r, evs, now).arp.waiting && ip in Resume(r, evs, now).arp.table
    decreases |evs|
  {
    if evs != [] {
      if IsIp(evs[0]) {
        HandleIpMoves(r, evs[0], now);
        ResolvedStays(HandleIp(r, evs[0], now), evs[1..], now, ip);
      } else {
        ResolvedStays(r, evs[1..], now, ip);
      }
    }
  }

  lemma {:induction false} ResumeUnresolvedExact(r: Router, evs: seq<Event>, now: real)
    requires Unresolved(r.arp)
    ensures Unresolved(Resume(r, evs, now).arp) <==> !SomeNeedsPortZero(r, evs, now)
    decreases |evs|
  {
    if evs != [] {
      if IsIp(evs[0]) {
        var r' := HandleIp(r, evs[0], now);
        StaysUnresolvedExact(r, evs[0], now);
        if Unresolved(r'.arp) {
          ResumeUnresolvedExact(r', evs[1..], now);
        } else {
          var ip :| ip in r'.arp.waiting && ip in r'.arp.table;
          ResolvedStays(r', evs[1..], now, ip);
        }
      } else {
        ResumeUnresolvedExact(r, evs[1..], now);
      }
    }
  }

  /** Exactly when an ARP message keeps them apart: unless one of the events that it resumes, at its
      turn, needs the port of an address that was learned at port 0. */
  lemma ArpStaysUnresolvedExact(r: Router, ev: Event, now: real)
    requires ev.frame.payload.Arp? && Unresolved(r.arp)
    ensures Unresolved(HandleArp(r, ev, now).arp) <==>
      !SomeNeedsPortZero(Learned(r, ev, now), Queued(r.arp, ev.frame.payload.protosrc), now)
  {
    ResumeUnresolvedExact(Learned(r, ev, now), Queued(r.arp, ev.frame.payload.protosrc), now);
  }

  lemma {:induction false} ResumeUnresolved(r: Router, evs: seq<Event>, now: real)
    requires Unresolved(r.arp) && PortsKnown(r.arp)
    ensures Unresolved(Resume(r, evs, now).arp) && Resume(r, evs, now).arp.table == r.arp.table
    decreases |evs|
  {
    if evs != [] {
      if IsIp(evs[0]) {
        StaysUnresolvedExact(r, evs[0], now);
        HandleIpMoves(r, evs[0], now);
        ResumeUnresolved(HandleIp(r, evs[0], now), evs[1..], now);
      } else {
        ResumeUnresolved(r, evs[1..], now);
      }
    }
  }

  /** After every event no address both waits and is known, given that switch ports count from 1;
      so resuming the events for an address never suspends one of them under it again. */
  lemma EventStaysUnresolved(r: Router, ev: Event, now: real)
    requires Unresolved(r.arp) && PortsKnown(r.arp) && (ev.frame.payload.Arp? ==> ev.port != 0)
    ensures var r' := HandlePacketIn(r, ev, now);
      && Unresolved(r'.arp) && PortsKnown(r'.arp)
      && (ev.frame.payload.Arp? ==>
            ev.frame.payload.protosrc in r'.arp.table && ev.frame.payload.protosrc !in r'.arp.waiting)
  {
    if ev.frame.payload.Arp? {
      ResumeUnresolved(Learned(r, ev, now), Queued(r.arp, ev.frame.payload.protosrc), now);
    } else if IsIp(ev) {
      StaysUnresolvedExact(r, ev, now);
      HandleIpMoves(r, ev, now);
    }
  }

  predicate RealPorts(evs: seq<Timed>) {
    forall i :: 0 <= i < |evs| && evs[i].ev.frame.payload.Arp? ==> evs[i].ev.port != 0
  }

  lemma {:induction false} WaitingIsUnresolved(r: Router, evs: seq<Timed>)
    requires Unresolved(r.arp) && PortsKnown(r.arp) && RealPorts(evs)
    ensures Unresolved(Run(r, evs).arp) && PortsKnown(Run(r, evs).arp)
    decreases |evs|
  {
    if evs != [] {
      EventStaysUnresolved(r, evs[0].ev, evs[0].at);
      WaitingIsUnresolved(HandlePacketIn(r, evs[0].ev, evs[0].at), evs[1..]);
    }
  }

  /** With a port of 0 it fails: an address learned there is known and still waited for. */
  lemma PortZeroFails(now: real)
    returns (learn: Event, send: Event)
    ensures learn.port == 0 && learn.frame.payload.Arp?
    ensures !Unresolved(HandlePacketIn(HandlePacketIn(NewRouter(), learn, now), send, now).arp)
  {
    var host: Ip := 0xC0A8_0102;
    learn := PacketIn(0, 0, Frame(2, PRIVATE_MAC, Arp(2, host, 2, PRIVATE_IP)));
    send := PacketIn(1, 3, Frame(3, PRIVATE_MAC, IpPkt(0xC0A8_0103, host, Udp(5, 6))));
    var r := HandlePacketIn(NewRouter(), learn, now);
    assert r.arp.table == map[host := ArpEntry(2, 0, now)];
    assert host in HandlePacketIn(r, send, now).arp.waiting;
  }

  /** With a port of 0 resuming fails too: an event that waits for an address is suspended under it again
      by the very ARP message that teaches it. */
  lemma PortZeroFailsOnResume(now: real)
    returns (send: Event, learn: Event)
    ensures learn.port == 0 && learn.frame.payload.Arp?
    ensures Unresolved(HandlePacketIn(NewRouter(), send, now).arp)
    ensures !Unresolved(HandlePacketIn(HandlePacketIn(NewRouter(), send, now), learn, now).arp)
  {
    var host: Ip := 0xC0A8_0102;
    send := PacketIn(0, 3, Frame(3, PRIVATE_MAC, IpPkt(0xC0A8_0103, host, Udp(5, 6))));
    learn := PacketIn(1, 0, Frame(2, PRIVATE_MAC, Arp(2, host, 2, PRIVATE_IP)));
    var r := HandlePacketIn(NewRouter(), send, now);
    assert r.arp == Enqueue(NewRouter().arp, host, send);
    assert Queued(r.arp, host) == [send];
    assert NeedsPortZero(Learned(r, learn, now), send, now);
    ArpStaysUnresolvedExact(r, learn, now);
  }
}
