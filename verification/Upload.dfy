/** What every run of an upload guarantees: end-to-end safety, complete closing, unique payloads,
    credit, and sequence numbers that fit the header. */
module Upload {
  import opened Common
  import opened Results
  import opened Chunking
  import opened Session
  import opened Transfer
  import opened Safety
  import SenderProofs
  import Arq

  ghost predicate ReachedBy(s: System, content: Bytes, windowSize: nat,
                            opType: Bit, protocol: Bit, now: real, steps: seq<Step>) {
    windowSize >= 1 && s == Run(Start(content, opType, protocol, windowSize, now), steps)
  }

  /** A state that some run of steps reaches from the start of a session. */
  ghost predicate Reachable(s: System, content: Bytes, windowSize: nat) {
    exists opType: Bit, protocol: Bit, now: real, steps: seq<Step> ::
      ReachedBy(s, content, windowSize, opType, protocol, now, steps)
  }

  lemma ReachableInv(s: System, content: Bytes, windowSize: nat)
    requires Reachable(s, content, windowSize)
    ensures Inv(s) && s.snd.content == content && s.snd.sr.windowSize == windowSize && windowSize >= 1
  {
    var opType: Bit, protocol: Bit, now: real, steps: seq<Step> :|
      ReachedBy(s, content, windowSize, opType, protocol, now, steps);
    var start := Start(content, opType, protocol, windowSize, now);
    StartInv(content, opType, protocol, windowSize, now);
    RunKeeps(start, steps);
    RunSameSession(start, steps);
    OnAckSameSession(Handshaken(content, opType, protocol, windowSize, now).snd, windowSize, now);
  }

  lemma PrefixWritten(s: System)
    requires Inv(s)
    ensures s.rcv.written <= s.snd.content
  {
    var all := File(s);
    JoinNext(all, s.rcv.sr.nextExpected - 1, |all|);
    assert all[..|all|] == all;
    JoinChunks(s.snd.content, PAYLOAD_SIZE);
  }

  /** End-to-end safety: what is written is always the file's first chunks, in order, each once. */
  lemma WrittenIsPrefix(s: System, content: Bytes, windowSize: nat)
    requires Reachable(s, content, windowSize)
    ensures s.rcv.sr.nextExpected >= 1 && s.rcv.sr.nextExpected - 1 <= |Chunks(content, PAYLOAD_SIZE)|
    ensures s.rcv.written == Join(Chunks(content, PAYLOAD_SIZE)[..s.rcv.sr.nextExpected - 1])
    ensures s.rcv.written <= content
    ensures !s.rcv.crashed
  {
    ReachableInv(s, content, windowSize);
    PrefixWritten(s);
  }

  lemma FinComplete(s: System)
    requires Inv(s) && s.snd.sr.nextExpected == |File(s)| + 1
    ensures s.snd.pos == |s.snd.content| && s.rcv.written == s.snd.content
  {
    WindowSandwich(s);
    assert File(s)[..|File(s)|] == File(s);
    JoinChunks(s.snd.content, PAYLOAD_SIZE);
    ChunkLengths(s.snd.content);
  }

  /** FIN completeness: one FIN at most, only when every chunk was read and acknowledged; the
      receiver closes, and then the sender, only over the complete file. */
  lemma ClosedIsComplete(s: System, content: Bytes, windowSize: nat)
    requires Reachable(s, content, windowSize)
    ensures s.fins <= 1
    ensures (exists p :: p in s.up && p.pktType == TYPE_CLOSE) ==> s.fins == 1
    ensures !s.rcv.open ==> s.fins == 1
    ensures !s.snd.open ==> !s.rcv.open
    ensures s.fins == 1 ==>
      && s.snd.pos == |content|
      && s.snd.sr.nextExpected == |Chunks(content, PAYLOAD_SIZE)| + 1
      && s.rcv.written == content
  {
    ReachableInv(s, content, windowSize);
    if s.snd.sr.nextExpected == |File(s)| + 1 {
      FinComplete(s);
    }
    forall p | p in s.up && p.pktType == TYPE_CLOSE ensures s.fins == 1 {
      assert p == Genuine(s.snd, File(s), p.seqNum);
    }
  }

  /** No genuine packet is ever refused as too far ahead, and one that arrives after the close is
      acknowledged without anything to write. */
  lemma GenuineDataTaken(s: System, content: Bytes, windowSize: nat, p: Packet)
    requires Reachable(s, content, windowSize)
    requires p in s.up && p.pktType == TYPE_DATA
    ensures Arq.HandleData(s.rcv.sr, p.seqNum, p.data).1.Some?
    ensures ReceiverTakes(s.rcv, p).1 == [Arq.AckPacket(s.rcv.sr, p.seqNum)]
    ensures !s.rcv.open ==> ReceiverTakes(s.rcv, p).0 == s.rcv
  {
    ReachableInv(s, content, windowSize);
    WindowSandwich(s);
    assert p == Genuine(s.snd, File(s), p.seqNum);
    DataTaken(s.rcv, File(s), p);
  }

  /** The receiver is never ahead of the sender nor a window behind it. */
  lemma Sandwich(s: System, content: Bytes, windowSize: nat)
    requires Reachable(s, content, windowSize)
    ensures s.snd.sr.nextExpected <= s.rcv.sr.nextExpected <= s.snd.sr.seqNum
    ensures s.snd.sr.seqNum <= s.snd.sr.nextExpected + windowSize
  {
    ReachableInv(s, content, windowSize);
    WindowSandwich(s);
  }

  /** Payload uniqueness over a whole run: two packets with one number, however far apart in time
      they are in flight and whether resent or not, are the same packet. */
  lemma OnePayloadPerNumber(s: System, content: Bytes, windowSize: nat, steps: seq<Step>, p: Packet, q: Packet)
    requires Reachable(s, content, windowSize)
    requires p in s.up && p.seqNum == q.seqNum
    requires q in Run(s, steps).up
    ensures p == q
    ensures p.pktType == TYPE_DATA ==>
      1 <= p.seqNum <= |Chunks(content, PAYLOAD_SIZE)| && p.data == Chunks(content, PAYLOAD_SIZE)[p.seqNum - 1]
  {
    ReachableInv(s, content, windowSize);
    RunKeeps(s, steps);
    RunSameSession(s, steps);
    var t := Run(s, steps);
    assert p == Genuine(s.snd, File(s), p.seqNum);
    assert q == Genuine(t.snd, File(t), q.seqNum);
  }

  /** Acknowledgement truth: a sent number that left the window was received. */
  lemma AcknowledgedWasReceived(s: System, content: Bytes, windowSize: nat, k: nat)
    requires Reachable(s, content, windowSize)
    requires 1 <= k < s.snd.sr.seqNum && k !in s.snd.sr.window
    ensures k < s.rcv.sr.nextExpected || k in s.rcv.sr.buffer
  {
    ReachableInv(s, content, windowSize);
    assert Received(s.rcv, k);
  }

  /** The system between the protocol object taking an acknowledgement and the session acting on it. */
  function AtAck(s: System, num: nat): System {
    s.(snd := s.snd.(sr := Arq.HandleAck(s.snd.sr, num).0))
  }

  /** Credit accounting: all credit granted, this acknowledgement's included, is one window plus the
      advance of the base; an acknowledgement grants nothing only if the base packet still waits. */
  lemma CreditAccounts(s: System, content: Bytes, windowSize: nat, p: Packet, next: nat)
    requires Reachable(s, content, windowSize)
    requires p in s.down && s.snd.open && p.pktType == TYPE_ACK
    requires Arq.HandleAck(s.snd.sr, p.seqNum).1 == Some(Ack(next))
    ensures s.credit + next == windowSize + AtAck(s, p.seqNum).snd.sr.nextExpected - 1
    ensures next == 0 ==> s.snd.sr.nextExpected in AtAck(s, p.seqNum).snd.sr.window
  {
    ReachableInv(s, content, windowSize);
    assert GenuineReply(s.snd, s.rcv, |File(s)|, p);
    Arq.CreditIsAdvance(s.snd.sr, p.seqNum);
  }

  /** What an acknowledgement makes the client send, in every reachable state: the packet of each other
      number whose timer is over, the packet of each number given out now, and nothing else. */
  lemma AckSendsExactly(s: System, content: Bytes, windowSize: nat, p: Packet, next: nat, q: Packet)
    requires Reachable(s, content, windowSize)
    requires p in s.down && s.snd.open && p.pktType == TYPE_ACK
    requires Arq.HandleAck(s.snd.sr, p.seqNum).1 == Some(Ack(next))
    ensures var t := Apply(s, ToSender(p)); var w := s.snd.sr.window; var k := q.seqNum;
      var overdue := k in w && k != p.seqNum && Arq.TimedOut(w[k], s.now);
      var granted := s.snd.sr.seqNum <= k < t.snd.sr.seqNum;
      q in t.up <==> q in s.up || ((overdue || granted) && q == Genuine(s.snd, File(s), k))
  {
    ReachableInv(s, content, windowSize);
    assert GenuineReply(s.snd, s.rcv, |File(s)|, p);
    AckMidway(s, p.seqNum);
    var m := AtAck(s, p.seqNum);
    assert m.snd.sr.window == s.snd.sr.window - {p.seqNum};
    SenderProofs.OnAckSendsExactly(m.snd, File(s), s.credit, next, s.now, q);
    assert Apply(s, ToSender(p)) == Spend(m, next);
  }

  /** And a timeout: the packet of each number whose timer is over, and nothing else. */
  lemma TimeoutSendsExactly(s: System, content: Bytes, windowSize: nat, q: Packet)
    requires Reachable(s, content, windowSize) && s.snd.open
    ensures var t := Apply(s, Timeout); var w := s.snd.sr.window; var k := q.seqNum;
      q in t.up <==> q in s.up || (k in w && Arq.TimedOut(w[k], s.now) && q == Genuine(s.snd, File(s), k))
  {
    ReachableInv(s, content, windowSize);
    Arq.OverdueExact(s.snd.sr.window, s.now, s.snd.sr.nextExpected, s.snd.sr.seqNum, q);
  }

  lemma GuardsAgreeMidway(s: System, next: nat)
    requires MidInv(s) && s.credit + next == s.snd.sr.windowSize + s.snd.sr.nextExpected - 1
    ensures ClientFins(s.snd, next, s.now) <==> ServerFins(s.snd, next, s.now)
  {
    SenderProofs.FinsWhenDone(s.snd, File(s), s.credit, next, s.now);
  }

  /** The client's and the server's tests for sending FIN agree at every acknowledgement. */
  lemma GuardsAgree(s: System, content: Bytes, windowSize: nat, p: Packet, next: nat)
    requires Reachable(s, content, windowSize)
    requires p in s.down && s.snd.open && p.pktType == TYPE_ACK
    requires Arq.HandleAck(s.snd.sr, p.seqNum).1 == Some(Ack(next))
    ensures ClientFins(AtAck(s, p.seqNum).snd, next, s.now) <==> ServerFins(AtAck(s, p.seqNum).snd, next, s.now)
  {
    ReachableInv(s, content, windowSize);
    assert GenuineReply(s.snd, s.rcv, |File(s)|, p);
    AckMidway(s, p.seqNum);
    GuardsAgreeMidway(AtAck(s, p.seqNum), next);
  }

  lemma SameWhenNothingOverdue(c: Sender, next: nat, now: real)
    requires ClientFins(c, next, now) <==> ServerFins(c, next, now)
    ensures ServerOnAck(c, next, now) ==
      if Arq.Retransmissions(c.sr, now) == [] then Ok(OnAck(c, next, now)) else Err(NoDestination)
  {
    assert Arq.PushPackets(Arq.Refresh(c.sr, now), ReadFor(c, next)) == Arq.PushPackets(c.sr, ReadFor(c, next));
    assert [] + Arq.PushPackets(c.sr, ReadFor(c, next)) == Arq.PushPackets(c.sr, ReadFor(c, next));
  }

  /** At every acknowledgement the server's handler does what the client's does, except that it raises
      exactly when some packet is overdue at that moment. */
  lemma ServerActsAlike(s: System, content: Bytes, windowSize: nat, p: Packet, next: nat)
    requires Reachable(s, content, windowSize)
    requires p in s.down && s.snd.open && p.pktType == TYPE_ACK
    requires Arq.HandleAck(s.snd.sr, p.seqNum).1 == Some(Ack(next))
    ensures var c := AtAck(s, p.seqNum).snd;
      ServerOnAck(c, next, s.now) ==
        if Arq.Retransmissions(c.sr, s.now) == [] then Ok(OnAck(c, next, s.now)) else Err(NoDestination)
  {
    GuardsAgree(s, content, windowSize, p, next);
    SameWhenNothingOverdue(AtAck(s, p.seqNum).snd, next, s.now);
  }

  lemma HandshakenMidway(content: Bytes, opType: Bit, protocol: Bit, windowSize: nat, now: real)
    requires windowSize >= 1
    ensures var c := Handshaken(content, opType, protocol, windowSize, now).snd;
      SenderProofs.Midway(c, Chunks(content, PAYLOAD_SIZE), 0)
  {
  }

  /** They agree at the grant that opens the session too: both hold exactly for an empty file. */
  lemma GuardsAgreeAtStart(content: Bytes, opType: Bit, protocol: Bit, windowSize: nat, now: real)
    requires windowSize >= 1
    ensures var c := Handshaken(content, opType, protocol, windowSize, now).snd;
      (ClientFins(c, windowSize, now) <==> content == []) && (ServerFins(c, windowSize, now) <==> content == [])
  {
    var c := Handshaken(content, opType, protocol, windowSize, now).snd;
    HandshakenMidway(content, opType, protocol, windowSize, now);
    SenderProofs.FinsWhenDone(c, Chunks(content, PAYLOAD_SIZE), 0, windowSize, now);
    SenderProofs.EmptyChunks(content);
  }

  /** The acknowledgement of number 0, which opens a download, grants what an open session starts with. */
  lemma OpeningAckGrants(content: Bytes, opType: Bit, protocol: Bit, windowSize: nat, now: real)
    ensures var h := Handshaken(content, opType, protocol, windowSize, now);
      var (sr, ev) := Arq.HandleAck(h.snd.sr, 0);
      && sr == h.snd.sr && ev.Some? && ev.value.AckInit?
      && Start(content, opType, protocol, windowSize, now) == Spend(h, ev.value.next)
  {
  }

  /** At that grant nothing is waiting yet, so the server's handler does what the client's does. */
  lemma ServerStartsAlike(content: Bytes, opType: Bit, protocol: Bit, windowSize: nat, now: real)
    requires windowSize >= 1
    ensures var c := Handshaken(content, opType, protocol, windowSize, now).snd;
      ServerOnAck(c, windowSize, now) == Ok(OnAck(c, windowSize, now))
  {
    var c := Handshaken(content, opType, protocol, windowSize, now).snd;
    GuardsAgreeAtStart(content, opType, protocol, windowSize, now);
    SameWhenNothingOverdue(c, windowSize, now);
  }

  /** The first packets of a session: chunk 1 is in flight, chunk 2 waits since the start. */
  lemma FirstPackets(content: Bytes, opType: Bit, protocol: Bit, windowSize: nat, now: real)
    requires windowSize >= 2 && |content| > PAYLOAD_SIZE
    ensures var s := Start(content, opType, protocol, windowSize, now); var all := Chunks(content, PAYLOAD_SIZE);
      && |all| >= 2 && s.snd.sr.nextExpected == 1 && s.snd.sr.seqNum > 2
      && s.snd.sr.Pkt(TYPE_DATA, all[0], 1) in s.up
      && 2 in s.snd.sr.window && s.snd.sr.window[2].time == now
  {
    var c := Handshaken(content, opType, protocol, windowSize, now).snd;
    var all := Chunks(content, PAYLOAD_SIZE);
    ChunkLengths(content);
    HandshakenMidway(content, opType, protocol, windowSize, now);
    SenderProofs.FinsWhenDone(c, all, 0, windowSize, now);
    SenderProofs.PushedNumbers(c, all, 0, windowSize, now);
    SenderProofs.ReadsNewChunks(c, all, 0, windowSize);
    var chunks := SenderProofs.NewChunks(all, 0, windowSize);
    Arq.EnterExact(Arq.Refresh(c.sr, now).window, c.sr, chunks, 1, now, 2);
    assert Arq.PushPackets(Arq.Refresh(c.sr, now), ReadFor(c, windowSize))[0] == c.sr.Pkt(TYPE_DATA, all[0], 1);
  }

  /** Chunk 1 arrives and is acknowledged; then a second passes. */
  lemma FirstExchange(content: Bytes, opType: Bit, protocol: Bit, windowSize: nat, now: real)
    requires windowSize >= 2 && |content| > PAYLOAD_SIZE
    ensures var start := Start(content, opType, protocol, windowSize, now); var all := Chunks(content, PAYLOAD_SIZE);
      && |all| >= 2
      && var s := Run(start, [ToReceiver(start.snd.sr.Pkt(TYPE_DATA, all[0], 1)), Tick(1.0)]);
      && s.snd == start.snd && s.snd.open && s.now == now + 1.0 && Arq.AckPacket(start.rcv.sr, 1) in s.down
  {
    var start := Start(content, opType, protocol, windowSize, now);
    FirstPackets(content, opType, protocol, windowSize, now);
    StartInv(content, opType, protocol, windowSize, now);
    WindowSandwich(start);
    OnAckSameSession(Handshaken(content, opType, protocol, windowSize, now).snd, windowSize, now);
    var data := start.snd.sr.Pkt(TYPE_DATA, Chunks(content, PAYLOAD_SIZE)[0], 1);
    DataTaken(start.rcv, Chunks(content, PAYLOAD_SIZE), data);
    var steps := [ToReceiver(data), Tick(1.0)];
    assert steps[1..] == [Tick(1.0)] && steps[1..][1..] == [];
    var after := Apply(start, ToReceiver(data));
    assert Run(after, [Tick(1.0)]) == Run(Apply(after, Tick(1.0)), []);
  }

  lemma OverdueAtAck(s: System)
    requires s.snd.sr.nextExpected == 1 && s.snd.sr.seqNum > 2
    requires 2 in s.snd.sr.window && Arq.TimedOut(s.snd.sr.window[2], s.now)
    ensures Arq.HandleAck(s.snd.sr, 1).1 == Some(Ack(1))
    ensures ServerOnAck(AtAck(s, 1).snd, 1, s.now) == Err(NoDestination)
  {
    var window := s.snd.sr.window - {1};
    assert Arq.Advance(window, 1, s.snd.sr.seqNum) == 2;
    Arq.OverdueExact(window, s.now, 2, s.snd.sr.seqNum, window[2].pkt);
  }

  /** That the server's handler raises does happen: for every file of more than one payload and every
      window of at least two, when the first acknowledgement arrives a second after the start. */
  lemma RaiseReached(content: Bytes, opType: Bit, protocol: Bit, windowSize: nat, now: real)
    returns (s: System, p: Packet)
    requires windowSize >= 2 && |content| > PAYLOAD_SIZE
    ensures Reachable(s, content, windowSize)
    ensures p in s.down && s.snd.open && p.pktType == TYPE_ACK
    ensures Arq.HandleAck(s.snd.sr, p.seqNum).1 == Some(Ack(1))
    ensures ServerOnAck(AtAck(s, p.seqNum).snd, 1, s.now) == Err(NoDestination)
  {
    var start := Start(content, opType, protocol, windowSize, now);
    var data := start.snd.sr.Pkt(TYPE_DATA, Chunks(content, PAYLOAD_SIZE)[0], 1);
    FirstPackets(content, opType, protocol, windowSize, now);
    FirstExchange(content, opType, protocol, windowSize, now);
    var steps := [ToReceiver(data), Tick(1.0)];
    s := Run(start, steps);
    assert ReachedBy(s, content, windowSize, opType, protocol, now, steps);
    p := Arq.AckPacket(start.rcv.sr, 1);
    OverdueAtAck(s);
  }

  lemma UpNumberFits(s: System, p: Packet)
    requires Inv(s) && |s.snd.content| <= MAX_FILE_SIZE && p in s.up
    ensures p.seqNum < 0x1_0000_0000 && |p.data| <= PAYLOAD_SIZE
  {
    ChunkLengths(s.snd.content);
    assert p == Genuine(s.snd, File(s), p.seqNum);
    if p.seqNum <= |File(s)| {
      ChunksFit(s.snd.content, File(s)[p.seqNum - 1]);
    }
  }

  lemma DownNumberFits(s: System, p: Packet)
    requires Inv(s) && |s.snd.content| <= MAX_FILE_SIZE && p in s.down
    ensures p.seqNum < 0x1_0000_0000 && p.data == []
  {
    ChunkLengths(s.snd.content);
    assert GenuineReply(s.snd, s.rcv, |File(s)|, p);
  }

  /** Up to the largest file the server accepts, every number in flight fits the header's 32 bits. */
  lemma NumbersFit(s: System, content: Bytes, windowSize: nat, p: Packet)
    requires Reachable(s, content, windowSize) && |content| <= MAX_FILE_SIZE
    requires p in s.up || p in s.down
    ensures p.seqNum < 0x1_0000_0000 && |p.data| <= PAYLOAD_SIZE
  {
    ReachableInv(s, content, windowSize);
    if p in s.up {
      UpNumberFits(s, p);
    } else {
      DownNumberFits(s, p);
    }
  }
}
