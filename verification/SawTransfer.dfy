/** An upload over Stop-and-Wait, step for step the same as one over Selective Repeat with a
    window of one packet, so that everything proved of the latter holds of it. */
module SawTransfer {
  import opened Common
  import opened Results
  import opened Chunking
  import opened SawModel
  import Arq
  import Session
  import T = Transfer
  import Safety
  import Upload
  import Progress

  datatype Sender = Sender(saw: Saw, content: Bytes, pos: nat, open: bool)

  datatype Receiver = Receiver(saw: Saw, written: Bytes, open: bool, crashed: bool)

  datatype System = System(
    snd: Sender, rcv: Receiver, up: set<Packet>, down: set<Packet>, now: real, credit: nat, fins: nat)

  // ----- the two ends: the same handlers, over the other protocol object -----

  function ReadFor(c: Sender, next: nat): Bytes {
    if c.pos <= |c.content| then c.content[c.pos..Min(c.pos + next * PAYLOAD_SIZE, |c.content|)] else []
  }

  function AfterPush(c: Sender, next: nat, now: real): Sender {
    var saw := Refresh(c.saw, now);
    var data := ReadFor(c, next);
    c.(saw := if data == [] then saw else Post(saw, TYPE_DATA, data, now), pos := c.pos + |data|)
  }

  /** The window of this protocol object is always empty; only `_waiting_ack` guards the FIN. */
  predicate ClientFins(c: Sender, next: nat, now: real) {
    ReadFor(c, next) == [] && !AfterPush(c, next, now).saw.waitingAck
  }

  predicate ServerFins(c: Sender, next: nat, now: real) {
    var d := AfterPush(c, next, now);
    d.pos >= |d.content| && !d.saw.waitingAck
  }

  function OnAck(c: Sender, next: nat, now: real): (Sender, seq<Packet>) {
    var d := AfterPush(c, next, now);
    var data := ReadFor(c, next);
    var sent := Retransmissions(c.saw, now)
              + (if data == [] then [] else [c.saw.Pkt(TYPE_DATA, data, c.saw.seqNum)]);
    if ClientFins(c, next, now) then
      (d.(saw := Post(d.saw, TYPE_CLOSE, [], now)), sent + [d.saw.Pkt(TYPE_CLOSE, [], d.saw.seqNum)])
    else (d, sent)
  }

  /** The server's handler on its side of a download: it resends through an unconnected socket and has
      its own test for sending FIN. */
  function ServerOnAck(c: Sender, next: nat, now: real): Result<(Sender, seq<Packet>), Session.SocketError> {
    if Retransmissions(c.saw, now) != [] then Err(Session.NoDestination)
    else
      var d := AfterPush(c, next, now);
      var data := ReadFor(c, next);
      var sent := if data == [] then [] else [c.saw.Pkt(TYPE_DATA, data, c.saw.seqNum)];
      if ServerFins(c, next, now) then
        Ok((d.(saw := Post(d.saw, TYPE_CLOSE, [], now)), sent + [d.saw.Pkt(TYPE_CLOSE, [], d.saw.seqNum)]))
      else Ok((d, sent))
  }

  /** A packet reaches the sender. */
  function SenderTakes(c: Sender, p: Packet, now: real): (Sender, seq<Packet>) {
    var (saw, ev) := HandlePacket(c.saw, p);
    var c' := c.(saw := saw);
    match ev
    case Some(Ack(next)) => OnAck(c', next, now)
    case Some(CloseFin) => (c'.(open := false), [])
    case _ => (c', [])
  }

  function ReceiverTakes(r: Receiver, p: Packet): (Receiver, seq<Packet>) {
    var (saw, ev) := HandlePacket(r.saw, p);
    var r' := r.(saw := saw);
    match ev
    case Some(Data(ack, data)) =>
      (if data == [] then r'
       else if r'.open then r'.(written := r'.written + Join(data))
       else r'.(crashed := true),
       [saw.Pkt(TYPE_ACK, [], ack)])
    case Some(Close) => (r'.(open := false), [saw.Pkt(TYPE_CLOSE_ACK, [], 0)])
    case _ => (r', [])
  }

  // ----- the system -----

  function Spend(s: System, next: nat): System {
    var (snd, sent) := OnAck(s.snd, next, s.now);
    s.(snd := snd, up := s.up + T.Packets(sent), credit := s.credit + next,
       fins := s.fins + if ClientFins(s.snd, next, s.now) then 1 else 0)
  }

  function Resend(s: System): System {
    s.(snd := s.snd.(saw := Refresh(s.snd.saw, s.now)),
       up := s.up + T.Packets(Retransmissions(s.snd.saw, s.now)))
  }

  function DeliverUp(s: System, p: Packet): System {
    var (rcv, sent) := ReceiverTakes(s.rcv, p);
    s.(rcv := rcv, down := s.down + T.Packets(sent))
  }

  function DeliverDown(s: System, p: Packet): System {
    var (saw, ev) := HandlePacket(s.snd.saw, p);
    var s' := s.(snd := s.snd.(saw := saw));
    match ev
    case Some(Ack(next)) => Spend(s', next)
    case Some(CloseFin) => s'.(snd := s'.snd.(open := false))
    case _ => s'
  }

  lemma DeliverDownIsSenderTakes(s: System, p: Packet)
    ensures var s' := DeliverDown(s, p); var (snd, sent) := SenderTakes(s.snd, p, s.now);
      s'.snd == snd && s'.up == s.up + T.Packets(sent) && s'.rcv == s.rcv && s'.down == s.down
  {
  }

  function Apply(s: System, step: T.Step): System {
    match step
    case Tick(dt) => if dt >= 0.0 then s.(now := s.now + dt) else s
    case Timeout => if s.snd.open then Resend(s) else s
    case ToReceiver(p) => if p in s.up then DeliverUp(s, p) else s
    case ToSender(p) => if p in s.down && s.snd.open then DeliverDown(s, p) else s
    case LoseUp(p) => s.(up := s.up - {p})
    case LoseDown(p) => s.(down := s.down - {p})
  }

  function Run(s: System, steps: seq<T.Step>): System
    decreases |steps|
  {
    if steps == [] then s else Run(Apply(s, steps[0]), steps[1..])
  }

  function Handshaken(content: Bytes, opType: Bit, protocol: Bit, now: real): System {
    System(Sender(Fresh(opType, protocol), content, 0, true),
           Receiver(Fresh(opType, protocol), [], true, false), {}, {}, now, 0, 0)
  }

  function Start(content: Bytes, opType: Bit, protocol: Bit, now: real): System {
    Spend(Handshaken(content, opType, protocol, now), 1)
  }

  // ----- the abstraction -----

  /** A pending packet is a window of one; with nothing pending the base has caught up. */
  function AbsSending(s: Saw): Arq.SR {
    match s.pending
    case None =>
      Arq.SR(s.opType, s.protocol, 1, PAYLOAD_SIZE, map[], map[], s.seqNum, s.seqNum)
    case Some(p) =>
      Arq.SR(s.opType, s.protocol, 1, PAYLOAD_SIZE,
             map[p.seqNum := Arq.Entry(p, s.sendTime)], map[], s.seqNum, p.seqNum)
  }

  function AbsReceiving(s: Saw): Arq.SR {
    Arq.SR(s.opType, s.protocol, 1, PAYLOAD_SIZE, map[], map[], 1, s.nextExpected)
  }

  function AbsSender(c: Sender): Session.Sender {
    Session.Sender(AbsSending(c.saw), c.content, c.pos, c.open)
  }

  function AbsReceiver(r: Receiver): Session.Receiver {
    Session.Receiver(AbsReceiving(r.saw), r.written, r.open, r.crashed)
  }

  function Abs(s: System): T.System {
    T.System(AbsSender(s.snd), AbsReceiver(s.rcv), s.up, s.down, s.now, s.credit, s.fins)
  }

  /** What the sending object keeps: it waits exactly for its pending packet, the last one composed. */
  predicate SawInv(s: Saw) {
    && (s.waitingAck <==> s.pending.Some?)
    && (s.pending.Some? ==> s.pending.value.seqNum + 1 == s.seqNum)
  }

  // ----- operation by operation -----

  /** The receivers report the same event for every packet, and the SR buffer stays empty. */
  lemma ReceiversAgree(s: Saw, p: Packet)
    requires p.pktType != TYPE_ACK
    ensures Arq.HandlePacket(AbsReceiving(s), p)
         == (AbsReceiving(HandlePacket(s, p).0), HandlePacket(s, p).1)
  {
    if p.pktType == TYPE_DATA && p.seqNum == s.nextExpected {
      var buffer: map<nat, Bytes> := map[][p.seqNum := p.data];
      var rest := buffer - {p.seqNum};
      assert Arq.Run(rest, p.seqNum + 1) == [];
      assert Arq.Run(buffer, p.seqNum) == [p.data] + Arq.Run(rest, p.seqNum + 1) == [p.data];
      assert Arq.DropRun(buffer, p.seqNum, 1) == map[];
    }
  }

  function SawEvents(s: Saw, ps: seq<Packet>): seq<Option<Event>>
    decreases |ps|
  {
    if ps == [] then [] else [HandlePacket(s, ps[0]).1] + SawEvents(HandlePacket(s, ps[0]).0, ps[1..])
  }

  function SrEvents(s: Arq.SR, ps: seq<Packet>): seq<Option<Event>>
    decreases |ps|
  {
    if ps == [] then [] else [Arq.HandlePacket(s, ps[0]).1] + SrEvents(Arq.HandlePacket(s, ps[0]).0, ps[1..])
  }

  /** Fed any sequence of packets, the two receivers report the same sequence of events. */
  lemma {:induction false} ReceiversAgreeOnSequences(s: Saw, ps: seq<Packet>)
    requires forall p :: p in ps ==> p.pktType != TYPE_ACK
    ensures SrEvents(AbsReceiving(s), ps) == SawEvents(s, ps)
    decreases |ps|
  {
    if ps != [] {
      ReceiversAgree(s, ps[0]);
      ReceiversAgreeOnSequences(HandlePacket(s, ps[0]).0, ps[1..]);
    }
  }

  lemma RetransmissionsAgree(s: Saw, now: real)
    requires SawInv(s)
    ensures Arq.Retransmissions(AbsSending(s), now) == Retransmissions(s, now)
    ensures Arq.Refresh(AbsSending(s), now) == AbsSending(Refresh(s, now))
    ensures SawInv(Refresh(s, now))
  {
    if s.pending.Some? {
      var w := AbsSending(s).window;
      assert Arq.Overdue(w, now, s.seqNum, s.seqNum) == [];
    }
  }

  /** The senders agree on every acknowledgement of a number that was sent. */
  lemma AcksAgree(s: Saw, num: nat)
    requires SawInv(s) && 1 <= num < s.seqNum
    ensures Arq.HandleAck(AbsSending(s), num) == (AbsSending(HandleAck(s, num).0), HandleAck(s, num).1)
    ensures SawInv(HandleAck(s, num).0)
    ensures HandleAck(s, num).1 != None ==> HandleAck(s, num).1 == Some(Ack(1)) && HandleAck(s, num).0.pending == None
  {
    if s.pending.Some? && num == s.pending.value.seqNum {
      assert AbsSending(s).window - {num} == map[];
      assert Arq.Advance(map[], num + 1, s.seqNum) == s.seqNum;
    }
  }

  /** And on the acknowledgement of number 0, which opens a download: the credit of a window of one. */
  lemma OpeningAcksAgree(s: Saw)
    requires SawInv(s) && s.seqNum >= 1 && (s.pending.Some? ==> s.pending.value.seqNum >= 1)
    ensures Arq.HandleAck(AbsSending(s), 0) == (AbsSending(HandleAck(s, 0).0), HandleAck(s, 0).1)
    ensures HandleAck(s, 0).0 == s && HandleAck(s, 0).1.Some? && HandleAck(s, 0).1.value.AckInit?
  {
  }

  lemma OneChunk(data: Bytes)
    requires 0 < |data| <= PAYLOAD_SIZE
    ensures Chunks(data, PAYLOAD_SIZE) == [data]
  {
    assert data[..|data|] == data && Chunks(data[|data|..], PAYLOAD_SIZE) == [];
  }

  /** With nothing pending, pushing one payload fills the window of one. */
  lemma PushesAgree(s: Saw, data: Bytes, now: real)
    requires s.pending == None && 0 < |data| <= PAYLOAD_SIZE
    ensures Arq.Push(AbsSending(s), data, now) == AbsSending(Post(s, TYPE_DATA, data, now))
    ensures Arq.PushPackets(AbsSending(s), data) == [s.Pkt(TYPE_DATA, data, s.seqNum)]
  {
    OneChunk(data);
    var pkt := s.Pkt(TYPE_DATA, data, s.seqNum);
    assert Arq.PushPackets(AbsSending(s), data) == [pkt];
    assert [pkt][1..] == [];
    assert Arq.Enter(map[], [pkt], now) == map[s.seqNum := Arq.Entry(pkt, now)];
  }

  // ----- step by step -----

  lemma AfterPushAgrees(c: Sender, now: real)
    requires SawInv(c.saw) && c.saw.pending == None
    ensures Session.AfterPush(AbsSender(c), 1, now) == AbsSender(AfterPush(c, 1, now))
    ensures SawInv(AfterPush(c, 1, now).saw)
  {
    var data := ReadFor(c, 1);
    RetransmissionsAgree(c.saw, now);
    if data == [] {
      Arq.PushNothing(AbsSending(c.saw), now);
    } else {
      PushesAgree(c.saw, data, now);
    }
  }

  /** The tests for sending FIN agree: nothing waits exactly when the window of one is empty. */
  lemma GuardsAgree(c: Sender, now: real)
    requires SawInv(c.saw) && c.saw.pending == None
    ensures ClientFins(c, 1, now) <==> Session.ClientFins(AbsSender(c), 1, now)
    ensures ServerFins(c, 1, now) <==> Session.ServerFins(AbsSender(c), 1, now)
  {
    AfterPushAgrees(c, now);
    var d := AfterPush(c, 1, now);
    if d.saw.pending.Some? {
      assert d.saw.pending.value.seqNum in AbsSender(d).sr.window;
    }
  }

  lemma FinAgrees(s: Saw, now: real)
    requires SawInv(s)
    ensures s.pending == None ==> Arq.Fin(AbsSending(s), now) == AbsSending(Post(s, TYPE_CLOSE, [], now))
    ensures Arq.FinPacket(AbsSending(s)) == s.Pkt(TYPE_CLOSE, [], s.seqNum)
  {
  }

  lemma OnAckAgrees(c: Sender, now: real)
    requires SawInv(c.saw) && c.saw.pending == None
    ensures Session.OnAck(AbsSender(c), 1, now) == (AbsSender(OnAck(c, 1, now).0), OnAck(c, 1, now).1)
    ensures SawInv(OnAck(c, 1, now).0.saw)
  {
    var data := ReadFor(c, 1);
    RetransmissionsAgree(c.saw, now);
    AfterPushAgrees(c, now);
    GuardsAgree(c, now);
    if data == [] {
      Arq.PushNothing(AbsSending(c.saw), now);
    } else {
      PushesAgree(c.saw, data, now);
    }
    FinAgrees(AfterPush(c, 1, now).saw, now);
  }

  lemma SpendAgrees(s: System)
    requires SawInv(s.snd.saw) && s.snd.saw.pending == None
    ensures T.Spend(Abs(s), 1) == Abs(Spend(s, 1)) && SawInv(Spend(s, 1).snd.saw)
  {
    OnAckAgrees(s.snd, s.now);
    GuardsAgree(s.snd, s.now);
  }

  lemma DeliverUpAgrees(s: System, p: Packet)
    requires p.pktType != TYPE_ACK
    ensures T.DeliverUp(Abs(s), p) == Abs(DeliverUp(s, p))
  {
    ReceiversAgree(s.rcv.saw, p);
  }

  lemma DeliverDownAgrees(s: System, p: Packet)
    requires T.Inv(Abs(s)) && SawInv(s.snd.saw) && p in s.down
    ensures T.DeliverDown(Abs(s), p) == Abs(DeliverDown(s, p)) && SawInv(DeliverDown(s, p).snd.saw)
  {
    assert T.GenuineReply(AbsSender(s.snd), AbsReceiver(s.rcv), |T.File(Abs(s))|, p);
    if p.pktType == TYPE_ACK {
      AcksAgree(s.snd.saw, p.seqNum);
      var (saw, ev) := HandleAck(s.snd.saw, p.seqNum);
      if ev != None {
        SpendAgrees(s.(snd := s.snd.(saw := saw)));
      }
    }
  }

  /** Every step of the Stop-and-Wait system is the same step of the abstract one. */
  lemma StepAgrees(s: System, step: T.Step)
    requires T.Inv(Abs(s)) && SawInv(s.snd.saw)
    ensures T.Apply(Abs(s), step) == Abs(Apply(s, step)) && SawInv(Apply(s, step).snd.saw)
  {
    match step
    case Timeout => RetransmissionsAgree(s.snd.saw, s.now);
    case ToReceiver(p) =>
      if p in s.up {
        assert p == T.Genuine(AbsSender(s.snd), T.File(Abs(s)), p.seqNum);
        DeliverUpAgrees(s, p);
      }
    case ToSender(p) =>
      if p in s.down {
        DeliverDownAgrees(s, p);
      }
    case _ =>
  }

  lemma {:induction false} RunAgrees(s: System, steps: seq<T.Step>)
    requires T.Inv(Abs(s)) && SawInv(s.snd.saw)
    ensures T.Run(Abs(s), steps) == Abs(Run(s, steps)) && SawInv(Run(s, steps).snd.saw)
    decreases |steps|
  {
    if steps != [] {
      StepAgrees(s, steps[0]);
      Safety.StepKeeps(Abs(s), steps[0]);
      RunAgrees(Apply(s, steps[0]), steps[1..]);
    }
  }

  /** Stop-and-Wait is Selective Repeat with a window of one: whole runs coincide. */
  lemma RunIsWindowOne(content: Bytes, opType: Bit, protocol: Bit, now: real, steps: seq<T.Step>)
    ensures Abs(Run(Start(content, opType, protocol, now), steps))
         == T.Run(T.Start(content, opType, protocol, 1, now), steps)
    ensures Upload.Reachable(Abs(Run(Start(content, opType, protocol, now), steps)), content, 1)
    ensures SawInv(Run(Start(content, opType, protocol, now), steps).snd.saw)
  {
    var h := Handshaken(content, opType, protocol, now);
    SpendAgrees(h);
    assert Abs(h) == T.Handshaken(content, opType, protocol, 1, now);
    Safety.StartInv(content, opType, protocol, 1, now);
    RunAgrees(Start(content, opType, protocol, now), steps);
    var s := Run(Start(content, opType, protocol, now), steps);
    assert Upload.ReachedBy(Abs(s), content, 1, opType, protocol, now, steps);
  }

  /** The system between the protocol object taking an acknowledgement and the session acting on it. */
  function AtAck(s: System, num: nat): System {
    s.(snd := s.snd.(saw := HandleAck(s.snd.saw, num).0))
  }

  lemma AckSettles(s: System, content: Bytes, p: Packet, next: nat)
    requires SawInv(s.snd.saw) && Upload.Reachable(Abs(s), content, 1)
    requires p in s.down && p.pktType == TYPE_ACK && HandleAck(s.snd.saw, p.seqNum).1 == Some(Ack(next))
    ensures next == 1
    ensures Arq.HandleAck(AbsSending(s.snd.saw), p.seqNum).1 == Some(Ack(1))
    ensures AtAck(s, p.seqNum).snd.saw.pending == None && SawInv(AtAck(s, p.seqNum).snd.saw)
    ensures Abs(AtAck(s, p.seqNum)) == Upload.AtAck(Abs(s), p.seqNum)
  {
    Upload.ReachableInv(Abs(s), content, 1);
    assert T.GenuineReply(AbsSender(s.snd), AbsReceiver(s.rcv), |T.File(Abs(s))|, p);
    AcksAgree(s.snd.saw, p.seqNum);
  }

  /** Over Stop-and-Wait too the client's and the server's tests for sending FIN agree at every
      acknowledgement of every run. */
  lemma ClientAndServerAgree(content: Bytes, opType: Bit, protocol: Bit, now: real,
        steps: seq<T.Step>, p: Packet, next: nat)
    requires var s := Run(Start(content, opType, protocol, now), steps);
      p in s.down && s.snd.open && p.pktType == TYPE_ACK && HandleAck(s.snd.saw, p.seqNum).1 == Some(Ack(next))
    ensures var s := Run(Start(content, opType, protocol, now), steps); var c := AtAck(s, p.seqNum).snd;
      ClientFins(c, next, s.now) <==> ServerFins(c, next, s.now)
  {
    var s := Run(Start(content, opType, protocol, now), steps);
    RunIsWindowOne(content, opType, protocol, now, steps);
    AckSettles(s, content, p, next);
    GuardsAgree(AtAck(s, p.seqNum).snd, s.now);
    Upload.GuardsAgree(Abs(s), content, 1, p, 1);
  }

  /** And at the grant that opens the session: both hold exactly for an empty file. */
  lemma ClientAndServerAgreeAtStart(content: Bytes, opType: Bit, protocol: Bit, now: real)
    ensures var c := Handshaken(content, opType, protocol, now).snd;
      (ClientFins(c, 1, now) <==> content == []) && (ServerFins(c, 1, now) <==> content == [])
  {
    var h := Handshaken(content, opType, protocol, now);
    GuardsAgree(h.snd, now);
    assert Abs(h) == T.Handshaken(content, opType, protocol, 1, now);
    Upload.GuardsAgreeAtStart(content, opType, protocol, 1, now);
  }

  lemma SameWhenNothingPending(c: Sender, next: nat, now: real)
    requires c.saw.pending == None && (ClientFins(c, next, now) <==> ServerFins(c, next, now))
    ensures ServerOnAck(c, next, now) == Ok(OnAck(c, next, now))
  {
    var data := ReadFor(c, next);
    var sent := if data == [] then [] else [c.saw.Pkt(TYPE_DATA, data, c.saw.seqNum)];
    assert [] + sent == sent;
  }

  /** So over Stop-and-Wait the server's handler always does what the client's does: nothing is pending
      when it runs, so it has nothing to resend and never raises. */
  lemma ServerActsAlike(content: Bytes, opType: Bit, protocol: Bit, now: real,
        steps: seq<T.Step>, p: Packet, next: nat)
    requires var s := Run(Start(content, opType, protocol, now), steps);
      p in s.down && s.snd.open && p.pktType == TYPE_ACK && HandleAck(s.snd.saw, p.seqNum).1 == Some(Ack(next))
    ensures var s := Run(Start(content, opType, protocol, now), steps); var c := AtAck(s, p.seqNum).snd;
      ServerOnAck(c, next, s.now) == Ok(OnAck(c, next, s.now))
  {
    var s := Run(Start(content, opType, protocol, now), steps);
    RunIsWindowOne(content, opType, protocol, now, steps);
    AckSettles(s, content, p, next);
    ClientAndServerAgree(content, opType, protocol, now, steps, p, next);
    SameWhenNothingPending(AtAck(s, p.seqNum).snd, next, s.now);
  }

  /** The same at the grant that opens the session. */
  lemma ServerStartsAlike(content: Bytes, opType: Bit, protocol: Bit, now: real)
    ensures var c := Handshaken(content, opType, protocol, now).snd;
      ServerOnAck(c, 1, now) == Ok(OnAck(c, 1, now))
  {
    ClientAndServerAgreeAtStart(content, opType, protocol, now);
    SameWhenNothingPending(Handshaken(content, opType, protocol, now).snd, 1, now);
  }

  /** So end-to-end safety and FIN completeness carry over to every Stop-and-Wait run. */
  lemma SafeAndComplete(content: Bytes, opType: Bit, protocol: Bit, now: real, steps: seq<T.Step>)
    ensures var s := Run(Start(content, opType, protocol, now), steps);
      && s.rcv.written <= content && !s.rcv.crashed
      && s.fins <= 1
      && (!s.snd.open ==> !s.rcv.open)
      && (!s.rcv.open ==> s.rcv.written == content)
  {
    var s := Run(Start(content, opType, protocol, now), steps);
    RunIsWindowOne(content, opType, protocol, now, steps);
    Upload.WrittenIsPrefix(Abs(s), content, 1);
    Upload.ClosedIsComplete(Abs(s), content, 1);
  }

  lemma {:induction false} RunAppends(s: System, a: seq<T.Step>, b: seq<T.Step>)
    ensures Run(s, a + b) == Run(Run(s, a), b)
    decreases |a|
  {
    if a == [] {
      assert a + b == b;
    } else {
      assert (a + b)[1..] == a[1..] + b;
      RunAppends(Apply(s, a[0]), a[1..], b);
    }
  }

  /** And so does progress: a loss-free continuation completes the transfer. */
  lemma Completes(content: Bytes, opType: Bit, protocol: Bit, now: real, steps: seq<T.Step>)
    returns (more: seq<T.Step>)
    ensures Progress.LossFree(more)
    ensures var s := Run(Run(Start(content, opType, protocol, now), steps), more);
      !s.snd.open && !s.rcv.open && s.rcv.written == content
  {
    var start := Start(content, opType, protocol, now);
    var s := Run(start, steps);
    RunIsWindowOne(content, opType, protocol, now, steps);
    more := Progress.ReachableCompletes(Abs(s), content, 1);
    SpendAgrees(Handshaken(content, opType, protocol, now));
    assert Abs(Handshaken(content, opType, protocol, now)) == T.Handshaken(content, opType, protocol, 1, now);
    RunAppends(start, steps, more);
    RunIsWindowOne(content, opType, protocol, now, steps + more);
    Safety.RunAppend(T.Start(content, opType, protocol, 1, now), steps, more);
  }
}
