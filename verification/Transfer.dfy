/** An upload over a network that loses, repeats and reorders packets, as a state machine, and
    the invariant that all its runs keep. */
module Transfer {
  import opened Common
  import opened Results
  import opened Chunking
  import opened Session
  import Arq

  /** `up` and `down` are the packets in flight towards the receiver and towards the sender.
      Delivery leaves a packet in flight, so it may arrive again; losing it removes it.
      `credit` (packets granted so far) and `fins` (FIN packets composed so far) are history. */
  datatype System = System(
    snd: Sender,
    rcv: Receiver,
    up: set<Packet>,
    down: set<Packet>,
    now: real,
    credit: nat,
    fins: nat)

  datatype Step =
    | Tick(dt: real)
    | Timeout
    | ToReceiver(p: Packet)
    | ToSender(p: Packet)
    | LoseUp(p: Packet)
    | LoseDown(p: Packet)

  function Packets(ps: seq<Packet>): set<Packet> {
    set p | p in ps
  }

  /** The sender spends credit for `next` packets. */
  function Spend(s: System, next: nat): System {
    var (snd, sent) := OnAck(s.snd, next, s.now);
    s.(snd := snd, up := s.up + Packets(sent), credit := s.credit + next,
       fins := s.fins + if ClientFins(s.snd, next, s.now) then 1 else 0)
  }

  function Resend(s: System): System {
    s.(snd := s.snd.(sr := Arq.Refresh(s.snd.sr, s.now)),
       up := s.up + Packets(Arq.Retransmissions(s.snd.sr, s.now)))
  }

  function DeliverUp(s: System, p: Packet): System {
    var (rcv, sent) := ReceiverTakes(s.rcv, p);
    s.(rcv := rcv, down := s.down + Packets(sent))
  }

  function DeliverDown(s: System, p: Packet): System {
    var (sr, ev) := Arq.HandlePacket(s.snd.sr, p);
    var s' := s.(snd := s.snd.(sr := sr));
    match ev
    case Some(Ack(next)) => Spend(s', next)
    case Some(CloseFin) => s'.(snd := s'.snd.(open := false))
    case _ => s'
  }

  /** The client stops taking packets and timeouts once its file is closed. */
  function Apply(s: System, step: Step): System {
    match step
    case Tick(dt) => if dt >= 0.0 then s.(now := s.now + dt) else s
    case Timeout => if s.snd.open then Resend(s) else s
    case ToReceiver(p) => if p in s.up then DeliverUp(s, p) else s
    case ToSender(p) => if p in s.down && s.snd.open then DeliverDown(s, p) else s
    case LoseUp(p) => s.(up := s.up - {p})
    case LoseDown(p) => s.(down := s.down - {p})
  }

  /** A run: the steps one after the other. */
  function Run(s: System, steps: seq<Step>): System
    decreases |steps|
  {
    if steps == [] then s else Run(Apply(s, steps[0]), steps[1..])
  }

  /** The transition of the sending end is the one its object is proved to make. */
  lemma DeliverDownIsSenderTakes(s: System, p: Packet)
    ensures var s' := DeliverDown(s, p); var (snd, sent) := SenderTakes(s.snd, p, s.now);
      s'.snd == snd && s'.up == s.up + Packets(sent) && s'.rcv == s.rcv && s'.down == s.down
  {
  }

  /** The handshake is done, the receiver's file is created, nothing has been granted yet. */
  function Handshaken(content: Bytes, opType: Bit, protocol: Bit, windowSize: nat, now: real): System {
    System(Sender(Arq.Fresh(opType, protocol, windowSize), content, 0, true),
           Receiver(Arq.Fresh(opType, protocol, windowSize), [], true, false),
           {}, {}, now, 0, 0)
  }

  /** An open session: the sender has spent the credit of one window that the handshake grants. */
  function Start(content: Bytes, opType: Bit, protocol: Bit, windowSize: nat, now: real): System {
    Spend(Handshaken(content, opType, protocol, windowSize, now), windowSize)
  }

  // ----- the invariant -----

  function File(s: System): seq<Bytes> {
    Chunks(s.snd.content, PAYLOAD_SIZE)
  }

  /** The packet that carries number k: a chunk of the file, or the FIN after the last chunk. */
  function Genuine(c: Sender, all: seq<Bytes>, k: nat): Packet {
    if 1 <= k <= |all| then c.sr.Pkt(TYPE_DATA, all[k - 1], k) else c.sr.Pkt(TYPE_CLOSE, [], k)
  }

  /** The sender is determined by its base and the set of numbers still in its window. */
  predicate SenderInv(c: Sender, all: seq<Bytes>) {
    var sr := c.sr; var w := sr.windowSize; var base := sr.nextExpected; var n := |all|;
    && all == Chunks(c.content, PAYLOAD_SIZE)
    && w >= 1 && sr.chunkSize == PAYLOAD_SIZE
    && 1 <= base <= n + 1
    && c.pos == Min((w + base - 1) * PAYLOAD_SIZE, |c.content|)
    && sr.seqNum == (if base == n + 1 then n + 2 else Min(w + base - 1, n) + 1)
    && base in sr.window
    && (forall k :: k in sr.window ==> base <= k < sr.seqNum && sr.window[k].pkt == Genuine(c, all, k))
  }

  predicate Received(r: Receiver, k: nat) {
    k < r.sr.nextExpected || k in r.sr.buffer
  }

  predicate ReceiverInv(r: Receiver, all: seq<Bytes>) {
    var next := r.sr.nextExpected;
    && 1 <= next <= |all| + 1
    && next !in r.sr.buffer
    && (forall k :: k in r.sr.buffer ==> next <= k <= |all| && r.sr.buffer[k] == all[k - 1])
    && r.written == Join(all[..next - 1])
    && !r.crashed
  }

  /** Both ends talk about the same session, and the receiver holds only numbers that were sent. */
  predicate Matched(c: Sender, r: Receiver) {
    && r.sr.windowSize == c.sr.windowSize && r.sr.opType == c.sr.opType && r.sr.protocol == c.sr.protocol
    && r.sr.nextExpected <= c.sr.seqNum
    && (forall k :: k in r.sr.buffer ==> k < c.sr.seqNum)
  }

  /** Acknowledgement truth: a number that was sent and left the window was received. */
  predicate AckTruth(c: Sender, r: Receiver) {
    forall k :: 1 <= k < c.sr.seqNum && k !in c.sr.window ==> Received(r, k)
  }

  /** Payload uniqueness: a packet towards the receiver carries its number's own chunk, or is the FIN. */
  predicate UpGenuine(c: Sender, all: seq<Bytes>, up: set<Packet>) {
    forall p :: p in up ==> 1 <= p.seqNum < c.sr.seqNum && p == Genuine(c, all, p.seqNum)
  }

  /** A reply in flight acknowledges a number that was received, or answers a handled FIN. */
  predicate GenuineReply(c: Sender, r: Receiver, n: nat, p: Packet) {
    || (1 <= p.seqNum <= n && p.seqNum < c.sr.seqNum && p == Arq.AckPacket(r.sr, p.seqNum) && Received(r, p.seqNum))
    || (p == Arq.FinAckPacket(r.sr) && !r.open)
  }

  predicate DownGenuine(c: Sender, r: Receiver, n: nat, down: set<Packet>) {
    forall p :: p in down ==> GenuineReply(c, r, n, p)
  }

  /** Closing goes from the sender's FIN to the receiver and back. */
  predicate CloseOrder(s: System) {
    && (!s.rcv.open ==> s.snd.sr.nextExpected == |File(s)| + 1)
    && (!s.snd.open ==> !s.rcv.open)
  }

  /** Credit is one window plus the advance of the base; one FIN is composed, when all is acknowledged. */
  predicate Accounts(s: System) {
    && s.credit == s.snd.sr.windowSize + s.snd.sr.nextExpected - 1
    && s.fins == (if s.snd.sr.nextExpected == |File(s)| + 1 then 1 else 0)
  }

  predicate Inv(s: System) {
    var all := File(s);
    && SenderInv(s.snd, all)
    && ReceiverInv(s.rcv, all)
    && Matched(s.snd, s.rcv)
    && AckTruth(s.snd, s.rcv)
    && UpGenuine(s.snd, all, s.up)
    && DownGenuine(s.snd, s.rcv, |all|, s.down)
    && CloseOrder(s)
    && Accounts(s)
  }
}
