/** The two ends of an upload: the client that reads a file and sends it, and the server that
    writes what arrives. First as values, then as objects whose methods are proved against them. */
module Session {
  import opened Common
  import opened Results
  import Arq
  import Chunking
  import SelectiveRepeat

  /** A sending end: protocol state, file content, read cursor, and whether the file is open. */
  datatype Sender = Sender(sr: Arq.SR, content: Bytes, pos: nat, open: bool)

  /** A receiving end. `crashed` records a write to a file that is not open. */
  datatype Receiver = Receiver(sr: Arq.SR, written: Bytes, open: bool, crashed: bool)

  // ----- the sending end -----

  /** What a read of `size` bytes returns; nothing at or past the end of the file. */
  function Read(c: Sender, size: nat): Bytes {
    if c.pos <= |c.content| then c.content[c.pos..Min(c.pos + size, |c.content|)] else []
  }

  /** The bytes that credit for `next` packets makes the sender read. */
  function ReadFor(c: Sender, next: nat): Bytes {
    Read(c, next * PAYLOAD_SIZE)
  }

  /** State once the overdue packets are resent and the newly read bytes are pushed. */
  function AfterPush(c: Sender, next: nat, now: real): Sender {
    c.(sr := Arq.Push(Arq.Refresh(c.sr, now), ReadFor(c, next), now),
       pos := c.pos + |ReadFor(c, next)|)
  }

  /** The client's test for sending FIN: nothing was read and nothing is waiting. */
  predicate ClientFins(c: Sender, next: nat, now: real) {
    ReadFor(c, next) == [] && AfterPush(c, next, now).sr.window == map[]
  }

  /** The server's test in the same place: the cursor is at the end and nothing is waiting. */
  predicate ServerFins(c: Sender, next: nat, now: real) {
    var d := AfterPush(c, next, now);
    d.pos >= |d.content| && d.sr.window == map[]
  }

  /** `Client.handle_ack` on an event that grants `next` packets: the new state and what is sent. */
  function OnAck(c: Sender, next: nat, now: real): (Sender, seq<Packet>) {
    var d := AfterPush(c, next, now);
    var sent := Arq.Retransmissions(c.sr, now) + Arq.PushPackets(Arq.Refresh(c.sr, now), ReadFor(c, next));
    if ClientFins(c, next, now) then (d.(sr := Arq.Fin(d.sr, now)), sent + [Arq.FinPacket(d.sr)])
    else (d, sent)
  }

  /** What the server's handler raises: its resends have no address to go to. */
  datatype SocketError = NoDestination

  /** `Server._handle_ack`, the same handler on the server's side of a download: it resends through
      an unconnected socket, so any overdue packet raises, and it has its own test for sending FIN. */
  function ServerOnAck(c: Sender, next: nat, now: real): Result<(Sender, seq<Packet>), SocketError> {
    if Arq.Retransmissions(c.sr, now) != [] then Err(NoDestination)
    else
      var d := AfterPush(c, next, now);
      var sent := Arq.PushPackets(c.sr, ReadFor(c, next));
      if ServerFins(c, next, now) then Ok((d.(sr := Arq.Fin(d.sr, now)), sent + [Arq.FinPacket(d.sr)]))
      else Ok((d, sent))
  }

  /** A packet reaches the sender. */
  function SenderTakes(c: Sender, p: Packet, now: real): (Sender, seq<Packet>) {
    var (sr, ev) := Arq.HandlePacket(c.sr, p);
    var c' := c.(sr := sr);
    match ev
    case Some(Ack(next)) => OnAck(c', next, now)
    case Some(CloseFin) => (c'.(open := false), [])
    case _ => (c', [])
  }

  // ----- the receiving end -----

  /** The server's `_handle_data`: acknowledge, then write the run of payloads if there is one. */
  function OnData(r: Receiver, ack: nat, data: seq<Bytes>): (Receiver, seq<Packet>) {
    var r' := if data == [] then r
              else if r.open then r.(written := r.written + Chunking.Join(data))
              else r.(crashed := true);
    (r', [Arq.AckPacket(r.sr, ack)])
  }

  /** A packet reaches the receiver. */
  function ReceiverTakes(r: Receiver, p: Packet): (Receiver, seq<Packet>) {
    var (sr, ev) := Arq.HandlePacket(r.sr, p);
    var r' := r.(sr := sr);
    match ev
    case Some(Data(ack, data)) => OnData(r', ack, data)
    case Some(Close) => (r'.(open := false), [Arq.FinAckPacket(r'.sr)])
    case _ => (r', [])
  }

  // ----- the objects -----

  /** The client's side of an upload. */
  class Client {
    const protocol: SelectiveRepeat.SelectiveRepeat
    const content: Bytes
    var pos: nat
    var open: bool

    function State(): Sender
      reads this, protocol
    {
      Sender(protocol.State(), content, pos, open)
    }

    predicate Valid()
      reads this, protocol
    {
      Arq.Valid(protocol.State())
    }

    constructor (content: Bytes)
      ensures Valid() && fresh(protocol)
      ensures State() == Sender(Arq.Fresh(OP_TYPE_UPLOAD, SELECTIVE_REPEAT, WINDOW_SIZE), content, 0, true)
    {
      protocol := new SelectiveRepeat.SelectiveRepeat(OP_TYPE_UPLOAD);
      this.content := content;
      pos, open := 0, true;
    }

    method ReadFile(size: nat) returns (data: Bytes)
      modifies `pos
      ensures data == Read(old(State()), size) && pos == old(pos) + |data|
    {
      data := [];
      if pos <= |content| {
        data := content[pos..Min(pos + size, |content|)];
      }
      pos := pos + |data|;
    }

    method HandleAck(next: nat, now: real) returns (sent: seq<Packet>)
      requires Valid()
      modifies `pos, protocol
      ensures Valid()
      ensures (State(), sent) == OnAck(old(State()), next, now)
    {
      sent := protocol.GetTimedouts(now);
      var packageWindow := ReadFile(next * PAYLOAD_SIZE);
      if packageWindow != [] {
        ghost var before := protocol.State();
        var pkts := protocol.PushPayload(packageWindow, now);
        Arq.PushValid(before, packageWindow, now);
        sent := sent + pkts;
      } else {
        Arq.PushNothing(protocol.State(), now);
        assert sent + [] == sent;
      }
      if packageWindow == [] && protocol.window == map[] {
        var fin := protocol.Fin(now);
        sent := sent + [fin];
      }
    }

    /** A timeout of the socket: resend what is overdue. */
    method Idle(now: real) returns (sent: seq<Packet>)
      requires Valid()
      modifies protocol
      ensures Valid()
      ensures State() == old(State()).(sr := Arq.Refresh(old(State()).sr, now))
      ensures sent == Arq.Retransmissions(old(State()).sr, now)
    {
      sent := protocol.GetTimedouts(now);
    }

    method Take(pkt: Packet, now: real) returns (sent: seq<Packet>)
      requires Valid()
      modifies `pos, `open, protocol
      ensures pkt.pktType != TYPE_DATA ==> Valid()
      ensures (State(), sent) == SenderTakes(old(State()), pkt, now)
    {
      sent := [];
      var ev := protocol.HandlePacket(pkt);
      match ev
      case Some(Ack(next)) =>
        sent := HandleAck(next, now);
      case Some(CloseFin) =>
        open := false;
      case _ =>
    }
  }

  /** The server's side of an upload. `written` is what the file holds. */
  class Server {
    const protocol: SelectiveRepeat.SelectiveRepeat
    var written: Bytes
    var open: bool
    var crashed: bool

    function State(): Receiver
      reads this, protocol
    {
      Receiver(protocol.State(), written, open, crashed)
    }

    /** A receiving end sends no packet that could wait for an acknowledgement. */
    predicate Valid()
      reads this, protocol
    {
      protocol.window == map[]
    }

    constructor ()
      ensures fresh(protocol) && Valid()
      ensures State() == Receiver(Arq.Fresh(OP_TYPE_UPLOAD, SELECTIVE_REPEAT, WINDOW_SIZE), [], true, false)
    {
      protocol := new SelectiveRepeat.SelectiveRepeat(OP_TYPE_UPLOAD);
      written, open, crashed := [], true, false;
    }

    method HandleData(ack: nat, data: seq<Bytes>) returns (sent: seq<Packet>)
      modifies `written, `crashed
      ensures (State(), sent) == OnData(old(State()), ack, data)
    {
      var pkt := protocol.Ack(ack);
      sent := [pkt];
      if data != [] {
        if open {
          written := written + Chunking.Join(data);
        } else {
          crashed := true;
        }
      }
    }

    method HandleClose() returns (sent: seq<Packet>)
      modifies `open
      ensures (State(), sent) == (old(State()).(open := false), [Arq.FinAckPacket(old(State()).sr)])
    {
      var pkt := protocol.FinAck();
      sent := [pkt];
      open := false;
    }

    /** An empty queue: the receiving end has nothing to resend. */
    method Idle(now: real) returns (sent: seq<Packet>)
      requires Valid()
      modifies protocol
      ensures Valid() && State() == old(State())
      ensures sent == []
    {
      sent := protocol.GetTimedouts(now);
      Arq.NothingWaiting(old(State()).sr, now);
    }

    method Take(pkt: Packet) returns (sent: seq<Packet>)
      modifies this, protocol
      ensures old(Valid()) ==> Valid()
      ensures (State(), sent) == ReceiverTakes(old(State()), pkt)
    {
      sent := [];
      var ev := protocol.HandlePacket(pkt);
      match ev
      case Some(Data(ack, data)) =>
        sent := HandleData(ack, data);
      case Some(Close) =>
        sent := HandleClose();
      case _ =>
    }
  }
}
