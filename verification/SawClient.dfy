/** The client's side of an upload when its protocol object is Stop-and-Wait. */
module SawClient {
  import opened Common
  import opened Results
  import SawModel
  import SawTransfer
  import StopAndWait

  class Client {
    const protocol: StopAndWait.StopAndWait
    const content: Bytes
    var pos: nat
    var open: bool

    function State(): SawTransfer.Sender
      reads this, protocol
    {
      SawTransfer.Sender(protocol.State(), content, pos, open)
    }

    constructor (content: Bytes)
      ensures fresh(protocol)
      ensures State() == SawTransfer.Sender(SawModel.Fresh(OP_TYPE_UPLOAD, STOP_AND_WAIT), content, 0, true)
    {
      protocol := new StopAndWait.StopAndWait(OP_TYPE_UPLOAD);
      this.content := content;
      pos, open := 0, true;
    }

    method HandleAck(next: nat, now: real) returns (sent: seq<Packet>)
      modifies `pos, protocol
      ensures (State(), sent) == SawTransfer.OnAck(old(State()), next, now)
    {
      sent := protocol.GetTimedouts(now);
      var packageWindow := [];
      if pos <= |content| {
        packageWindow := content[pos..Min(pos + next * PAYLOAD_SIZE, |content|)];
      }
      pos := pos + |packageWindow|;
      if packageWindow != [] {
        var pkts := protocol.PushPayload(packageWindow, now);
        sent := sent + pkts;
      } else {
        assert sent + [] == sent;
      }
      if packageWindow == [] && !protocol.waitingAck {
        var fin := protocol.Fin(now);
        sent := sent + [fin];
      }
    }

    /** A timeout of the socket: resend what is overdue. */
    method Idle(now: real) returns (sent: seq<Packet>)
      modifies protocol
      ensures State() == old(State()).(saw := SawModel.Refresh(old(State()).saw, now))
      ensures sent == SawModel.Retransmissions(old(State()).saw, now)
    {
      sent := protocol.GetTimedouts(now);
    }

    /** A packet reaches the client. */
    method Take(pkt: Packet, now: real) returns (sent: seq<Packet>)
      modifies `pos, `open, protocol
      ensures (State(), sent) == SawTransfer.SenderTakes(old(State()), pkt, now)
    {
      sent := [];
      var ev := protocol.HandlePacket(pkt);
      match ev
      case Some(Ack(next)) =>
        sent := HandleAck(next, now);
      case Some(CloseFin) =>
        open := false;
      case _ =>
    }
  }
}
