/** The Stop-and-Wait protocol object, proved against the value operations of `SawModel`. */
module StopAndWait {
  import opened Common
  import opened Results
  import SawModel

  class StopAndWait {
    var opType: Bit
    var protocol: Bit
    var pending: Option<Packet>
    var waitingAck: bool
    var sendTime: real
    var seqNum: nat
    var nextExpected: nat

    function State(): SawModel.Saw
      reads this
    {
      SawModel.Saw(opType, protocol, pending, waitingAck, sendTime, seqNum, nextExpected)
    }

    constructor (opType: Bit)
      ensures State() == SawModel.Fresh(opType, STOP_AND_WAIT)
    {
      this.opType, protocol := opType, STOP_AND_WAIT;
      pending, waitingAck, sendTime := None, false, 0.0;
      seqNum, nextExpected := 1, 1;
    }

    method PushPayload(data: Bytes, now: real) returns (pkts: seq<Packet>)
      modifies this
      ensures State() == SawModel.Post(old(State()), TYPE_DATA, data, now)
      ensures pkts == [old(State()).Pkt(TYPE_DATA, data, old(seqNum))]
    {
      var pkt := Packet(TYPE_DATA, opType, protocol, data, seqNum);
      seqNum := seqNum + 1;
      pending := Some(pkt);
      waitingAck := true;
      sendTime := now;
      pkts := [pkt];
    }

    method GetTimedouts(now: real) returns (timedOut: seq<Packet>)
      modifies this
      ensures State() == SawModel.Refresh(old(State()), now)
      ensures timedOut == SawModel.Retransmissions(old(State()), now)
    {
      if pending.Some? && now > sendTime + ACK_TIMEOUT {
        sendTime := now;
        waitingAck := true;
        return [pending.value];
      }
      return [];
    }

    method Fin(now: real) returns (pkt: Packet)
      modifies this
      ensures State() == SawModel.Post(old(State()), TYPE_CLOSE, [], now)
      ensures pkt == old(State()).Pkt(TYPE_CLOSE, [], old(seqNum))
    {
      pkt := Packet(TYPE_CLOSE, opType, protocol, [], seqNum);
      pending := Some(pkt);
      waitingAck := true;
      sendTime := now;
      seqNum := seqNum + 1;
    }

    method HandlePacket(pkt: Packet) returns (ev: Option<Event>)
      modifies this
      ensures (State(), ev) == SawModel.HandlePacket(old(State()), pkt)
    {
      ev := None;
      if pkt.pktType == TYPE_ACK {
        if pkt.seqNum == 0 {
          return Some(AckInit(1));
        }
        if pending.Some? && pkt.seqNum == pending.value.seqNum {
          pending := None;
          waitingAck := false;
          return Some(Ack(1));
        }
      } else if pkt.pktType == TYPE_DATA {
        if pkt.seqNum == nextExpected {
          nextExpected := nextExpected + 1;
          return Some(Data(pkt.seqNum, [pkt.data]));
        } else if pkt.seqNum < nextExpected {
          return Some(Data(pkt.seqNum, []));
        }
      } else if pkt.pktType == TYPE_CLOSE {
        return Some(Close);
      } else if pkt.pktType == TYPE_CLOSE_ACK {
        return Some(CloseFin);
      } else if pkt.pktType == TYPE_SYN_ACK {
        return Some(SynAck);
      }
    }
  }
}
