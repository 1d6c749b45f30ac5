/** Stop-and-Wait as a value: what each operation of the protocol object does to its state. */
module SawModel {
  import opened Common
  import opened Results

  /** A single packet may be pending; `sendTime` matters only then. */
  datatype Saw = Saw(
    opType: Bit,
    protocol: Bit,
    pending: Option<Packet>,
    waitingAck: bool,
    sendTime: real,
    seqNum: nat,
    nextExpected: nat)
  {
    function Pkt(pktType: PktType, data: Bytes, num: nat): Packet {
      Packet(pktType, opType, protocol, data, num)
    }
  }

  function Fresh(opType: Bit, protocol: Bit): Saw {
    Saw(opType, protocol, None, false, 0.0, 1, 1)
  }

  /** Put a packet with the next number on the wire and wait for it. */
  function Post(s: Saw, pktType: PktType, data: Bytes, now: real): Saw {
    s.(pending := Some(s.Pkt(pktType, data, s.seqNum)), waitingAck := true, sendTime := now, seqNum := s.seqNum + 1)
  }

  predicate TimedOut(s: Saw, now: real) {
    s.pending.Some? && now > s.sendTime + ACK_TIMEOUT
  }

  function Retransmissions(s: Saw, now: real): seq<Packet> {
    if TimedOut(s, now) then [s.pending.value] else []
  }

  function Refresh(s: Saw, now: real): Saw {
    if TimedOut(s, now) then s.(sendTime := now, waitingAck := true) else s
  }

  function HandleAck(s: Saw, num: nat): (Saw, Option<Event>) {
    if num == 0 then (s, Some(AckInit(1)))
    else if s.pending.Some? && num == s.pending.value.seqNum then
      (s.(pending := None, waitingAck := false), Some(Ack(1)))
    else (s, None)
  }

  function HandleData(s: Saw, num: nat, data: Bytes): (Saw, Option<Event>) {
    if num == s.nextExpected then (s.(nextExpected := s.nextExpected + 1), Some(Data(num, [data])))
    else if num < s.nextExpected then (s, Some(Data(num, [])))
    else (s, None)
  }

  function HandlePacket(s: Saw, p: Packet): (Saw, Option<Event>) {
    if p.pktType == TYPE_ACK then HandleAck(s, p.seqNum)
    else if p.pktType == TYPE_DATA then HandleData(s, p.seqNum, p.data)
    else if p.pktType == TYPE_CLOSE then (s, Some(Close))
    else if p.pktType == TYPE_CLOSE_ACK then (s, Some(CloseFin))
    else if p.pktType == TYPE_SYN_ACK then (s, Some(SynAck))
    else (s, None)
  }
}
