/** Constants, bytes, packets and result types shared by the file-transfer modules. */
module Common {
  type byte = x: int | 0 <= x < 256

  type Bytes = seq<byte>

  /** The header gives three bits to the packet type and one each to operation and protocol. */
  type PktType = x: int | 0 <= x < 8
  type Bit = x: int | 0 <= x < 2

  type Positive = x: int | x > 0 witness 1

  const TYPE_SYN_ACK: PktType := 1
  const TYPE_ACK: PktType := 2
  const TYPE_DATA: PktType := 3
  const TYPE_CLOSE: PktType := 4
  const TYPE_CLOSE_ACK: PktType := 6

  const STOP_AND_WAIT: Bit := 0
  const SELECTIVE_REPEAT: Bit := 1

  const OP_TYPE_UPLOAD: Bit := 1

  const PAYLOAD_SIZE := 1400
  const WINDOW_SIZE := 20
  const MAX_FILE_SIZE := 107374182400
  const ACK_TIMEOUT := 0.5

  datatype Packet = Packet(pktType: PktType, opType: Bit, protocol: Bit, data: Bytes, seqNum: nat)

  /** What a protocol object reports to its session. `Data` covers both the event that carries
      a list of payloads and the one that only asks for an acknowledgement (an empty list). */
  datatype Event =
    | AckInit(next: nat)
    | Ack(next: nat)
    | Data(ack: nat, data: seq<Bytes>)
    | SynAck
    | Close
    | CloseFin

  function Min(a: nat, b: nat): nat {
    if a < b then a else b
  }
}
