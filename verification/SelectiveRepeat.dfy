/** The Selective Repeat protocol object: dictionaries updated in place, loops as in the original,
    every method proved against the value operations of `Arq`. */
module SelectiveRepeat {
  import opened Common
  import opened Results
  import opened Chunking
  import Arq

  class SelectiveRepeat {
    var opType: Bit
    var protocol: Bit
    var windowSize: nat
    var chunkSize: Positive
    var window: map<nat, Arq.Entry>
    var buffer: map<nat, Bytes>
    var seqNum: nat
    var nextExpected: nat

    function State(): Arq.SR
      reads this
    {
      Arq.SR(opType, protocol, windowSize, chunkSize, window, buffer, seqNum, nextExpected)
    }

    predicate Valid()
      reads this
    {
      Arq.Valid(State())
    }

    constructor (opType: Bit, windowSize: nat := WINDOW_SIZE)
      ensures State() == Arq.Fresh(opType, SELECTIVE_REPEAT, windowSize)
      ensures Valid()
    {
      this.opType, this.protocol := opType, SELECTIVE_REPEAT;
      this.windowSize, chunkSize := windowSize, PAYLOAD_SIZE;
      window, buffer := map[], map[];
      seqNum, nextExpected := 1, 1;
    }

    /** One turn of the loop below: compose the packet and put it in the window. */
    method PushChunk(chunk: Bytes, now: real) returns (pkt: Packet)
      modifies `window, `seqNum
      ensures State() == Arq.PushOne(old(State()), chunk, now)
      ensures pkt == old(State()).Pkt(TYPE_DATA, chunk, old(seqNum))
    {
      pkt := Packet(TYPE_DATA, opType, protocol, chunk, seqNum);
      seqNum := seqNum + 1;
      window := window[pkt.seqNum := Arq.Entry(pkt, now)];
    }

    method PushPayload(data: Bytes, now: real) returns (pkts: seq<Packet>)
      modifies `window, `seqNum
      ensures State() == Arq.Push(old(State()), data, now)
      ensures pkts == Arq.PushPackets(old(State()), data)
    {
      ghost var start := State();
      ghost var rest := Arq.Cut(start, data, 0, start.seqNum);
      pkts := [];
      var i := 0;
      while i < |data|
        invariant 0 <= i <= |data|
        invariant State() == start.(window := window, seqNum := seqNum)
        invariant Arq.PushFrom(State(), data, i, now) == Arq.PushFrom(start, data, 0, now)
        invariant rest == Arq.Cut(start, data, i, seqNum)
        invariant pkts + rest == Arq.Cut(start, data, 0, start.seqNum)
      {
        var end := Min(i + chunkSize, |data|);
        var pkt := PushChunk(data[i..end], now);
        AppendOne(pkts, pkt, Arq.Cut(start, data, end, seqNum));
        pkts := pkts + [pkt];
        rest := Arq.Cut(start, data, end, seqNum);
        i := end;
      }
      Arq.PushLoop(start, data, now);
      assert pkts + [] == pkts;
    }

    method GetTimedouts(now: real) returns (timedOut: seq<Packet>)
      requires Arq.InRange(State())
      modifies `window
      ensures old(Valid()) ==> Valid()
      ensures State() == Arq.Refresh(old(State()), now)
      ensures timedOut == Arq.Retransmissions(old(State()), now)
    {
      timedOut := [];
      var k := nextExpected;
      ghost var end := if nextExpected <= seqNum then seqNum else nextExpected;
      // The dictionary is filled in increasing order of its keys, so its order is numeric order.
      while k < seqNum
        invariant nextExpected <= k <= end
        invariant window.Keys == old(window).Keys
        invariant forall j :: j in window && j >= k ==> window[j] == old(window)[j]
        invariant forall j :: j in window && j < k ==>
          window[j] == if Arq.TimedOut(old(window)[j], now) then old(window)[j].(time := now) else old(window)[j]
        invariant timedOut + Arq.Overdue(old(window), now, k, seqNum) == Arq.Retransmissions(old(State()), now)
      {
        if k in window && Arq.TimedOut(window[k], now) {
          timedOut := timedOut + [window[k].pkt];
          window := window[k := window[k].(time := now)];
        }
        k := k + 1;
      }
      assert timedOut + [] == timedOut;
    }

    method Ack(num: nat) returns (pkt: Packet)
      ensures pkt == Arq.AckPacket(State(), num)
    {
      pkt := Packet(TYPE_ACK, opType, protocol, [], num);
    }

    method FinAck() returns (pkt: Packet)
      ensures pkt == Arq.FinAckPacket(State())
    {
      pkt := Packet(TYPE_CLOSE_ACK, opType, protocol, [], 0);
    }

    method Fin(now: real) returns (pkt: Packet)
      modifies `window, `seqNum
      ensures old(Valid()) ==> Valid()
      ensures State() == Arq.Fin(old(State()), now)
      ensures pkt == Arq.FinPacket(old(State()))
    {
      pkt := Packet(TYPE_CLOSE, opType, protocol, [], seqNum);
      window := window[pkt.seqNum := Arq.Entry(pkt, now)];
      seqNum := seqNum + 1;
    }

    method HandleAck(pkt: Packet) returns (ev: Option<Event>)
      modifies `window, `nextExpected
      ensures old(Valid()) ==> Valid()
      ensures (State(), ev) == Arq.HandleAck(old(State()), pkt.seqNum)
    {
      if pkt.seqNum < nextExpected {
        if pkt.seqNum == 0 {
          return Some(AckInit(windowSize));
        }
        return None;
      }
      var nextPackages := 0;
      if pkt.seqNum in window {
        window := window - {pkt.seqNum};
      }
      assert window == old(window) - {pkt.seqNum};
      while nextExpected < seqNum && nextExpected !in window
        invariant window == old(window) - {pkt.seqNum}
        invariant old(nextExpected) <= nextExpected
        invariant nextPackages == nextExpected - old(nextExpected)
        invariant Arq.Advance(window, nextExpected, seqNum) == Arq.Advance(window, old(nextExpected), seqNum)
      {
        nextExpected := nextExpected + 1;
        nextPackages := nextPackages + 1;
      }
      assert nextExpected == Arq.Advance(window, old(nextExpected), seqNum);
      ev := Some(Event.Ack(nextPackages));
      if old(Valid()) {
        Arq.HandleAckValid(old(State()), pkt.seqNum);
      }
    }

    method HandleData(pkt: Packet) returns (ev: Option<Event>)
      modifies `buffer, `nextExpected
      ensures (State(), ev) == Arq.HandleData(old(State()), pkt.seqNum, pkt.data)
    {
      var num := pkt.seqNum;
      if num < nextExpected {
        return Some(Data(num, []));
      }
      if num >= nextExpected + windowSize {
        return None;
      }
      if num in buffer {
        return Some(Data(num, []));
      }
      buffer := buffer[num := pkt.data];
      ghost var full := buffer;
      ghost var first := nextExpected;
      ghost var rest := Arq.Run(full, first);
      var data := [];
      while nextExpected in buffer
        invariant nextExpected == first + |data|
        invariant buffer == Arq.DropRun(full, first, |data|)
        invariant rest == Arq.Run(buffer, nextExpected)
        invariant data + rest == Arq.Run(full, first)
        decreases buffer.Keys
      {
        AppendOne(data, buffer[nextExpected], rest[1..]);
        data := data + [buffer[nextExpected]];
        buffer := buffer - {nextExpected};
        nextExpected := nextExpected + 1;
        rest := rest[1..];
      }
      assert data + [] == data;
      ev := Some(Data(num, data));
    }

    method HandlePacket(pkt: Packet) returns (ev: Option<Event>)
      modifies `window, `buffer, `nextExpected
      ensures old(Valid()) && pkt.pktType != TYPE_DATA ==> Valid()
      ensures (State(), ev) == Arq.HandlePacket(old(State()), pkt)
    {
      if pkt.pktType == TYPE_ACK {
        ev := HandleAck(pkt);
      } else if pkt.pktType == TYPE_DATA {
        ev := HandleData(pkt);
      } else if pkt.pktType == TYPE_CLOSE {
        ev := Some(Close);
      } else if pkt.pktType == TYPE_CLOSE_ACK {
        ev := Some(CloseFin);
      } else if pkt.pktType == TYPE_SYN_ACK {
        ev := Some(SynAck);
      } else {
        ev := None;
      }
    }
  }
}
