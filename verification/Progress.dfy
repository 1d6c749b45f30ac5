/** From every reachable state some loss-free continuation completes the upload: no run can get
    stuck, because the base packet always waits in the window and resending it moves the base. */
module Progress {
  import opened Common
  import opened Results
  import opened Transfer
  import opened Safety
  import opened Upload
  import Arq

  predicate LossFree(steps: seq<Step>) {
    forall i :: 0 <= i < |steps| ==> !steps[i].LoseUp? && !steps[i].LoseDown?
  }

  /** What is left to do: numbers up to the FIN's that are not below the base. */
  function Left(s: System): int {
    |File(s)| + 2 - s.snd.sr.nextExpected
  }

  predicate Done(s: System) {
    !s.snd.open && !s.rcv.open && s.rcv.written == s.snd.content
  }

  /** A wait long enough for the timer of the base packet. */
  function Wait(s: System): real
    requires Inv(s)
  {
    var t := s.snd.sr.window[s.snd.sr.nextExpected].time;
    if t > s.now then t - s.now + 1.0 else 1.0
  }

  lemma RunTwo(s: System, x: Step, y: Step)
    ensures Run(s, [x, y]) == Apply(Apply(s, x), y)
  {
    assert [x, y][1..] == [y] && [y][1..] == [];
    assert Run(Apply(s, x), [y]) == Run(Apply(Apply(s, x), y), []);
  }

  function Resending(s: System): seq<Step>
    requires Inv(s)
  {
    [Tick(Wait(s)), Timeout]
  }

  /** Delivering a packet to the receiver, then its answer to the sender. */
  function Exchange(p: Packet, reply: Packet): seq<Step> {
    [ToReceiver(p), ToSender(reply)]
  }

  /** After that wait a timeout puts the base packet in flight. */
  lemma BaseResent(s: System)
    requires Inv(s) && s.snd.open
    ensures var t := Run(s, Resending(s)); var base := s.snd.sr.nextExpected;
      && t.snd.open && t.snd.sr.nextExpected == base && t.rcv == s.rcv
      && Genuine(s.snd, File(s), base) in t.up
  {
    var u := Apply(s, Tick(Wait(s)));
    var base := s.snd.sr.nextExpected;
    var p := s.snd.sr.window[base].pkt;
    Arq.OverdueExact(u.snd.sr.window, u.now, base, u.snd.sr.seqNum, p);
    assert p in Packets(Arq.Retransmissions(u.snd.sr, u.now));
    RunTwo(s, Tick(Wait(s)), Timeout);
  }

  /** Delivering a chunk's packet puts its acknowledgement in flight, whatever the receiver holds. */
  lemma ChunkAcknowledged(s: System, p: Packet)
    requires Inv(s) && p in s.up && p.pktType == TYPE_DATA
    ensures var t := Apply(s, ToReceiver(p));
      t.snd == s.snd && Arq.AckPacket(s.rcv.sr, p.seqNum) in t.down
  {
    assert p == Genuine(s.snd, File(s), p.seqNum);
    WindowSandwich(s);
    DataTaken(s.rcv, File(s), p);
  }

  lemma AckOpens(s: System, p: Packet, next: nat)
    requires Inv(s) && s.snd.open && p.pktType == TYPE_ACK
    requires Arq.HandleAck(s.snd.sr, p.seqNum).1 == Some(Ack(next))
    ensures DeliverDown(s, p).snd.open
    ensures DeliverDown(s, p).snd.sr.nextExpected == Arq.HandleAck(s.snd.sr, p.seqNum).0.nextExpected
  {
  }

  /** Delivering the base packet's acknowledgement moves the base. */
  lemma BaseMoves(s: System, p: Packet)
    requires Inv(s) && s.snd.open && p in s.down
    requires p == Arq.AckPacket(s.rcv.sr, s.snd.sr.nextExpected)
    ensures var t := Apply(s, ToSender(p));
      t.snd.open && t.snd.sr.nextExpected > s.snd.sr.nextExpected
  {
    var base := s.snd.sr.nextExpected;
    var sr := Arq.HandleAck(s.snd.sr, base).0;
    assert base !in sr.window;
    AckOpens(s, p, sr.nextExpected - base);
  }

  lemma BaseExchanged(s: System, p: Packet)
    requires Inv(s) && s.snd.open && p in s.up
    requires p.pktType == TYPE_DATA && p.seqNum == s.snd.sr.nextExpected
    ensures var t := Run(s, Exchange(p, Arq.AckPacket(s.rcv.sr, p.seqNum)));
      t.snd.open && t.snd.sr.nextExpected > s.snd.sr.nextExpected
  {
    var reply := Arq.AckPacket(s.rcv.sr, p.seqNum);
    ChunkAcknowledged(s, p);
    StepKeeps(s, ToReceiver(p));
    BaseMoves(Apply(s, ToReceiver(p)), reply);
    RunTwo(s, ToReceiver(p), ToSender(reply));
  }

  /** Delivering the FIN closes the receiver over the whole file; its answer closes the sender. */
  lemma FinExchanged(s: System, p: Packet)
    requires Inv(s) && s.snd.open && p in s.up && p.pktType == TYPE_CLOSE
    ensures Done(Run(s, Exchange(p, Arq.FinAckPacket(s.rcv.sr))))
  {
    var reply := Arq.FinAckPacket(s.rcv.sr);
    DeliverFinKeeps(s, p);
    var t := Apply(s, ToReceiver(p));
    assert reply in t.down && t.snd == s.snd && !t.rcv.open && t.rcv.written == s.rcv.written;
    RunTwo(s, ToReceiver(p), ToSender(reply));
  }

  /** One round on the base packet strictly lowers the measure. */
  lemma Round(s: System) returns (steps: seq<Step>)
    requires Inv(s) && s.snd.open && s.snd.sr.nextExpected <= |File(s)|
    ensures LossFree(steps) && |steps| == 4
    ensures Run(s, steps).snd.open && Left(Run(s, steps)) < Left(s)
  {
    BaseResent(s);
    RunKeeps(s, Resending(s));
    RunSameSession(s, Resending(s));
    var p := Genuine(s.snd, File(s), s.snd.sr.nextExpected);
    var t := Run(s, Resending(s));
    BaseExchanged(t, p);
    var exchange := Exchange(p, Arq.AckPacket(t.rcv.sr, p.seqNum));
    RunSameSession(t, exchange);
    RunAppend(s, Resending(s), exchange);
    steps := Resending(s) + exchange;
  }

  /** When only the FIN is left, one more round closes both ends over the complete file. */
  lemma LastRound(s: System) returns (steps: seq<Step>)
    requires Inv(s) && s.snd.open && s.snd.sr.nextExpected == |File(s)| + 1
    ensures LossFree(steps) && |steps| == 4 && Done(Run(s, steps))
  {
    BaseResent(s);
    RunKeeps(s, Resending(s));
    var p := Genuine(s.snd, File(s), s.snd.sr.nextExpected);
    var t := Run(s, Resending(s));
    FinExchanged(t, p);
    var exchange := Exchange(p, Arq.FinAckPacket(t.rcv.sr));
    RunAppend(s, Resending(s), exchange);
    steps := Resending(s) + exchange;
  }

  /** Every state has a completing continuation without losses, four steps for each number left. */
  lemma {:induction false} Completes(s: System) returns (steps: seq<Step>)
    requires Inv(s) && s.snd.open
    ensures LossFree(steps) && Done(Run(s, steps))
    ensures |steps| <= 4 * Left(s)
    decreases Left(s)
  {
    if s.snd.sr.nextExpected <= |File(s)| {
      var first := Round(s);
      RunKeeps(s, first);
      var rest := Completes(Run(s, first));
      RunAppend(s, first, rest);
      steps := first + rest;
    } else {
      steps := LastRound(s);
    }
  }

  /** No run gets stuck: from every reachable state the upload can still complete. */
  lemma ReachableCompletes(s: System, content: Bytes, windowSize: nat) returns (steps: seq<Step>)
    requires Reachable(s, content, windowSize)
    ensures LossFree(steps) && |steps| <= 4 * Left(s)
    ensures Done(Run(s, steps)) && Run(s, steps).rcv.written == content
  {
    ReachableInv(s, content, windowSize);
    if s.snd.open {
      steps := Completes(s);
      RunSameSession(s, steps);
    } else {
      steps := [];
      FinComplete(s);
    }
  }
}
