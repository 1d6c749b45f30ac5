/** Every step keeps the transfer invariant, so every run does; what that says about the file. */
module Safety {
  import opened Common
  import opened Results
  import opened Chunking
  import opened Session
  import opened Transfer
  import opened SenderProofs
  import Arq

  // ----- spending credit -----

  /** The invariant between taking an acknowledgement and spending its credit. */
  predicate MidInv(s: System) {
    var all := File(s);
    && Midway(s.snd, all, s.credit)
    && ReceiverInv(s.rcv, all)
    && Matched(s.snd, s.rcv)
    && AckTruth(s.snd, s.rcv)
    && UpGenuine(s.snd, all, s.up)
    && DownGenuine(s.snd, s.rcv, |all|, s.down)
    && s.rcv.open && s.snd.open && s.fins == 0
  }

  lemma SpendUp(s: System, next: nat)
    requires MidInv(s)
    requires s.credit + next == s.snd.sr.windowSize + s.snd.sr.nextExpected - 1
    ensures UpGenuine(Spend(s, next).snd, File(s), Spend(s, next).up)
  {
    var (snd, sent) := OnAck(s.snd, next, s.now);
    OnAckWindow(s.snd, File(s), s.credit, next, s.now, 0);
    forall p | p in s.up + Packets(sent)
      ensures 1 <= p.seqNum < snd.sr.seqNum && p == Genuine(snd, File(s), p.seqNum)
    {
      if p !in s.up {
        OnAckSends(s.snd, File(s), s.credit, next, s.now, p);
      }
    }
  }

  lemma SpendTruth(s: System, next: nat)
    requires MidInv(s)
    requires s.credit + next == s.snd.sr.windowSize + s.snd.sr.nextExpected - 1
    ensures AckTruth(Spend(s, next).snd, s.rcv)
  {
    var snd := OnAck(s.snd, next, s.now).0;
    forall k | 1 <= k < snd.sr.seqNum && k !in snd.sr.window ensures Received(s.rcv, k) {
      OnAckWindow(s.snd, File(s), s.credit, next, s.now, k);
    }
  }

  lemma SpendKeeps(s: System, next: nat)
    requires MidInv(s)
    requires s.credit + next == s.snd.sr.windowSize + s.snd.sr.nextExpected - 1
    ensures Inv(Spend(s, next))
  {
    OnAckKeeps(s.snd, File(s), s.credit, next, s.now);
    FinsWhenDone(s.snd, File(s), s.credit, next, s.now);
    OnAckWindow(s.snd, File(s), s.credit, next, s.now, 0);
    SpendUp(s, next);
    SpendTruth(s, next);
  }

  // ----- deliveries to the sender -----

  lemma AckMidway(s: System, num: nat)
    requires Inv(s) && s.snd.open
    requires s.snd.sr.nextExpected <= num < s.snd.sr.seqNum && num <= |File(s)| && Received(s.rcv, num)
    ensures MidInv(s.(snd := s.snd.(sr := Arq.HandleAck(s.snd.sr, num).0)))
  {
  }

  lemma AckKeeps(s: System, p: Packet, next: nat)
    requires Inv(s) && p in s.down && s.snd.open && p.pktType == TYPE_ACK
    requires Arq.HandleAck(s.snd.sr, p.seqNum).1 == Some(Ack(next))
    ensures Inv(DeliverDown(s, p))
  {
    assert GenuineReply(s.snd, s.rcv, |File(s)|, p);
    AckMidway(s, p.seqNum);
    SpendKeeps(s.(snd := s.snd.(sr := Arq.HandleAck(s.snd.sr, p.seqNum).0)), next);
  }

  lemma FinAckKeeps(s: System, p: Packet)
    requires Inv(s) && p in s.down && s.snd.open && p.pktType != TYPE_ACK
    ensures Inv(DeliverDown(s, p))
  {
    assert GenuineReply(s.snd, s.rcv, |File(s)|, p);
    assert DeliverDown(s, p) == s.(snd := s.snd.(open := false));
  }

  /** An acknowledgement that is too old changes nothing. */
  lemma StaleAck(s: System, p: Packet)
    requires p.pktType == TYPE_ACK && Arq.HandleAck(s.snd.sr, p.seqNum).1 == None
    ensures DeliverDown(s, p) == s
  {
  }

  /** Acknowledgements of the numbers that are sent report credit or nothing. */
  lemma AckEvent(sr: Arq.SR, num: nat)
    requires num >= 1 && Arq.HandleAck(sr, num).1 != None
    ensures sr.nextExpected <= Arq.HandleAck(sr, num).0.nextExpected
    ensures Arq.HandleAck(sr, num).1 == Some(Ack(Arq.HandleAck(sr, num).0.nextExpected - sr.nextExpected))
  {
  }

  lemma DeliverDownKeeps(s: System, p: Packet)
    requires Inv(s) && p in s.down && s.snd.open
    ensures Inv(DeliverDown(s, p))
  {
    if p.pktType != TYPE_ACK {
      FinAckKeeps(s, p);
    } else if Arq.HandleAck(s.snd.sr, p.seqNum).1 == None {
      StaleAck(s, p);
    } else {
      assert GenuineReply(s.snd, s.rcv, |File(s)|, p);
      AckEvent(s.snd.sr, p.seqNum);
      AckKeeps(s, p, Arq.HandleAck(s.snd.sr, p.seqNum).0.nextExpected - s.snd.sr.nextExpected);
    }
  }

  // ----- deliveries to the receiver -----

  /** The run that a payload completes is the next stretch of the file's chunks. */
  lemma RunIsChunks(r: Receiver, all: seq<Bytes>, k: nat)
    requires ReceiverInv(r, all) && r.sr.nextExpected <= k <= |all|
    ensures var buffer := r.sr.buffer[k := all[k - 1]];
      var run := Arq.Run(buffer, r.sr.nextExpected);
      var next := r.sr.nextExpected + |run|;
      && next <= |all| + 1
      && run == all[r.sr.nextExpected - 1..next - 1]
      && next !in buffer
  {
    var buffer := r.sr.buffer[k := all[k - 1]];
    var run := Arq.Run(buffer, r.sr.nextExpected);
    Arq.RunIsMaximal(buffer, r.sr.nextExpected);
    if run != [] {
      assert r.sr.nextExpected + |run| - 1 in buffer;
    }
    forall i | 0 <= i < |run| ensures run[i] == all[r.sr.nextExpected - 1 + i] {
      assert r.sr.nextExpected + i in buffer;
    }
  }

  /** The receiver after a payload it did not have: the completed run is written. */
  function Stored(r: Receiver, k: nat, data: Bytes): Receiver {
    var buffer := r.sr.buffer[k := data];
    var run := Arq.Run(buffer, r.sr.nextExpected);
    r.(sr := r.sr.(buffer := Arq.DropRun(buffer, r.sr.nextExpected, |run|),
                   nextExpected := r.sr.nextExpected + |run|),
       written := r.written + Join(run))
  }

  lemma StoredWrites(r: Receiver, all: seq<Bytes>, k: nat)
    requires ReceiverInv(r, all) && r.sr.nextExpected <= k <= |all|
    ensures var r' := Stored(r, k, all[k - 1]);
      r'.sr.nextExpected <= |all| + 1 && r'.written == Join(all[..r'.sr.nextExpected - 1])
  {
    RunIsChunks(r, all, k);
    JoinNext(all, r.sr.nextExpected - 1, Stored(r, k, all[k - 1]).sr.nextExpected - 1);
  }

  lemma StoredBuffer(r: Receiver, all: seq<Bytes>, k: nat)
    requires ReceiverInv(r, all) && r.sr.nextExpected <= k <= |all|
    ensures var sr := Stored(r, k, all[k - 1]).sr;
      && sr.nextExpected !in sr.buffer
      && forall j :: j in sr.buffer ==> sr.nextExpected <= j <= |all| && sr.buffer[j] == all[j - 1]
  {
    Arq.RunIsMaximal(r.sr.buffer[k := all[k - 1]], r.sr.nextExpected);
  }

  lemma StoredKeeps(r: Receiver, all: seq<Bytes>, k: nat)
    requires ReceiverInv(r, all) && r.sr.nextExpected <= k <= |all|
    ensures ReceiverInv(Stored(r, k, all[k - 1]), all)
  {
    StoredWrites(r, all, k);
    StoredBuffer(r, all, k);
  }

  lemma StoredReceived(r: Receiver, all: seq<Bytes>, k: nat, j: nat)
    requires ReceiverInv(r, all) && r.sr.nextExpected <= k <= |all|
    ensures Received(Stored(r, k, all[k - 1]), j) <==> Received(r, j) || j == k
  {
    var buffer := r.sr.buffer[k := all[k - 1]];
    Arq.RunIsMaximal(buffer, r.sr.nextExpected);
    assert j in buffer <==> j in r.sr.buffer || j == k;
  }

  /** What a genuine payload within the window does: it is acknowledged, and stored if new. */
  lemma DataTaken(r: Receiver, all: seq<Bytes>, p: Packet)
    requires ReceiverInv(r, all) && p.pktType == TYPE_DATA
    requires 1 <= p.seqNum <= |all| && p.data == all[p.seqNum - 1]
    requires p.seqNum < r.sr.nextExpected + r.sr.windowSize
    requires r.open || r.sr.nextExpected == |all| + 1
    ensures ReceiverTakes(r, p) ==
      (if Received(r, p.seqNum) then r else Stored(r, p.seqNum, p.data), [Arq.AckPacket(r.sr, p.seqNum)])
  {
    if !Received(r, p.seqNum) {
      var run := Arq.Run(r.sr.buffer[p.seqNum := p.data], r.sr.nextExpected);
      if run == [] {
        assert r.written + Join(run) == r.written;
      }
    }
  }

  /** The window sandwich: base <= next expected <= next to send <= base + window size. */
  lemma WindowSandwich(s: System)
    requires Inv(s)
    ensures s.snd.sr.nextExpected <= s.rcv.sr.nextExpected <= s.snd.sr.seqNum
    ensures s.snd.sr.seqNum <= s.snd.sr.nextExpected + s.snd.sr.windowSize
  {
    assert !Received(s.rcv, s.rcv.sr.nextExpected);
  }

  /** Taking a genuine payload marks exactly its number as received. */
  lemma DataReceived(r: Receiver, all: seq<Bytes>, p: Packet, j: nat)
    requires ReceiverInv(r, all) && p.pktType == TYPE_DATA
    requires 1 <= p.seqNum <= |all| && p.data == all[p.seqNum - 1]
    requires p.seqNum < r.sr.nextExpected + r.sr.windowSize
    requires r.open || r.sr.nextExpected == |all| + 1
    ensures var r' := ReceiverTakes(r, p).0;
      && ReceiverInv(r', all)
      && (Received(r', j) <==> Received(r, j) || j == p.seqNum)
      && r'.open == r.open && r.sr.nextExpected <= r'.sr.nextExpected
      && r'.sr.windowSize == r.sr.windowSize && r'.sr.opType == r.sr.opType && r'.sr.protocol == r.sr.protocol
  {
    DataTaken(r, all, p);
    if !Received(r, p.seqNum) {
      StoredKeeps(r, all, p.seqNum);
      StoredReceived(r, all, p.seqNum, j);
    }
  }

  lemma DataMatched(c: Sender, r: Receiver, r': Receiver, num: nat)
    requires Matched(c, r) && num < c.sr.seqNum && r'.sr.nextExpected >= 1
    requires r'.sr.windowSize == r.sr.windowSize && r'.sr.opType == r.sr.opType && r'.sr.protocol == r.sr.protocol
    requires forall j: nat :: Received(r', j) <==> Received(r, j) || j == num
    ensures Matched(c, r')
  {
    assert Received(r', r'.sr.nextExpected - 1);
    forall k | k in r'.sr.buffer ensures k < c.sr.seqNum {
      assert Received(r', k);
    }
  }

  lemma DeliverDataKeeps(s: System, p: Packet)
    requires Inv(s) && p in s.up && p.pktType == TYPE_DATA
    ensures Inv(DeliverUp(s, p))
  {
    var all := File(s);
    assert p == Genuine(s.snd, all, p.seqNum);
    WindowSandwich(s);
    DataTaken(s.rcv, all, p);
    var r' := ReceiverTakes(s.rcv, p).0;
    forall j: nat ensures Received(r', j) <==> Received(s.rcv, j) || j == p.seqNum {
      DataReceived(s.rcv, all, p, j);
    }
    DataReceived(s.rcv, all, p, 0);
    DataMatched(s.snd, s.rcv, r', p.seqNum);
    forall q | q in s.down ensures GenuineReply(s.snd, r', |all|, q) {
      assert GenuineReply(s.snd, s.rcv, |all|, q);
    }
  }

  /** A FIN arrives only when every chunk was written; handling it closes the complete file. */
  lemma DeliverFinKeeps(s: System, p: Packet)
    requires Inv(s) && p in s.up && p.pktType == TYPE_CLOSE
    ensures Inv(DeliverUp(s, p)) && s.rcv.written == s.snd.content
  {
    var all := File(s);
    assert p == Genuine(s.snd, all, p.seqNum);
    WindowSandwich(s);
    JoinChunks(s.snd.content, PAYLOAD_SIZE);
    assert all[..|all|] == all;
    var s' := DeliverUp(s, p);
    forall q | q in s'.down ensures GenuineReply(s'.snd, s'.rcv, |all|, q) {
      if q in s.down {
        assert GenuineReply(s.snd, s.rcv, |all|, q);
      }
    }
  }

  // ----- every step, every run -----

  lemma ResentGenuine(c: Sender, all: seq<Bytes>, now: real, p: Packet)
    requires SenderInv(c, all) && p in Arq.Retransmissions(c.sr, now)
    ensures 1 <= p.seqNum < c.sr.seqNum && p == Genuine(c, all, p.seqNum)
  {
    Arq.OverdueExact(c.sr.window, now, c.sr.nextExpected, c.sr.seqNum, p);
  }

  lemma RefreshKeeps(c: Sender, all: seq<Bytes>, now: real)
    requires SenderInv(c, all)
    ensures SenderInv(c.(sr := Arq.Refresh(c.sr, now)), all)
  {
  }

  lemma ResendKeeps(s: System)
    requires Inv(s)
    ensures Inv(Resend(s))
  {
    RefreshKeeps(s.snd, File(s), s.now);
    var s' := Resend(s);
    forall p | p in s'.up ensures 1 <= p.seqNum < s'.snd.sr.seqNum && p == Genuine(s'.snd, File(s), p.seqNum) {
      if p !in s.up {
        ResentGenuine(s.snd, File(s), s.now, p);
      }
    }
  }

  lemma StepKeeps(s: System, step: Step)
    requires Inv(s)
    ensures Inv(Apply(s, step))
  {
    match step
    case Timeout => ResendKeeps(s);
    case ToReceiver(p) =>
      if p in s.up {
        assert p == Genuine(s.snd, File(s), p.seqNum);
        if p.pktType == TYPE_DATA {
          DeliverDataKeeps(s, p);
        } else {
          DeliverFinKeeps(s, p);
        }
      }
    case ToSender(p) =>
      if p in s.down && s.snd.open {
        DeliverDownKeeps(s, p);
      }
    case _ =>
  }

  lemma StartInv(content: Bytes, opType: Bit, protocol: Bit, windowSize: nat, now: real)
    requires windowSize >= 1
    ensures Inv(Start(content, opType, protocol, windowSize, now))
  {
    var s := Handshaken(content, opType, protocol, windowSize, now);
    assert Join([]) == [];
    assert MidInv(s);
    SpendKeeps(s, windowSize);
  }

  predicate SameSession(c: Sender, d: Sender) {
    && c.content == d.content && c.sr.windowSize == d.sr.windowSize
    && c.sr.opType == d.sr.opType && c.sr.protocol == d.sr.protocol
  }

  lemma OnAckSameSession(c: Sender, next: nat, now: real)
    ensures SameSession(c, OnAck(c, next, now).0)
  {
  }

  lemma DeliverDownSameSession(s: System, p: Packet)
    ensures SameSession(s.snd, DeliverDown(s, p).snd)
  {
    var (sr, ev) := Arq.HandlePacket(s.snd.sr, p);
    match ev
    case Some(Ack(next)) => OnAckSameSession(s.snd.(sr := sr), next, s.now);
    case _ =>
  }

  lemma StepSameSession(s: System, step: Step)
    ensures SameSession(s.snd, Apply(s, step).snd)
  {
    if step.ToSender? {
      DeliverDownSameSession(s, step.p);
    }
  }

  lemma {:induction false} RunKeeps(s: System, steps: seq<Step>)
    requires Inv(s)
    ensures Inv(Run(s, steps))
    decreases |steps|
  {
    if steps != [] {
      StepKeeps(s, steps[0]);
      RunKeeps(Apply(s, steps[0]), steps[1..]);
    }
  }

  lemma {:induction false} RunSameSession(s: System, steps: seq<Step>)
    ensures SameSession(s.snd, Run(s, steps).snd)
    decreases |steps|
  {
    if steps != [] {
      StepSameSession(s, steps[0]);
      RunSameSession(Apply(s, steps[0]), steps[1..]);
    }
  }

  lemma {:induction false} RunAppend(s: System, a: seq<Step>, b: seq<Step>)
    ensures Run(s, a + b) == Run(Run(s, a), b)
    decreases |a|
  {
    if a == [] {
      assert a + b == b;
    } else {
      assert (a + b)[1..] == a[1..] + b;
      RunAppend(Apply(s, a[0]), a[1..], b);
    }
  }
}
