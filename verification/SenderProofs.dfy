/** How the sending end keeps its part of the transfer invariant. */
module SenderProofs {
  import opened Common
  import opened Chunking
  import opened Session
  import opened Transfer
  import Arq

  /** The sender between taking an acknowledgement and spending the credit for it: `credit`
      packets were granted and spent so far. */
  predicate Midway(c: Sender, all: seq<Bytes>, credit: nat) {
    var sr := c.sr;
    && all == Chunks(c.content, PAYLOAD_SIZE)
    && sr.windowSize >= 1 && sr.chunkSize == PAYLOAD_SIZE
    && c.pos == Min(credit * PAYLOAD_SIZE, |c.content|)
    && sr.seqNum == Min(credit, |all|) + 1
    && 1 <= sr.nextExpected <= sr.seqNum
    && (sr.nextExpected < sr.seqNum ==> sr.nextExpected in sr.window)
    && (forall k :: k in sr.window ==>
          sr.nextExpected <= k < sr.seqNum && sr.window[k].pkt == Genuine(c, all, k))
  }

  /** The chunks that spending `next` more credit sends. */
  function NewChunks(all: seq<Bytes>, credit: nat, next: nat): seq<Bytes> {
    all[Min(credit, |all|)..Min(credit + next, |all|)]
  }

  lemma EmptyChunks(d: Bytes)
    ensures d == [] <==> Chunks(d, PAYLOAD_SIZE) == []
  {
  }

  lemma ReadsNewChunks(c: Sender, all: seq<Bytes>, credit: nat, next: nat)
    requires Midway(c, all, credit)
    ensures Chunks(ReadFor(c, next), PAYLOAD_SIZE) == NewChunks(all, credit, next)
    ensures c.pos + |ReadFor(c, next)| == Min((credit + next) * PAYLOAD_SIZE, |c.content|)
    ensures ReadFor(c, next) == [] <==> NewChunks(all, credit, next) == []
  {
    var b := Min((credit + next) * PAYLOAD_SIZE, |c.content|);
    ReadIsChunkRange(c.content, credit, next, c.pos, b);
    EmptyChunks(ReadFor(c, next));
  }

  lemma PushedNumbers(c: Sender, all: seq<Bytes>, credit: nat, next: nat, now: real)
    requires Midway(c, all, credit)
    ensures var d := AfterPush(c, next, now);
      && d.pos == Min((credit + next) * PAYLOAD_SIZE, |c.content|)
      && d.sr.seqNum == Min(credit + next, |all|) + 1
      && d.sr.window == Arq.Enter(Arq.Refresh(c.sr, now).window,
           Arq.Numbered(c.sr, NewChunks(all, credit, next), c.sr.seqNum), now)
  {
    ReadsNewChunks(c, all, credit, next);
    assert Arq.PushPackets(Arq.Refresh(c.sr, now), ReadFor(c, next))
        == Arq.Numbered(c.sr, NewChunks(all, credit, next), c.sr.seqNum);
  }

  /** After the push the window holds the old numbers and the new ones, with genuine packets. */
  lemma PushedEntry(c: Sender, all: seq<Bytes>, credit: nat, next: nat, now: real, k: nat)
    requires Midway(c, all, credit)
    ensures var w := AfterPush(c, next, now).sr.window;
      && (k in w <==> k in c.sr.window || c.sr.seqNum <= k < Min(credit + next, |all|) + 1)
      && (k in w ==> w[k].pkt == Genuine(c, all, k))
  {
    PushedNumbers(c, all, credit, next, now);
    var chunks := NewChunks(all, credit, next);
    Arq.EnterExact(Arq.Refresh(c.sr, now).window, c.sr, chunks, c.sr.seqNum, now, k);
  }

  lemma SentGenuine(c: Sender, all: seq<Bytes>, credit: nat, next: nat, now: real, p: Packet)
    requires Midway(c, all, credit)
    requires p in Arq.Retransmissions(c.sr, now)
          || p in Arq.PushPackets(Arq.Refresh(c.sr, now), ReadFor(c, next))
    ensures 1 <= p.seqNum < AfterPush(c, next, now).sr.seqNum && p == Genuine(c, all, p.seqNum)
  {
    ReadsNewChunks(c, all, credit, next);
    if p in Arq.Retransmissions(c.sr, now) {
      Arq.OverdueExact(c.sr.window, now, c.sr.nextExpected, c.sr.seqNum, p);
    }
  }

  lemma FinsWhenDone(c: Sender, all: seq<Bytes>, credit: nat, next: nat, now: real)
    requires Midway(c, all, credit)
    requires credit + next == c.sr.windowSize + c.sr.nextExpected - 1
    ensures ClientFins(c, next, now) <==> c.sr.nextExpected == |all| + 1
    ensures ServerFins(c, next, now) <==> c.sr.nextExpected == |all| + 1
    ensures c.sr.nextExpected <= |all| ==> c.sr.nextExpected in AfterPush(c, next, now).sr.window
  {
    PushedNumbers(c, all, credit, next, now);
    ReadsNewChunks(c, all, credit, next);
    PushedEntry(c, all, credit, next, now, c.sr.nextExpected);
    if c.sr.nextExpected == |all| + 1 {
      forall k: nat ensures k !in AfterPush(c, next, now).sr.window {
        PushedEntry(c, all, credit, next, now, k);
      }
      ChunkLengths(c.content);
    }
  }

  /** Spending the credit of one acknowledgement restores the sender's invariant. */
  lemma OnAckKeeps(c: Sender, all: seq<Bytes>, credit: nat, next: nat, now: real)
    requires Midway(c, all, credit)
    requires credit + next == c.sr.windowSize + c.sr.nextExpected - 1
    ensures SenderInv(OnAck(c, next, now).0, all)
  {
    var d := OnAck(c, next, now).0;
    FinsWhenDone(c, all, credit, next, now);
    PushedNumbers(c, all, credit, next, now);
    forall k | k in d.sr.window
      ensures d.sr.nextExpected <= k < d.sr.seqNum && d.sr.window[k].pkt == Genuine(d, all, k)
    {
      PushedEntry(c, all, credit, next, now, k);
    }
  }

  lemma OnAckSends(c: Sender, all: seq<Bytes>, credit: nat, next: nat, now: real, p: Packet)
    requires Midway(c, all, credit)
    requires credit + next == c.sr.windowSize + c.sr.nextExpected - 1
    requires p in OnAck(c, next, now).1
    ensures 1 <= p.seqNum < OnAck(c, next, now).0.sr.seqNum && p == Genuine(c, all, p.seqNum)
  {
    FinsWhenDone(c, all, credit, next, now);
    PushedNumbers(c, all, credit, next, now);
    var d := AfterPush(c, next, now);
    if p != Arq.FinPacket(d.sr) || !ClientFins(c, next, now) {
      SentGenuine(c, all, credit, next, now, p);
    }
  }

  lemma OnAckWindow(c: Sender, all: seq<Bytes>, credit: nat, next: nat, now: real, k: nat)
    requires Midway(c, all, credit)
    requires credit + next == c.sr.windowSize + c.sr.nextExpected - 1
    ensures var d := OnAck(c, next, now).0;
      && d.sr.nextExpected == c.sr.nextExpected && c.sr.seqNum <= d.sr.seqNum
      && (k in d.sr.window <==> k in c.sr.window || c.sr.seqNum <= k < d.sr.seqNum)
  {
    PushedNumbers(c, all, credit, next, now);
    PushedEntry(c, all, credit, next, now, k);
  }

  // ----- exactly what is sent -----

  /** Number k is due when credit is spent: its packet is overdue, or the handler gives the number out. */
  predicate Due(c: Sender, d: Sender, now: real, k: nat) {
    (k in c.sr.window && Arq.TimedOut(c.sr.window[k], now)) || c.sr.seqNum <= k < d.sr.seqNum
  }

  /** Every new number's packet is among what the handler sends. */
  lemma NewIsSent(c: Sender, all: seq<Bytes>, credit: nat, next: nat, now: real, k: nat)
    requires Midway(c, all, credit)
    requires credit + next == c.sr.windowSize + c.sr.nextExpected - 1
    requires c.sr.seqNum <= k < OnAck(c, next, now).0.sr.seqNum
    ensures Genuine(c, all, k) in OnAck(c, next, now).1
  {
    var pushed := Arq.PushPackets(Arq.Refresh(c.sr, now), ReadFor(c, next));
    FinsWhenDone(c, all, credit, next, now);
    PushedNumbers(c, all, credit, next, now);
    ReadsNewChunks(c, all, credit, next);
    if k < c.sr.seqNum + |pushed| {
      assert pushed[k - c.sr.seqNum] == Genuine(c, all, k);
    }
  }

  /** The handler resends every overdue packet, sends every new one, and nothing else: the packets whose
      numbers are due, each with its own chunk, or the FIN. */
  lemma OnAckSendsExactly(c: Sender, all: seq<Bytes>, credit: nat, next: nat, now: real, p: Packet)
    requires Midway(c, all, credit)
    requires credit + next == c.sr.windowSize + c.sr.nextExpected - 1
    ensures var (d, sent) := OnAck(c, next, now);
      p in sent <==> Due(c, d, now, p.seqNum) && p == Genuine(c, all, p.seqNum)
  {
    var (d, sent) := OnAck(c, next, now);
    Arq.OverdueExact(c.sr.window, now, c.sr.nextExpected, c.sr.seqNum, p);
    if p in sent {
      OnAckSends(c, all, credit, next, now, p);
    } else if c.sr.seqNum <= p.seqNum < d.sr.seqNum {
      NewIsSent(c, all, credit, next, now, p.seqNum);
    }
  }

  lemma Appended(a: seq<Packet>, b: seq<Packet>, mid: nat)
    requires Arq.InOrder(a) && Arq.InOrder(b)
    requires (forall p :: p in a ==> p.seqNum < mid) && (forall p :: p in b ==> p.seqNum >= mid)
    ensures Arq.InOrder(a + b)
  {
    forall i, j | 0 <= i < j < |a + b| ensures (a + b)[i].seqNum < (a + b)[j].seqNum {
      assert (a + b)[i] in (if i < |a| then a else b) && (a + b)[j] in (if j < |a| then a else b);
    }
  }

  /** And it sends them in order of number: the overdue ones, then the new chunks, then the FIN. */
  lemma OnAckInOrder(c: Sender, all: seq<Bytes>, credit: nat, next: nat, now: real)
    requires Midway(c, all, credit)
    ensures Arq.InOrder(OnAck(c, next, now).1)
  {
    var overdue := Arq.Retransmissions(c.sr, now);
    var pushed := Arq.PushPackets(Arq.Refresh(c.sr, now), ReadFor(c, next));
    var d := AfterPush(c, next, now);
    Arq.OverdueInOrder(c.sr.window, now, c.sr.nextExpected, c.sr.seqNum);
    Appended(overdue, pushed, c.sr.seqNum);
    Appended(overdue + pushed, [Arq.FinPacket(d.sr)], d.sr.seqNum);
  }

  /** It restarts the timers of exactly the packets it sends. */
  lemma OnAckTimers(c: Sender, all: seq<Bytes>, credit: nat, next: nat, now: real, k: nat)
    requires Midway(c, all, credit)
    requires credit + next == c.sr.windowSize + c.sr.nextExpected - 1
    requires k in OnAck(c, next, now).0.sr.window
    ensures var d := OnAck(c, next, now).0;
      if Due(c, d, now, k) then d.sr.window[k].time == now
      else k in c.sr.window && d.sr.window[k].time == c.sr.window[k].time
  {
    PushedNumbers(c, all, credit, next, now);
    var chunks := NewChunks(all, credit, next);
    Arq.EnterExact(Arq.Refresh(c.sr, now).window, c.sr, chunks, c.sr.seqNum, now, k);
  }
}
