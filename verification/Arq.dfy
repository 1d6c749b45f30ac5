/** Selective Repeat as a value: what each operation of the protocol object does to its state. */
module Arq {
  import opened Common
  import opened Results
  import opened Chunking

  datatype Entry = Entry(pkt: Packet, time: real)

  /** The fields of a protocol object. A sending object uses `window`, `seqNum` and `nextExpected`
      (the base); a receiving one uses `buffer` and `nextExpected` (the next number in order). */
  datatype SR = SR(
    opType: Bit,
    protocol: Bit,
    windowSize: nat,
    chunkSize: Positive,
    window: map<nat, Entry>,
    buffer: map<nat, Bytes>,
    seqNum: nat,
    nextExpected: nat)
  {
    function Pkt(pktType: PktType, data: Bytes, num: nat): Packet {
      Packet(pktType, opType, protocol, data, num)
    }
  }

  function Fresh(opType: Bit, protocol: Bit, windowSize: nat): SR {
    SR(opType, protocol, windowSize, PAYLOAD_SIZE, map[], map[], 1, 1)
  }

  /** Window keys lie between the base and the next number to send. So it is for a sending object, and
      for a receiving one, whose window is empty. */
  predicate InRange(s: SR) {
    forall k :: k in s.window ==> s.nextExpected <= k < s.seqNum
  }

  /** What every operation of a sending object keeps. A receiving object composes no packet that takes a
      number, so there `nextExpected` passes `seqNum`. */
  predicate Valid(s: SR) {
    s.nextExpected <= s.seqNum && InRange(s)
  }

  // ----- sending -----

  /** The packets for consecutive chunks, numbered from `first`. */
  function Numbered(s: SR, chunks: seq<Bytes>, first: nat): (r: seq<Packet>)
    ensures |r| == |chunks|
    ensures forall i :: 0 <= i < |r| ==> r[i] == s.Pkt(TYPE_DATA, chunks[i], first + i)
  {
    seq(|chunks|, i requires 0 <= i < |chunks| => s.Pkt(TYPE_DATA, chunks[i], first + i))
  }

  /** One turn of the loop in `push_payload`: a packet takes the next number and enters the window. */
  function PushOne(s: SR, chunk: Bytes, now: real): SR {
    s.(window := s.window[s.seqNum := Entry(s.Pkt(TYPE_DATA, chunk, s.seqNum), now)], seqNum := s.seqNum + 1)
  }

  /** The state after the turns from byte `i` on. */
  function PushFrom(s: SR, data: Bytes, i: nat, now: real): SR
    decreases |data| - i
  {
    if i >= |data| then s
    else
      var end := Min(i + s.chunkSize, |data|);
      PushFrom(PushOne(s, data[i..end], now), data, end, now)
  }

  /** The packets that the turns from byte `i` on make, numbered from `first`. */
  function Cut(s: SR, data: Bytes, i: nat, first: nat): seq<Packet>
    decreases |data| - i
  {
    if i >= |data| then []
    else
      var end := Min(i + s.chunkSize, |data|);
      [s.Pkt(TYPE_DATA, data[i..end], first)] + Cut(s, data, end, first + 1)
  }

  function PushPackets(s: SR, data: Bytes): seq<Packet>
  {
    Numbered(s, Chunks(data, s.chunkSize), s.seqNum)
  }

  /** The window after the packets entered it one by one, each with the same time. */
  function Enter(window: map<nat, Entry>, pkts: seq<Packet>, now: real): map<nat, Entry>
    decreases |pkts|
  {
    if pkts == [] then window
    else Enter(window[pkts[0].seqNum := Entry(pkts[0], now)], pkts[1..], now)
  }

  /** `push_payload`: the chunks become numbered packets, which enter the window at this time. */
  function Push(s: SR, data: Bytes, now: real): SR
  {
    var pkts := PushPackets(s, data);
    s.(window := Enter(s.window, pkts, now), seqNum := s.seqNum + |pkts|)
  }

  lemma NumberedCons(s: SR, chunk: Bytes, chunks: seq<Bytes>, first: nat)
    ensures Numbered(s, [chunk] + chunks, first)
         == [s.Pkt(TYPE_DATA, chunk, first)] + Numbered(s, chunks, first + 1)
  {
  }

  lemma {:induction false} CutNumbersChunks(s: SR, data: Bytes, i: nat, first: nat)
    requires i <= |data|
    ensures Cut(s, data, i, first) == Numbered(s, Chunks(data[i..], s.chunkSize), first)
    decreases |data| - i
  {
    if i < |data| {
      var end := Min(i + s.chunkSize, |data|);
      CutNumbersChunks(s, data, end, first + 1);
      ChunksFrom(data, s.chunkSize, i, end);
      NumberedCons(s, data[i..end], Chunks(data[end..], s.chunkSize), first);
    }
  }

  lemma {:induction false} PushFromEnters(s: SR, t: SR, data: Bytes, i: nat, now: real)
    requires t == s.(window := t.window, seqNum := t.seqNum)
    ensures var pkts := Cut(s, data, i, t.seqNum);
      PushFrom(t, data, i, now) == t.(window := Enter(t.window, pkts, now), seqNum := t.seqNum + |pkts|)
    decreases |data| - i
  {
    if i < |data| {
      var end := Min(i + s.chunkSize, |data|);
      PushFromEnters(s, PushOne(t, data[i..end], now), data, end, now);
      assert Cut(s, data, i, t.seqNum)[1..] == Cut(s, data, end, t.seqNum + 1);
    }
  }

  /** The loop of `push_payload` computes `Push` and makes the packets of `PushPackets`. */
  lemma PushLoop(s: SR, data: Bytes, now: real)
    ensures PushFrom(s, data, 0, now) == Push(s, data, now)
    ensures Cut(s, data, 0, s.seqNum) == PushPackets(s, data)
  {
    PushFromEnters(s, s, data, 0, now);
    CutNumbersChunks(s, data, 0, s.seqNum);
    assert data[0..] == data;
  }

  predicate TimedOut(e: Entry, now: real) {
    now - e.time > ACK_TIMEOUT
  }

  /** The overdue packets numbered from `lo` up to `hi`, in order. */
  function Overdue(window: map<nat, Entry>, now: real, lo: nat, hi: nat): seq<Packet>
    decreases hi - lo
  {
    if lo >= hi then []
    else if lo in window && TimedOut(window[lo], now) then
      [window[lo].pkt] + Overdue(window, now, lo + 1, hi)
    else Overdue(window, now, lo + 1, hi)
  }

  /** What `get_timedouts` resends. */
  function Retransmissions(s: SR, now: real): seq<Packet> {
    Overdue(s.window, now, s.nextExpected, s.seqNum)
  }

  /** `get_timedouts` restarts the timer of every packet it resends and changes nothing else. */
  function Refresh(s: SR, now: real): SR {
    s.(window := map k | k in s.window ::
         if TimedOut(s.window[k], now) then s.window[k].(time := now) else s.window[k])
  }

  function FinPacket(s: SR): Packet {
    s.Pkt(TYPE_CLOSE, [], s.seqNum)
  }

  /** `fin`: the CLOSE packet takes the next number and waits in the window like any other. */
  function Fin(s: SR, now: real): SR {
    s.(window := s.window[s.seqNum := Entry(FinPacket(s), now)], seqNum := s.seqNum + 1)
  }

  /** Where the base stops when it moves past every number that left the window. */
  function Advance(window: map<nat, Entry>, base: nat, seqNum: nat): (r: nat)
    ensures base <= r
    ensures base <= seqNum ==> r <= seqNum
    ensures forall k :: base <= k < r ==> k !in window
    ensures r < seqNum ==> r in window
    decreases seqNum - base
  {
    if base < seqNum && base !in window then Advance(window, base + 1, seqNum) else base
  }

  function HandleAck(s: SR, num: nat): (SR, Option<Event>) {
    if num < s.nextExpected then
      (s, if num == 0 then Some(AckInit(s.windowSize)) else None)
    else
      var window := s.window - {num};
      var base := Advance(window, s.nextExpected, s.seqNum);
      (s.(window := window, nextExpected := base), Some(Ack(base - s.nextExpected)))
  }

  // ----- receiving -----

  /** The in-order run of buffered payloads that starts at `next`. */
  function Run(buffer: map<nat, Bytes>, next: nat): (r: seq<Bytes>)
    decreases buffer.Keys
  {
    if next !in buffer then []
    else [buffer[next]] + Run(buffer - {next}, next + 1)
  }

  function DropRun(buffer: map<nat, Bytes>, next: nat, len: nat): map<nat, Bytes> {
    map k | k in buffer && !(next <= k < next + len) :: buffer[k]
  }

  function HandleData(s: SR, num: nat, data: Bytes): (SR, Option<Event>) {
    if num < s.nextExpected then (s, Some(Data(num, [])))
    else if num >= s.nextExpected + s.windowSize then (s, None)
    else if num in s.buffer then (s, Some(Data(num, [])))
    else
      var buffer := s.buffer[num := data];
      var run := Run(buffer, s.nextExpected);
      (s.(buffer := DropRun(buffer, s.nextExpected, |run|), nextExpected := s.nextExpected + |run|),
       Some(Data(num, run)))
  }

  function AckPacket(s: SR, num: nat): Packet {
    s.Pkt(TYPE_ACK, [], num)
  }

  function FinAckPacket(s: SR): Packet {
    s.Pkt(TYPE_CLOSE_ACK, [], 0)
  }

  /** `handle_packet` on the packets of an open session. */
  function HandlePacket(s: SR, p: Packet): (SR, Option<Event>) {
    if p.pktType == TYPE_ACK then HandleAck(s, p.seqNum)
    else if p.pktType == TYPE_DATA then HandleData(s, p.seqNum, p.data)
    else if p.pktType == TYPE_CLOSE then (s, Some(Close))
    else if p.pktType == TYPE_CLOSE_ACK then (s, Some(CloseFin))
    else if p.pktType == TYPE_SYN_ACK then (s, Some(SynAck))
    else (s, None)
  }

  // ----- facts about single operations -----

  /** A resent packet is an overdue packet of the window, and every overdue one is resent. */
  lemma {:induction false} OverdueExact(window: map<nat, Entry>, now: real, lo: nat, hi: nat, p: Packet)
    ensures p in Overdue(window, now, lo, hi) <==>
            exists k :: lo <= k < hi && k in window && TimedOut(window[k], now) && window[k].pkt == p
    decreases hi - lo
  {
    if lo < hi {
      OverdueExact(window, now, lo + 1, hi, p);
    }
  }

  /** The run is exactly the maximal block of consecutive buffered numbers from `next`. */
  lemma {:induction false} RunIsMaximal(buffer: map<nat, Bytes>, next: nat)
    ensures var run := Run(buffer, next);
      && next + |run| !in buffer
      && forall k :: next <= k < next + |run| ==> k in buffer && run[k - next] == buffer[k]
    decreases buffer.Keys
  {
    if next in buffer {
      var rest := buffer - {next};
      RunIsMaximal(rest, next + 1);
      var run := Run(buffer, next);
      assert run == [buffer[next]] + Run(rest, next + 1);
      assert next + |run| !in rest;
      forall k | next <= k < next + |run| ensures k in buffer && run[k - next] == buffer[k] {
        if k > next {
          assert k in rest;
          assert run[k - next] == Run(rest, next + 1)[k - (next + 1)];
        }
      }
    }
  }

  /** Exactly the numbered packets enter the window; older entries stay as they were. */
  lemma {:induction false} EnterExact(window: map<nat, Entry>, s: SR, chunks: seq<Bytes>, first: nat, now: real, k: nat)
    ensures var r := Enter(window, Numbered(s, chunks, first), now);
      && (k in r <==> k in window || first <= k < first + |chunks|)
      && (k in r ==> r[k] == if first <= k < first + |chunks|
                             then Entry(s.Pkt(TYPE_DATA, chunks[k - first], k), now) else window[k])
    decreases |chunks|
  {
    if chunks != [] {
      var pkts := Numbered(s, chunks, first);
      EnterExact(window[first := Entry(pkts[0], now)], s, chunks[1..], first + 1, now, k);
      assert pkts[1..] == Numbered(s, chunks[1..], first + 1);
    }
  }

  lemma PushNothing(s: SR, now: real)
    ensures Push(s, [], now) == s && PushPackets(s, []) == []
  {
    assert Chunks([], s.chunkSize) == [];
  }

  lemma PushValid(s: SR, data: Bytes, now: real)
    requires Valid(s)
    ensures Valid(Push(s, data, now))
  {
    forall k: nat ensures k in Push(s, data, now).window ==> s.nextExpected <= k < s.seqNum + |PushPackets(s, data)| {
      EnterExact(s.window, s, Chunks(data, s.chunkSize), s.seqNum, now, k);
    }
  }

  /** The window stays between base and next number whatever number is acknowledged. */
  lemma HandleAckValid(s: SR, num: nat)
    requires Valid(s)
    ensures Valid(HandleAck(s, num).0)
  {
  }

  /** The base once a number is acknowledged: the first number still waiting, or the next one to send. */
  predicate NextBase(s: SR, num: nat, base: nat) {
    && s.nextExpected <= base <= s.seqNum
    && (forall k :: s.nextExpected <= k < base ==> k !in s.window || k == num)
    && (base < s.seqNum ==> base in s.window && base != num)
  }

  /** What an acknowledgement of any number from the base on does, sent or not, in any state: it takes that
      number out of the window, moves the base, reports the distance, and changes nothing else. */
  lemma HandleAckExact(s: SR, num: nat, base: nat)
    requires s.nextExpected <= num && NextBase(s, num, base)
    ensures HandleAck(s, num) ==
      (s.(window := s.window - {num}, nextExpected := base), Some(Ack(base - s.nextExpected)))
  {
    var window := s.window - {num};
    var stop := Advance(window, s.nextExpected, s.seqNum);
    assert base < s.seqNum ==> base in window;
    assert stop < base ==> stop !in window;
    assert base < stop ==> base !in window;
  }

  /** Credit is the advance of the base. It is zero only if the base is still waiting in the
      window, for every acknowledgement of a number that was sent. */
  lemma CreditIsAdvance(s: SR, num: nat)
    requires Valid(s) && 1 <= num < s.seqNum
    ensures var (s', ev) := HandleAck(s, num);
      && (ev == None <==> num < s.nextExpected)
      && (ev == None ==> s' == s)
      && (ev != None ==> ev.value == Ack(s'.nextExpected - s.nextExpected) && num !in s'.window)
      && (ev == Some(Ack(0)) ==> s.nextExpected in s'.window)
  {
  }

  /** With an empty window there is nothing to resend. */
  lemma {:induction false} OverdueNone(now: real, lo: nat, hi: nat)
    ensures Overdue(map[], now, lo, hi) == []
    decreases hi - lo
  {
    if lo < hi {
      OverdueNone(now, lo + 1, hi);
    }
  }

  lemma NothingWaiting(s: SR, now: real)
    requires s.window == map[]
    ensures Retransmissions(s, now) == [] && Refresh(s, now) == s
  {
    OverdueNone(now, s.nextExpected, s.seqNum);
  }

  /** Numbers in increasing order, so that no packet is sent twice. */
  predicate InOrder(pkts: seq<Packet>) {
    forall i, j :: 0 <= i < j < |pkts| ==> pkts[i].seqNum < pkts[j].seqNum
  }

  /** Every packet of the window waits under its own number. */
  predicate Keyed(window: map<nat, Entry>) {
    forall k :: k in window ==> window[k].pkt.seqNum == k
  }

  /** What is overdue is resent in order of number, each packet once. */
  lemma {:induction false} OverdueInOrder(window: map<nat, Entry>, now: real, lo: nat, hi: nat)
    requires Keyed(window)
    ensures InOrder(Overdue(window, now, lo, hi))
    ensures forall p :: p in Overdue(window, now, lo, hi) ==> lo <= p.seqNum < hi
    decreases hi - lo
  {
    if lo < hi {
      OverdueInOrder(window, now, lo + 1, hi);
      var rest := Overdue(window, now, lo + 1, hi);
      assert forall i :: 0 <= i < |rest| ==> rest[i] in rest;
    }
  }

  /** Whether an entry that a resend has passed is overdue later: a timer that was over runs anew, any
      other one runs on. */
  predicate OverdueLater(e: Entry, now: real, later: real) {
    if TimedOut(e, now) then later - now > ACK_TIMEOUT else TimedOut(e, later)
  }

  /** A resend restarts the timers of what it resends and no others: what a later one takes. */
  lemma LaterRetransmissions(s: SR, now: real, later: real, p: Packet)
    ensures p in Retransmissions(Refresh(s, now), later) <==>
      exists k :: s.nextExpected <= k < s.seqNum && k in s.window
        && OverdueLater(s.window[k], now, later) && s.window[k].pkt == p
  {
    var w := Refresh(s, now).window;
    assert forall k :: k in s.window ==> (OverdueLater(s.window[k], now, later) <==> TimedOut(w[k], later));
    OverdueExact(w, later, s.nextExpected, s.seqNum, p);
  }

  /** A resent packet's timer is restarted: none is overdue twice at the same moment. */
  lemma RefreshSettles(s: SR, now: real, p: Packet)
    ensures p !in Retransmissions(Refresh(s, now), now)
  {
    var r := Refresh(s, now);
    OverdueExact(r.window, now, r.nextExpected, r.seqNum, p);
  }

  function Payloads(pkts: seq<Packet>): seq<Bytes> {
    seq(|pkts|, i requires 0 <= i < |pkts| => pkts[i].data)
  }

  /** Pushing a read of at most n payloads makes at most n packets, whose payloads join to the read. */
  lemma PushIsLossless(s: SR, data: Bytes, n: nat)
    requires s.chunkSize == PAYLOAD_SIZE && |data| <= n * PAYLOAD_SIZE
    ensures |PushPackets(s, data)| <= n
    ensures Join(Payloads(PushPackets(s, data))) == data
  {
    ChunkLengths(data);
    JoinChunks(data, PAYLOAD_SIZE);
    assert Payloads(PushPackets(s, data)) == Chunks(data, PAYLOAD_SIZE);
  }
}
