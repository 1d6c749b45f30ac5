/** The ARP table and the queue of suspended events, dictionaries changed in place. */
module ArpHandler {
  import opened Results
  import opened NatModel
  import opened RouterModel

  class ArpHandler {
    var arpTable: map<Ip, ArpEntry>
    var waitingQueue: map<Ip, seq<Event>>

    function State(): ArpState
      reads this
    {
      ArpState(arpTable, waitingQueue)
    }

    constructor ()
      ensures State() == ArpState(map[], map[])
    {
      arpTable, waitingQueue := map[], map[];
    }

    method EnqueuePacket(ip: Ip, ev: Event)
      modifies `waitingQueue
      ensures State() == Enqueue(old(State()), ip, ev)
    {
      if ip !in waitingQueue {
        waitingQueue := waitingQueue[ip := []];
      }
      waitingQueue := waitingQueue[ip := waitingQueue[ip] + [ev]];
    }

    method DequeuePackets(ip: Ip) returns (packets: seq<Event>)
      modifies `waitingQueue
      ensures State() == Dequeue(old(State()), ip)
      ensures packets == Queued(old(State()), ip)
    {
      if ip in waitingQueue {
        packets := waitingQueue[ip];
        waitingQueue := waitingQueue - {ip};
      } else {
        assert waitingQueue - {ip} == waitingQueue;
        packets := [];
      }
    }

    method ReapArpTable(now: real)
      modifies `arpTable
      ensures State() == ReapArp(old(State()), now)
    {
      var expired := set ip | ip in arpTable && now - arpTable[ip].timestamp > ENTRY_TIMEOUT;
      var todo := expired;
      while todo != {}
        invariant todo <= expired
        invariant arpTable == old(arpTable) - (expired - todo)
        decreases todo
      {
        var ip :| ip in todo;
        arpTable := arpTable - {ip};
        todo := todo - {ip};
      }
      assert arpTable == ReapArp(old(State()), now).table;
    }

    method LearnArpEntry(ip: Ip, mac: Mac, port: nat, now: real)
      modifies `arpTable
      ensures State() == Learn(old(State()), ip, mac, port, now)
    {
      ReapArpTable(now);
      arpTable := arpTable[ip := ArpEntry(mac, port, now)];
    }

    function GetMac(ip: Ip): (mac: Option<Mac>)
      reads this
      ensures mac.Some? <==> ip in arpTable
      ensures mac.Some? ==> mac.value == arpTable[ip].mac
    {
      if ip in arpTable then Some(arpTable[ip].mac) else None
    }

    function GetPort(ip: Ip): (port: Option<nat>)
      reads this
      ensures port.Some? <==> ip in arpTable
      ensures port.Some? ==> port.value == arpTable[ip].port
    {
      if ip in arpTable then Some(arpTable[ip].port) else None
    }
  }
}
