/** The port allocator object: two dictionaries and a set changed in place. */
module NatHandler {
  import opened Results
  import opened NatModel

  lemma DropOne(s: Nat, k: Key)
    requires k in s.table
    ensures Drop(s, {k}) ==
      Nat(s.table - {k}, s.reverse - {PublicKey(k, s.table[k])},
          s.pool + if IsPort(s.table[k].publicPort) then {s.table[k].publicPort} else {})
  {
  }

  lemma DropNone(s: Nat)
    ensures Drop(s, {}) == s
  {
    assert s.table - {} == s.table && s.reverse - {} == s.reverse;
  }

  lemma DropMore(s: Nat, gone: set<Key>, k: Key)
    requires k in s.table && k !in gone
    ensures Drop(Drop(s, gone), {k}) == Drop(s, gone + {k})
  {
    var d := Drop(s, gone);
    DropOne(d, k);
    assert d.table - {k} == s.table - (gone + {k});
  }

  class NatHandler {
    var natTable: map<Key, Entry>
    var reverseNat: map<Key, RevEntry>
    var publicPortPool: set<int>

    function State(): Nat
      reads this
    {
      Nat(natTable, reverseNat, publicPortPool)
    }

    constructor ()
      ensures State() == Empty()
    {
      natTable, reverseNat := map[], map[];
      publicPortPool := AllPorts();
    }

    method AllocatePublicPort() returns (port: Option<int>)
      modifies `publicPortPool
      ensures port == None <==> old(publicPortPool) == {}
      ensures port == None ==> publicPortPool == old(publicPortPool)
      ensures port.Some? ==>
        port.value == Least(old(publicPortPool)) && publicPortPool == old(publicPortPool) - {port.value}
    {
      if publicPortPool == {} {
        return None;
      }
      ghost var least := Least(publicPortPool);
      var p :| p in publicPortPool && forall q :: q in publicPortPool ==> p <= q;
      assert p == least;
      publicPortPool := publicPortPool - {p};
      port := Some(p);
    }

    method ReleasePublicPort(port: int)
      modifies `publicPortPool
      ensures publicPortPool == old(publicPortPool) + if IsPort(port) then {port} else {}
    {
      if PAT_PORT_MIN <= port <= PAT_PORT_MAX {
        publicPortPool := publicPortPool + {port};
      }
    }

    method FindExpired(now: real) returns (expired: seq<Key>)
      ensures forall k :: k in expired <==> k in ExpiredKeys(natTable, now)
      ensures forall i, j :: 0 <= i < j < |expired| ==> expired[i] != expired[j]
    {
      expired := [];
      var todo := natTable.Keys;
      while todo != {}
        invariant todo <= natTable.Keys
        invariant forall k :: k in expired <==> k in ExpiredKeys(natTable, now) && k !in todo
        invariant forall i, j :: 0 <= i < j < |expired| ==> expired[i] != expired[j]
        decreases todo
      {
        var k :| k in todo;
        if now - natTable[k].timestamp > ENTRY_TIMEOUT {
          expired := expired + [k];
        }
        todo := todo - {k};
      }
    }

    /** Pop one entry: its index entry goes too and its port is free again. */
    method Pop(natKey: Key)
      requires natKey in natTable
      modifies this
      ensures State() == Drop(old(State()), {natKey})
    {
      var data := natTable[natKey];
      natTable := natTable - {natKey};
      var reverseKey := Key(natKey.protocol, data.publicIp, data.publicPort);
      if reverseKey in reverseNat {
        reverseNat := reverseNat - {reverseKey};
      }
      ReleasePublicPort(data.publicPort);
      DropOne(old(State()), natKey);
    }

    method ReapNatTable(now: real)
      modifies this
      ensures State() == Reap(old(State()), now)
    {
      var expired := FindExpired(now);
      ghost var start := State();
      ghost var gone: set<Key> := {};
      var i := 0;
      DropNone(start);
      while i < |expired|
        invariant 0 <= i <= |expired|
        invariant gone == set k | k in expired[..i]
        invariant State() == Drop(start, gone)
      {
        assert expired[..i + 1] == expired[..i] + [expired[i]];
        assert expired[i] in expired && expired[i] !in expired[..i];
        DropMore(start, gone, expired[i]);
        Pop(expired[i]);
        gone := gone + {expired[i]};
        i := i + 1;
      }
      assert gone == ExpiredKeys(start.table, now);
    }

    method CreatePatEntry(protocol: Proto, privateIp: Ip, privatePort: int, publicIp: Ip, reapAt: real, grantAt: real)
      returns (entry: Option<Entry>)
      modifies this
      ensures (State(), entry) == Create(old(State()), Key(protocol, privateIp, privatePort), publicIp, reapAt, grantAt)
    {
      ReapNatTable(reapAt);
      var natKey := Key(protocol, privateIp, privatePort);
      if natKey in natTable {
        return Some(natTable[natKey]);
      }
      var publicPort := AllocatePublicPort();
      if publicPort == None {
        return None;
      }
      var e := Entry(publicIp, publicPort.value, grantAt);
      natTable := natTable[natKey := e];
      reverseNat := reverseNat[Key(protocol, publicIp, publicPort.value) := RevEntry(privateIp, privatePort, grantAt)];
      entry := Some(e);
    }

    method GetReverseEntry(protocol: Proto, publicIp: Ip, publicPort: int, now: real) returns (entry: Option<RevEntry>)
      modifies this
      ensures (State(), entry) == Lookup(old(State()), Key(protocol, publicIp, publicPort), now)
    {
      ReapNatTable(now);
      var reverseKey := Key(protocol, publicIp, publicPort);
      if reverseKey in reverseNat {
        return Some(reverseNat[reverseKey]);
      }
      return None;
    }
  }
}
