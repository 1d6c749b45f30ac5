/** The leased public ports of the router as a value: forward table, reverse index and free pool. */
module NatModel {
  import opened Results

  datatype Proto = TCP | UDP | ICMP

  type Ip = x: int | 0 <= x < 0x1_0000_0000

  const ENTRY_TIMEOUT := 30.0
  const PAT_PORT_MIN := 1024
  const PAT_PORT_MAX := 65535

  /** (protocol, address, port): a private endpoint in the forward table, a public one in the reverse. */
  datatype Key = Key(protocol: Proto, ip: Ip, port: int)

  datatype Entry = Entry(publicIp: Ip, publicPort: int, timestamp: real)

  datatype RevEntry = RevEntry(privateIp: Ip, privatePort: int, timestamp: real)

  datatype Nat = Nat(table: map<Key, Entry>, reverse: map<Key, RevEntry>, pool: set<int>)

  predicate IsPort(p: int) {
    PAT_PORT_MIN <= p <= PAT_PORT_MAX
  }

  function AllPorts(): set<int> {
    set p: int {:trigger IsPort(p)} | PAT_PORT_MIN <= p <= PAT_PORT_MAX
  }

  function Empty(): Nat {
    Nat(map[], map[], AllPorts())
  }

  function PublicKey(k: Key, e: Entry): Key {
    Key(k.protocol, e.publicIp, e.publicPort)
  }

  function Owner(k: Key, e: Entry): RevEntry {
    RevEntry(k.ip, k.port, e.timestamp)
  }

  predicate Expired(e: Entry, now: real) {
    now - e.timestamp > ENTRY_TIMEOUT
  }

  function ExpiredKeys(table: map<Key, Entry>, now: real): set<Key> {
    set k | k in table && Expired(table[k], now)
  }

  // ----- operations -----

  /** The state once the entries under `gone` were popped, one by one. */
  function Drop(s: Nat, gone: set<Key>): Nat {
    Nat(s.table - gone,
        s.reverse - (set k | k in gone && k in s.table :: PublicKey(k, s.table[k])),
        s.pool + (set k | k in gone && k in s.table && IsPort(s.table[k].publicPort) :: s.table[k].publicPort))
  }

  function Reap(s: Nat, now: real): Nat {
    Drop(s, ExpiredKeys(s.table, now))
  }

  ghost function Least(ports: set<int>): (m: int)
    requires ports != {}
    ensures m in ports && forall p :: p in ports ==> m <= p
  {
    assert (forall x :: x !in ports) ==> ports == {};
    var x :| x in ports;
    var rest := ports - {x};
    if rest == {} then assert ports == {x}; x
    else
      var y := Least(rest);
      assert ports == rest + {x};
      if x < y then x else y
  }

  ghost function Create(s: Nat, key: Key, publicIp: Ip, reapAt: real, grantAt: real): (Nat, Option<Entry>) {
    var live := Reap(s, reapAt);
    if key in live.table then (live, Some(live.table[key]))
    else if live.pool == {} then (live, None)
    else
      var e := Entry(publicIp, Least(live.pool), grantAt);
      (Nat(live.table[key := e], live.reverse[PublicKey(key, e) := Owner(key, e)], live.pool - {e.publicPort}), Some(e))
  }

  function Lookup(s: Nat, publicKey: Key, now: real): (Nat, Option<RevEntry>) {
    var live := Reap(s, now);
    (live, if publicKey in live.reverse then Some(live.reverse[publicKey]) else None)
  }

  // ----- the invariant -----

  /** Every forward entry is indexed by its public endpoint with its own owner. */
  predicate Indexed(s: Nat) {
    forall k :: k in s.table ==>
      PublicKey(k, s.table[k]) in s.reverse && s.reverse[PublicKey(k, s.table[k])] == Owner(k, s.table[k])
  }

  function PrivateKey(publicKey: Key, r: RevEntry): Key {
    Key(publicKey.protocol, r.privateIp, r.privatePort)
  }

  /** Every index entry points back at a forward entry with that public endpoint. */
  predicate Backed(s: Nat) {
    forall q :: q in s.reverse ==>
      && PrivateKey(q, s.reverse[q]) in s.table
      && PublicKey(PrivateKey(q, s.reverse[q]), s.table[PrivateKey(q, s.reverse[q])]) == q
  }

  function Held(table: map<Key, Entry>): set<int> {
    set k | k in table :: table[k].publicPort
  }

  /** No two entries share a port, whatever their protocols. */
  predicate Distinct(table: map<Key, Entry>) {
    forall k, l :: k in table && l in table && table[k].publicPort == table[l].publicPort ==> k == l
  }

  /** Free and held ports partition the range. */
  predicate Conserved(s: Nat) {
    Held(s.table) !! s.pool && Held(s.table) + s.pool == AllPorts()
  }

  predicate Valid(s: Nat) {
    Indexed(s) && Backed(s) && Distinct(s.table) && Conserved(s)
  }

  lemma DropIndexed(s: Nat, gone: set<Key>)
    requires Valid(s)
    ensures Indexed(Drop(s, gone)) && Backed(Drop(s, gone))
  {
  }

  lemma HeldBy(s: Nat, k: Key)
    requires Valid(s) && k in s.table
    ensures s.table[k].publicPort in AllPorts() && s.table[k].publicPort !in s.pool
  {
    assert s.table[k].publicPort in Held(s.table);
  }

  lemma DropConserved(s: Nat, gone: set<Key>)
    requires Valid(s)
    ensures Conserved(Drop(s, gone)) && Distinct(Drop(s, gone).table)
  {
    var d := Drop(s, gone);
    forall p | p in AllPorts() ensures p in Held(d.table) + d.pool {
      if p in Held(s.table) {
        var k :| k in s.table && s.table[k].publicPort == p;
        if k !in gone {
          assert k in d.table && d.table[k].publicPort == p;
        }
      }
    }
    forall p | p in Held(d.table) ensures p in AllPorts() && p !in d.pool {
      var k :| k in d.table && d.table[k].publicPort == p;
      HeldBy(s, k);
    }
  }

  /** Reaping, and popping any set of entries, keeps the tables mutually inverse and the ports conserved. */
  lemma DropValid(s: Nat, gone: set<Key>)
    requires Valid(s)
    ensures Valid(Drop(s, gone))
  {
    DropIndexed(s, gone);
    DropConserved(s, gone);
  }
}
