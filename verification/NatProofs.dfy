/** What the port allocator guarantees, operation by operation and over whole runs. */
module NatProofs {
  import opened Results
  import opened NatModel

  /** The state after a free port was granted. */
  function Granted(s: Nat, key: Key, e: Entry): Nat {
    Nat(s.table[key := e], s.reverse[PublicKey(key, e) := Owner(key, e)], s.pool - {e.publicPort})
  }

  lemma GrantIndexed(s: Nat, key: Key, e: Entry)
    requires Valid(s) && key !in s.table && e.publicPort in s.pool
    ensures Indexed(Granted(s, key, e)) && Backed(Granted(s, key, e)) && Distinct(Granted(s, key, e).table)
  {
    forall k | k in s.table ensures s.table[k].publicPort != e.publicPort {
      HeldBy(s, k);
    }
  }

  lemma GrantValid(s: Nat, key: Key, e: Entry)
    requires Valid(s) && key !in s.table && e.publicPort in s.pool
    ensures Valid(Granted(s, key, e))
  {
    GrantIndexed(s, key, e);
    var g := Granted(s, key, e);
    forall p ensures p in Held(g.table) <==> p in Held(s.table) || p == e.publicPort {
      if p == e.publicPort {
        assert g.table[key].publicPort == p;
      } else if p in Held(s.table) {
        var k :| k in s.table && s.table[k].publicPort == p;
        assert g.table[k].publicPort == p;
      }
    }
  }

  lemma CreateValid(s: Nat, key: Key, publicIp: Ip, reapAt: real, grantAt: real)
    requires Valid(s)
    ensures Valid(Create(s, key, publicIp, reapAt, grantAt).0)
  {
    var live := Reap(s, reapAt);
    DropValid(s, ExpiredKeys(s.table, reapAt));
    if key !in live.table && live.pool != {} {
      GrantValid(live, key, Entry(publicIp, Least(live.pool), grantAt));
    }
  }

  // ----- which entries survive, and what creation answers -----

  /** Reaping keeps exactly the entries no older than the timeout, unchanged. */
  lemma ReapExact(s: Nat, now: real, k: Key)
    ensures k in Reap(s, now).table <==> k in s.table && now - s.table[k].timestamp <= ENTRY_TIMEOUT
    ensures k in Reap(s, now).table ==> Reap(s, now).table[k] == s.table[k]
  {
  }

  predicate HeldPort(table: map<Key, Entry>, p: int) {
    exists k :: k in table && table[k].publicPort == p
  }

  /** First fit: a new lease gets the least port that no live entry holds, with the caller's public
      address and the time of the grant; a key with a live lease gets that lease back. */
  lemma FirstFit(s: Nat, key: Key, publicIp: Ip, reapAt: real, grantAt: real, e: Entry)
    requires Valid(s) && Create(s, key, publicIp, reapAt, grantAt).1 == Some(e)
    ensures var live := Reap(s, reapAt).table;
      && (key in live ==> e == live[key])
      && (key !in live ==>
            && e.publicIp == publicIp && e.timestamp == grantAt
            && IsPort(e.publicPort) && !HeldPort(live, e.publicPort)
            && forall p :: IsPort(p) && p < e.publicPort ==> HeldPort(live, p))
  {
    var live := Reap(s, reapAt);
    DropValid(s, ExpiredKeys(s.table, reapAt));
    if key !in live.table {
      assert e.publicPort in AllPorts();
      assert HeldPort(live.table, e.publicPort) ==> e.publicPort in Held(live.table);
      forall p | IsPort(p) && p < e.publicPort ensures HeldPort(live.table, p) {
        assert p in Held(live.table) + live.pool;
      }
    }
  }

  function Range(lo: int, hi: int): set<int>
    decreases hi - lo
  {
    if lo > hi then {} else {lo} + Range(lo + 1, hi)
  }

  lemma {:induction false} RangeCount(lo: int, hi: int)
    requires lo <= hi + 1
    ensures |Range(lo, hi)| == hi - lo + 1
    ensures forall p :: p in Range(lo, hi) <==> lo <= p <= hi
    decreases hi - lo
  {
    if lo <= hi {
      RangeCount(lo + 1, hi);
    }
  }

  lemma AllPortsCount(lo: int, hi: int)
    requires lo == PAT_PORT_MIN && hi == PAT_PORT_MAX
    ensures |AllPorts()| == hi - lo + 1
  {
    RangeCount(lo, hi);
    assert AllPorts() == Range(lo, hi);
  }

  lemma {:induction false} HeldCount(table: map<Key, Entry>)
    requires Distinct(table)
    ensures |Held(table)| == |table|
    decreases |table|
  {
    if |table| > 0 {
      var k :| k in table;
      var rest := table - {k};
      HeldCount(rest);
      assert table.Keys == rest.Keys + {k};
      assert Held(table) == Held(rest) + {table[k].publicPort};
    }
  }

  /** Port conservation in numbers: live leases and free ports are 64512 together. */
  lemma PortsCounted(s: Nat)
    requires Valid(s)
    ensures |s.table| + |s.pool| == 64512
  {
    HeldCount(s.table);
    AllPortsCount(PAT_PORT_MIN, PAT_PORT_MAX);
    assert |Held(s.table) + s.pool| == |Held(s.table)| + |s.pool|;
  }

  lemma FullWhenNoneFree(s: Nat)
    requires Valid(s)
    ensures s.pool == {} <==> |s.table| == 64512
  {
    PortsCounted(s);
  }

  /** Exact exhaustion: creation fails exactly when the key has no live lease and live leases hold
      all 64512 ports. */
  lemma FailsExactlyWhenFull(s: Nat, key: Key, publicIp: Ip, reapAt: real, grantAt: real)
    requires Valid(s)
    ensures Create(s, key, publicIp, reapAt, grantAt).1 == None
       <==> key !in Reap(s, reapAt).table && |Reap(s, reapAt).table| == 64512
  {
    var live := Reap(s, reapAt);
    DropValid(s, ExpiredKeys(s.table, reapAt));
    FullWhenNoneFree(live);
    assert Create(s, key, publicIp, reapAt, grantAt).1 == None <==> key !in live.table && live.pool == {};
  }

  /** The reverse lookup answers as a scan of the live forward table would: the owner of the entry
      with that public endpoint, if there is one. */
  lemma LookupIsScan(s: Nat, publicKey: Key, now: real, r: RevEntry)
    requires Valid(s)
    ensures Lookup(s, publicKey, now).1 == Some(r) <==>
      exists k :: k in s.table && !Expired(s.table[k], now)
        && PublicKey(k, s.table[k]) == publicKey && r == RevEntry(k.ip, k.port, s.table[k].timestamp)
  {
    var live := Reap(s, now);
    DropValid(s, ExpiredKeys(s.table, now));
    if Lookup(s, publicKey, now).1 == Some(r) {
      var k := PrivateKey(publicKey, r);
      assert k in live.table && PublicKey(k, live.table[k]) == publicKey;
    }
  }

  // ----- runs -----

  datatype Op =
    | CreateOp(key: Key, publicIp: Ip, reapAt: real, grantAt: real)
    | LookupOp(publicKey: Key, at: real)

  ghost function Step(s: Nat, op: Op): Nat {
    match op
    case CreateOp(key, publicIp, reapAt, grantAt) => Create(s, key, publicIp, reapAt, grantAt).0
    case LookupOp(publicKey, at) => Lookup(s, publicKey, at).0
  }

  ghost function Run(s: Nat, ops: seq<Op>): Nat
    decreases |ops|
  {
    if ops == [] then s else Run(Step(s, ops[0]), ops[1..])
  }

  /** The time at which an operation reaps. */
  function ReapTime(op: Op): real {
    match op
    case CreateOp(_, _, reapAt, _) => reapAt
    case LookupOp(_, at) => at
  }

  /** No operation reads a clock past `until` for its reaping. */
  predicate Within(ops: seq<Op>, until: real) {
    forall i :: 0 <= i < |ops| ==> ReapTime(ops[i]) <= until
  }

  lemma StepValid(s: Nat, op: Op)
    requires Valid(s)
    ensures Valid(Step(s, op))
  {
    match op
    case CreateOp(key, publicIp, reapAt, grantAt) => CreateValid(s, key, publicIp, reapAt, grantAt);
    case LookupOp(_, at) => DropValid(s, ExpiredKeys(s.table, at));
  }

  lemma {:induction false} RunValid(s: Nat, ops: seq<Op>)
    requires Valid(s)
    ensures Valid(Run(s, ops))
    decreases |ops|
  {
    if ops != [] {
      StepValid(s, ops[0]);
      RunValid(Step(s, ops[0]), ops[1..]);
    }
  }

  /** From the empty tables on, the tables stay mutually inverse and the ports conserved. */
  lemma AlwaysValid(ops: seq<Op>)
    ensures Valid(Run(Empty(), ops))
  {
    assert Held(Empty().table) == {};
    RunValid(Empty(), ops);
  }

  /** In every run, two private endpoints never share a public port, whatever their protocols. */
  lemma PortsAreExclusive(ops: seq<Op>, k: Key, l: Key)
    requires k in Run(Empty(), ops).table && l in Run(Empty(), ops).table && k != l
    ensures Run(Empty(), ops).table[k].publicPort != Run(Empty(), ops).table[l].publicPort
  {
    AlwaysValid(ops);
  }

  /** An operation keeps an entry, unchanged, exactly as long as it is not older than the timeout. */
  lemma StepKeepsLease(s: Nat, op: Op, k: Key)
    requires Valid(s) && k in s.table
    ensures ReapTime(op) - s.table[k].timestamp <= ENTRY_TIMEOUT ==>
      k in Step(s, op).table && Step(s, op).table[k] == s.table[k]
    ensures ReapTime(op) - s.table[k].timestamp > ENTRY_TIMEOUT ==> k !in Reap(s, ReapTime(op)).table
  {
  }

  lemma {:induction false} LeaseLasts(s: Nat, ops: seq<Op>, k: Key)
    requires Valid(s) && k in s.table && Within(ops, s.table[k].timestamp + ENTRY_TIMEOUT)
    ensures Valid(Run(s, ops)) && k in Run(s, ops).table && Run(s, ops).table[k] == s.table[k]
    decreases |ops|
  {
    if ops != [] {
      assert ReapTime(ops[0]) <= s.table[k].timestamp + ENTRY_TIMEOUT;
      StepValid(s, ops[0]);
      StepKeepsLease(s, ops[0], k);
      forall i | 0 <= i < |ops[1..]| ensures ReapTime(ops[1..][i]) <= s.table[k].timestamp + ENTRY_TIMEOUT {
        assert ops[1..][i] == ops[i + 1];
      }
      LeaseLasts(Step(s, ops[0]), ops[1..], k);
    }
  }

  /** The lease guarantee: up to 30 seconds after a grant, after any operations whatever, the public
      endpoint answers with its owner, the owner's creates return the same lease whatever public
      address they ask for, and no other key is given that port. */
  lemma LeaseGuarantee(s: Nat, ops: seq<Op>, k: Key, other: Key, publicIp: Ip, reapAt: real, grantAt: real)
    requires Valid(s) && k in s.table && Within(ops, s.table[k].timestamp + ENTRY_TIMEOUT)
    requires reapAt <= s.table[k].timestamp + ENTRY_TIMEOUT && other != k
    ensures var t := Run(s, ops); var e := s.table[k];
      && Lookup(t, Key(k.protocol, e.publicIp, e.publicPort), reapAt).1 == Some(RevEntry(k.ip, k.port, e.timestamp))
      && Create(t, k, publicIp, reapAt, grantAt).1 == Some(e)
      && (Create(t, other, publicIp, reapAt, grantAt).1 == None
          || Create(t, other, publicIp, reapAt, grantAt).1.value.publicPort != e.publicPort)
  {
    var t := Run(s, ops);
    LeaseLasts(s, ops, k);
    DropValid(t, ExpiredKeys(t.table, reapAt));
    var live := Reap(t, reapAt);
    ReapExact(t, reapAt, k);
    HeldBy(live, k);
  }

  /** A grant made now starts such a lease. */
  lemma GrantStartsLease(s: Nat, k: Key, publicIp: Ip, reapAt: real, grantAt: real)
    requires Valid(s) && k !in Reap(s, reapAt).table
    requires Create(s, k, publicIp, reapAt, grantAt).1.Some?
    ensures var (t, e) := Create(s, k, publicIp, reapAt, grantAt);
      Valid(t) && k in t.table && t.table[k] == e.value && e.value.timestamp == grantAt
  {
    CreateValid(s, k, publicIp, reapAt, grantAt);
  }

  /** After an operation no entry that was there before is older than the timeout. */
  lemma NothingStale(s: Nat, op: Op, k: Key)
    requires Valid(s) && k in Step(s, op).table
    requires op.CreateOp? ==> op.grantAt >= op.reapAt
    ensures ReapTime(op) - Step(s, op).table[k].timestamp <= ENTRY_TIMEOUT
  {
  }
}
