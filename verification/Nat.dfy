/** The translation table of lab8/08-nat/nat.c.

  The functions describe a lookup, a translation and a sweep on the value of the
  table; class NatTable is the in-place form, proved against them.
*/
module Nat {
  import opened Common

  const NAT_PORT_MIN: nat := 12345
  const NAT_PORT_MAX: nat := 23456
  const HASH_8BITS: nat := 256
  const PORTS: nat := 65536
  const TCP_ESTABLISHED_TIMEOUT: nat := 60

  type u16 = x: int | 0 <= x < 65536
  type u32 = x: int | 0 <= x < 0x1_0000_0000

  datatype Endpoint = Endpoint(ip: u32, port: u16)

  datatype Direction = In | Out

  datatype Connection = Connection(
    internalFin: bool, externalFin: bool, internalSeqEnd: u32, externalSeqEnd: u32, internalAck: u32, externalAck: u32)

  datatype Mapping = Mapping(
    remote: Endpoint, internal: Endpoint, external: Endpoint, updateTime: nat, conn: Connection)

  datatype Rule = Rule(external: Endpoint, internal: Endpoint)

  datatype Config = Config(externalIp: u32, rules: seq<Rule>)

  datatype Packet = Packet(src: Endpoint, dst: Endpoint, seqNo: u32, ackNo: u32, fin: bool)

  datatype Table = Table(buckets: seq<seq<Mapping>>, inUse: seq<bool>)

  datatype Outcome = Forwarded(packet: Packet) | NoRule | NoPort

  predicate InPool(port: int) {
    NAT_PORT_MIN <= port <= NAT_PORT_MAX
  }

  // ---------------------------------------------------------------------
  // Hashing and lookup
  // ---------------------------------------------------------------------

  /** Exclusive or of the low n bits. */
  function Xor(a: nat, b: nat, n: nat): (r: nat)
    ensures r < Pow2(n)
  {
    if n == 0 then 0 else (a % 2 + b % 2) % 2 + 2 * Xor(a / 2, b / 2, n - 1)
  }

  /** hash8 of the address bytes and of the port bytes, combined, in the low n
      bits; the byte order in memory does not matter. */
  function Hash(e: Endpoint, n: nat): (k: nat)
    ensures k < Pow2(n)
  {
    var ip := Xor(Xor(e.ip / 0x100_0000, e.ip / 0x1_0000, n), Xor(e.ip / 0x100, e.ip, n), n);
    Xor(ip, Xor(e.port / 0x100, e.port, n), n)
  }

  function Key(e: Endpoint): (k: nat)
    ensures k < HASH_8BITS && k == Hash(e, 8)
  {
    assert Pow2(8) == 256 by {
      assert Pow2(4) == 16;
    }
    Hash(e, 8)
  }

  /** The i-th bit of a is set. */
  predicate Bit(a: nat, i: nat) {
    if i == 0 then a % 2 == 1 else Bit(a / 2, i - 1)
  }

  lemma {:induction false} XorBits(a: nat, b: nat, n: nat, i: nat)
    requires i < n
    ensures Bit(Xor(a, b, n), i) <==> Bit(a, i) != Bit(b, i)
  {
    if i > 0 {
      XorBits(a / 2, b / 2, n - 1, i - 1);
    }
  }

  lemma XorOfThree(x: nat, y: nat, z: nat, n: nat, i: nat)
    requires i < n
    ensures Bit(Xor(Xor(x, y, n), z, n), i) <==> (Bit(x, i) != Bit(y, i)) != Bit(z, i)
  {
    XorBits(x, y, n, i);
    XorBits(Xor(x, y, n), z, n, i);
  }

  /** A bit of the hash is set when it is set in an odd number of the six bytes. */
  lemma HashBits(e: Endpoint, n: nat, i: nat)
    requires i < n
    ensures Bit(Hash(e, n), i) <==>
      ((Bit(e.ip / 0x100_0000, i) != Bit(e.ip / 0x1_0000, i)) != (Bit(e.ip / 0x100, i) != Bit(e.ip, i)))
      != (Bit(e.port / 0x100, i) != Bit(e.port, i))
  {
    XorBits(e.ip / 0x100_0000, e.ip / 0x1_0000, n, i);
    XorBits(e.ip / 0x100, e.ip, n, i);
    XorBits(e.port / 0x100, e.port, n, i);
    XorOfThree(Xor(e.ip / 0x100_0000, e.ip / 0x1_0000, n), Xor(e.ip / 0x100, e.ip, n),
               Xor(e.port / 0x100, e.port, n), n, i);
  }

  function Remote(p: Packet, dir: Direction): Endpoint {
    if dir.In? then p.src else p.dst
  }

  predicate Matches(m: Mapping, p: Packet, dir: Direction) {
    m.remote == Remote(p, dir) && (if dir.In? then m.external == p.dst else m.internal == p.src)
  }

  /** The first matching entry from i on, or the length of the bucket. */
  function Find(bucket: seq<Mapping>, p: Packet, dir: Direction, i: nat): (r: nat)
    requires i <= |bucket|
    ensures i <= r <= |bucket|
    ensures forall k: nat :: i <= k < r ==> !Matches(bucket[k], p, dir)
    ensures r < |bucket| ==> Matches(bucket[r], p, dir)
    decreases |bucket| - i
  {
    if i == |bucket| || Matches(bucket[i], p, dir) then i else Find(bucket, p, dir, i + 1)
  }

  function FindRule(rules: seq<Rule>, external: Endpoint, i: nat): (r: nat)
    requires i <= |rules|
    ensures i <= r <= |rules|
    ensures forall k: nat :: i <= k < r ==> rules[k].external != external
    ensures r < |rules| ==> rules[r].external == external
    decreases |rules| - i
  {
    if i == |rules| || rules[i].external == external then i else FindRule(rules, external, i + 1)
  }

  /** The first free pool port from i on, or NAT_PORT_MAX + 1. */
  function FindPort(inUse: seq<bool>, i: nat): (r: nat)
    requires |inUse| == PORTS && NAT_PORT_MIN <= i <= NAT_PORT_MAX + 1
    ensures i <= r <= NAT_PORT_MAX + 1
    ensures forall k: nat :: i <= k < r ==> inUse[k]
    ensures r <= NAT_PORT_MAX ==> !inUse[r]
    decreases NAT_PORT_MAX + 1 - i
  {
    if i > NAT_PORT_MAX || !inUse[i] then i else FindPort(inUse, i + 1)
  }

  // ---------------------------------------------------------------------
  // Translation
  // ---------------------------------------------------------------------

  const NEW_CONNECTION: Connection := Connection(false, false, 0, 0, 0, 0)

  function Rewrite(m: Mapping, p: Packet, dir: Direction): Packet {
    if dir.In? then p.(dst := m.internal) else p.(src := m.external)
  }

  /** The statistics kept of the connection. */
  function Touch(m: Mapping, p: Packet, dir: Direction): Mapping {
    var c := m.conn;
    m.(updateTime := 0, conn :=
      if dir.In? then
        c.(externalFin := p.fin,
           externalSeqEnd := Max(p.seqNo, c.externalSeqEnd), externalAck := Max(p.ackNo, c.externalAck))
      else
        c.(internalFin := p.fin,
           internalSeqEnd := Max(p.seqNo, c.internalSeqEnd), internalAck := Max(p.ackNo, c.internalAck)))
  }

  predicate Shape(t: Table) {
    |t.buckets| == HASH_8BITS && |t.inUse| == PORTS
  }

  function Empty(): Table {
    Table(seq(HASH_8BITS, _ => []), seq(PORTS, _ => false))
  }

  /** A mapping for a packet that matches none: from the first rule on the way
      in, with the first free port on the way out. */
  function Create(c: Config, t: Table, p: Packet, dir: Direction): (r: (Table, Outcome))
    requires Shape(t)
    ensures Shape(r.0)
  {
    var k := Key(Remote(p, dir));
    if dir.In? then
      var i := FindRule(c.rules, p.dst, 0);
      if i == |c.rules| then (t, NoRule)
      else
        var m := Mapping(p.src, c.rules[i].internal, p.dst, 0, NEW_CONNECTION);
        (t.(buckets := t.buckets[k := t.buckets[k] + [Touch(m, p, dir)]]), Forwarded(Rewrite(m, p, dir)))
    else
      var port := FindPort(t.inUse, NAT_PORT_MIN);
      if port > NAT_PORT_MAX then (t, NoPort)
      else
        var m := Mapping(p.dst, p.src, Endpoint(c.externalIp, port), 0, NEW_CONNECTION);
        (Table(t.buckets[k := t.buckets[k] + [Touch(m, p, dir)]], t.inUse[port := true]), Forwarded(Rewrite(m, p, dir)))
  }

  /** do_translation. */
  function Translate(c: Config, t: Table, p: Packet, dir: Direction): (r: (Table, Outcome))
    requires Shape(t)
    ensures Shape(r.0)
  {
    var k := Key(Remote(p, dir));
    var i := Find(t.buckets[k], p, dir, 0);
    if i < |t.buckets[k]| then
      var m := t.buckets[k][i];
      (t.(buckets := t.buckets[k := t.buckets[k][i := Touch(m, p, dir)]]), Forwarded(Rewrite(m, p, dir)))
    else Create(c, t, p, dir)
  }

  // ---------------------------------------------------------------------
  // The sweep
  // ---------------------------------------------------------------------

  predicate Finished(c: Connection) {
    c.internalFin && c.externalFin && c.internalAck >= c.externalSeqEnd && c.externalAck >= c.internalSeqEnd
  }

  function Tick(m: Mapping): Mapping {
    m.(updateTime := m.updateTime + 1)
  }

  predicate Expires(m: Mapping) {
    m.updateTime + 1 >= TCP_ESTABLISHED_TIMEOUT || Finished(m.conn)
  }

  function Kept(bucket: seq<Mapping>): seq<Mapping> {
    if bucket == [] then []
    else (if Expires(bucket[0]) then [] else [Tick(bucket[0])]) + Kept(bucket[1..])
  }

  lemma EntrySwept(was: seq<Mapping>, i: nat, now: seq<Mapping>, next: nat)
    requires i < |was| && next == if Expires(was[i]) then i else i + 1
    requires now == was[..i] + (if Expires(was[i]) then [] else [Tick(was[i])]) + was[i + 1..]
    ensures next <= |now| && now[next..] == was[i..][1..]
    ensures now[..next] + Kept(was[i..][1..]) == was[..i] + Kept(was[i..])
  {
  }

  function Freed(bucket: seq<Mapping>, inUse: seq<bool>): (r: seq<bool>)
    requires |inUse| == PORTS
    ensures |r| == PORTS
  {
    if bucket == [] then inUse
    else Freed(bucket[1..], if Expires(bucket[0]) then inUse[bucket[0].external.port := false] else inUse)
  }

  function FreedAll(buckets: seq<seq<Mapping>>, inUse: seq<bool>): (r: seq<bool>)
    requires |inUse| == PORTS
    ensures |r| == PORTS
  {
    if buckets == [] then inUse else FreedAll(buckets[1..], Freed(buckets[0], inUse))
  }

  function Sweep(t: Table): (r: Table)
    requires Shape(t)
    ensures Shape(r)
  {
    Table(seq(HASH_8BITS, i requires 0 <= i < HASH_8BITS => Kept(t.buckets[i])), FreedAll(t.buckets, t.inUse))
  }

  // ---------------------------------------------------------------------
  // The table, updated in place
  // ---------------------------------------------------------------------

  class NatTable {
    const config: Config
    const buckets: array<seq<Mapping>>
    const inUse: array<bool>

    ghost predicate Valid()
      reads this
    {
      buckets.Length == HASH_8BITS && inUse.Length == PORTS
    }

    ghost function View(): (t: Table)
      requires Valid()
      reads this, buckets, inUse
      ensures Shape(t)
    {
      Table(buckets[..], inUse[..])
    }

    constructor (c: Config)
      ensures Valid() && config == c && fresh(buckets) && fresh(inUse)
      ensures View() == Empty()
    {
      config := c;
      buckets := new seq<Mapping>[HASH_8BITS](_ => []);
      inUse := new bool[PORTS](_ => false);
    }

    method Lookup(k: nat, p: Packet, dir: Direction) returns (i: nat)
      requires Valid() && k < HASH_8BITS
      ensures i == Find(buckets[k], p, dir, 0)
    {
      i := 0;
      while i < |buckets[k]| && !Matches(buckets[k][i], p, dir)
        invariant i <= |buckets[k]| && Find(buckets[k], p, dir, i) == Find(buckets[k], p, dir, 0)
      {
        i := i + 1;
      }
    }

    method LookupRule(external: Endpoint) returns (i: nat)
      ensures i == FindRule(config.rules, external, 0)
    {
      i := 0;
      while i < |config.rules| && config.rules[i].external != external
        invariant i <= |config.rules| && FindRule(config.rules, external, i) == FindRule(config.rules, external, 0)
      {
        i := i + 1;
      }
    }

    method LookupPort() returns (i: nat)
      requires Valid()
      ensures i == FindPort(inUse[..], NAT_PORT_MIN)
    {
      i := NAT_PORT_MIN;
      while i <= NAT_PORT_MAX && inUse[i]
        invariant NAT_PORT_MIN <= i <= NAT_PORT_MAX + 1
        invariant FindPort(inUse[..], i) == FindPort(inUse[..], NAT_PORT_MIN)
        decreases NAT_PORT_MAX + 1 - i
      {
        i := i + 1;
      }
    }

    method NewMapping(p: Packet, dir: Direction) returns (outcome: Outcome)
      requires Valid()
      modifies buckets, inUse
      ensures (View(), outcome) == Create(config, old(View()), p, dir)
    {
      var k := Key(Remote(p, dir));
      var m: Mapping;
      if dir.In? {
        var i := LookupRule(p.dst);
        if i == |config.rules| {
          return NoRule;
        }
        m := Mapping(p.src, config.rules[i].internal, p.dst, 0, NEW_CONNECTION);
      } else {
        var i := LookupPort();
        if i > NAT_PORT_MAX {
          return NoPort;
        }
        inUse[i] := true;
        m := Mapping(p.dst, p.src, Endpoint(config.externalIp, i), 0, NEW_CONNECTION);
      }
      buckets[k] := buckets[k] + [Touch(m, p, dir)];
      outcome := Forwarded(Rewrite(m, p, dir));
    }

    method DoTranslation(p: Packet, dir: Direction) returns (outcome: Outcome)
      requires Valid()
      modifies buckets, inUse
      ensures (View(), outcome) == Translate(config, old(View()), p, dir)
    {
      var k := Key(Remote(p, dir));
      var i := Lookup(k, p, dir);
      if i == |buckets[k]| {
        outcome := NewMapping(p, dir);
      } else {
        var m := buckets[k][i];
        buckets[k] := buckets[k][i := Touch(m, p, dir)];
        outcome := Forwarded(Rewrite(m, p, dir));
      }
    }

    /** One entry of a bucket: ticked, and unlinked when it has expired. */
    method SweepEntry(k: nat, i: nat) returns (next: nat)
      requires Valid() && k < HASH_8BITS && i < |buckets[k]|
      modifies buckets, inUse
      ensures k < |buckets[..]| && i < |old(buckets[k])|
      ensures var b := old(buckets[k]);
        && buckets[..] == old(buckets[..])[k := b[..i] + (if Expires(b[i]) then [] else [Tick(b[i])]) + b[i + 1..]]
        && next == (if Expires(b[i]) then i else i + 1)
        && inUse[..] == if Expires(b[i]) then old(inUse[..])[b[i].external.port := false] else old(inUse[..])
    {
      var m := Tick(buckets[k][i]);
      ghost var b := buckets[k];
      assert b[i := m] == b[..i] + [m] + b[i + 1..];
      assert b[..i] + [] + b[i + 1..] == b[..i] + b[i + 1..];
      if m.updateTime >= TCP_ESTABLISHED_TIMEOUT || Finished(m.conn) {
        buckets[k] := buckets[k][..i] + buckets[k][i + 1..];
        inUse[m.external.port] := false;
        next := i;
      } else {
        buckets[k] := buckets[k][i := m];
        next := i + 1;
      }
    }

    /** The inner loop of the sweep. */
    method SweepBucket(k: nat)
      requires Valid() && k < HASH_8BITS
      modifies buckets, inUse
      ensures buckets[..] == old(buckets[..])[k := Kept(old(buckets[k]))]
      ensures inUse[..] == Freed(old(buckets[k]), old(inUse[..]))
    {
      var i: nat := 0;
      ghost var rest := buckets[k];
      assert [] + Kept(rest) == Kept(rest);
      while i < |buckets[k]|
        invariant i <= |buckets[k]| && rest == buckets[k][i..]
        invariant buckets[..] == old(buckets[..])[k := buckets[k]]
        invariant buckets[k][..i] + Kept(rest) == Kept(old(buckets[k]))
        invariant Freed(rest, inUse[..]) == Freed(old(buckets[k]), old(inUse[..]))
        decreases |rest|
      {
        ghost var was, at := buckets[k], i;
        i := SweepEntry(k, i);
        EntrySwept(was, at, buckets[k], i);
        rest := rest[1..];
      }
      assert rest == [] && buckets[k][..i] + Kept(rest) == buckets[k];
    }

    method SweepAll()
      requires Valid()
      modifies buckets, inUse
      ensures View() == Sweep(old(View()))
    {
      ghost var was := buckets[..];
      assert was[0..] == was;
      for i := 0 to HASH_8BITS
        invariant forall j: nat :: j < i ==> buckets[j] == Kept(was[j])
        invariant forall j: nat :: i <= j < HASH_8BITS ==> buckets[j] == was[j]
        invariant FreedAll(was[i..], inUse[..]) == FreedAll(was, old(inUse[..]))
      {
        assert was[i..][1..] == was[i + 1..];
        SweepBucket(i);
      }
    }
  }
}
