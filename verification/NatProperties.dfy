/** What every run of the translator guarantees. */
module NatProperties {
  import opened Common
  import opened Nat

  datatype Event = Outbound(p: Packet) | Inbound(p: Packet) | SweepNow

  /** Inbound packets are addressed to the external interface. */
  ghost predicate Step(c: Config, t: Table, ev: Event, t': Table)
    requires Shape(t)
  {
    match ev
    case Outbound(p) => t' == Translate(c, t, p, Out).0
    case Inbound(p) => p.dst.ip == c.externalIp && t' == Translate(c, t, p, In).0
    case SweepNow => t' == Sweep(t)
  }

  ghost predicate Run(c: Config, tr: seq<Table>, evs: seq<Event>) {
    && |tr| == |evs| + 1
    && tr[0] == Empty()
    && (forall k: nat :: k < |tr| ==> Shape(tr[k]))
    && (forall k: nat :: k < |evs| ==> Step(c, tr[k], evs[k], tr[k + 1]))
  }

  ghost predicate Reachable(c: Config, t: Table) {
    exists tr: seq<Table>, evs: seq<Event> :: Run(c, tr, evs) && tr[|evs|] == t
  }

  /** No static rule uses a port that the translator hands out. */
  ghost predicate RulesOutsidePool(c: Config) {
    forall r :: r in c.rules && r.external.ip == c.externalIp ==> !InPool(r.external.port)
  }

  predicate LiveAt(t: Table, k: nat, i: nat) {
    k < |t.buckets| && i < |t.buckets[k]|
  }

  ghost predicate Holds(t: Table, port: u16, k: nat, i: nat) {
    LiveAt(t, k, i) && t.buckets[k][i].external.port == port
  }

  ghost predicate Held(t: Table, port: u16) {
    exists k: nat, i: nat :: Holds(t, port, k, i)
  }

  predicate Placed(c: Config, m: Mapping, k: nat) {
    Key(m.remote) == k && m.external.ip == c.externalIp
  }

  predicate Clash(a: Mapping, b: Mapping) {
    a.remote == b.remote && a.external == b.external
  }

  /** At most one mapping for a remote and an external endpoint. */
  ghost predicate NoClash(bucket: seq<Mapping>) {
    forall i: nat, j: nat :: i < j < |bucket| ==> !Clash(bucket[i], bucket[j])
  }

  ghost predicate PortOk(t: Table, port: u16)
    requires Shape(t)
  {
    && (t.inUse[port] <==> Held(t, port))
    && (forall k: nat, i: nat, l: nat, j: nat :: Holds(t, port, k, i) && Holds(t, port, l, j) ==> k == l && i == j)
  }

  ghost predicate Inv(c: Config, t: Table) {
    && Shape(t)
    && (forall k: nat, i: nat :: LiveAt(t, k, i) ==> Placed(c, t.buckets[k][i], k))
    && (forall k: nat :: k < HASH_8BITS ==> NoClash(t.buckets[k]))
    && (forall port: u16 :: InPool(port) ==> PortOk(t, port))
  }

  // ---------------------------------------------------------------------
  // Translation keeps the invariant
  // ---------------------------------------------------------------------

  predicate SameAddresses(a: Mapping, b: Mapping) {
    a.remote == b.remote && a.internal == b.internal && a.external == b.external
  }

  lemma TouchKeepsInv(c: Config, t: Table, k: nat, i: nat, m: Mapping, t': Table)
    requires Inv(c, t) && LiveAt(t, k, i) && SameAddresses(t.buckets[k][i], m)
    requires t' == t.(buckets := t.buckets[k := t.buckets[k][i := m]])
    ensures Inv(c, t')
  {
    assert forall l: nat, j: nat :: LiveAt(t', l, j) <==> LiveAt(t, l, j);
    assert forall l: nat, j: nat :: LiveAt(t, l, j) ==> SameAddresses(t.buckets[l][j], t'.buckets[l][j]);
    forall port: u16 | InPool(port) ensures PortOk(t', port) {
      assert PortOk(t, port);
      assert forall l: nat, j: nat :: Holds(t', port, l, j) <==> Holds(t, port, l, j);
    }
  }

  lemma AppendKeepsInv(c: Config, t: Table, k: nat, m: Mapping, t': Table)
    requires Inv(c, t) && k < HASH_8BITS && Placed(c, m, k)
    requires forall i: nat :: i < |t.buckets[k]| ==> !Clash(t.buckets[k][i], m)
    requires t'.buckets == t.buckets[k := t.buckets[k] + [m]]
    requires if InPool(m.external.port) then !t.inUse[m.external.port] && t'.inUse == t.inUse[m.external.port := true]
             else t'.inUse == t.inUse
    ensures Inv(c, t')
  {
    var n := |t.buckets[k]|;
    assert forall l: nat, j: nat :: LiveAt(t', l, j) <==> LiveAt(t, l, j) || (l == k && j == n);
    forall port: u16 | InPool(port) ensures PortOk(t', port) {
      assert PortOk(t, port);
      assert forall l: nat, j: nat ::
        Holds(t', port, l, j) <==> Holds(t, port, l, j) || (l == k && j == n && m.external.port == port);
      if m.external.port == port {
        assert Holds(t', port, k, n);
      } else if Held(t, port) {
        var l: nat, j: nat :| Holds(t, port, l, j);
        assert Holds(t', port, l, j);
      }
    }
  }

  lemma TranslateKeepsInv(c: Config, t: Table, p: Packet, dir: Direction)
    requires Inv(c, t) && RulesOutsidePool(c) && (dir.In? ==> p.dst.ip == c.externalIp)
    ensures Inv(c, Translate(c, t, p, dir).0)
  {
    var k := Key(Remote(p, dir));
    var i := Find(t.buckets[k], p, dir, 0);
    var t' := Translate(c, t, p, dir).0;
    if i < |t.buckets[k]| {
      TouchKeepsInv(c, t, k, i, Touch(t.buckets[k][i], p, dir), t');
    } else if dir.In? {
      var r := FindRule(c.rules, p.dst, 0);
      if r < |c.rules| {
        assert c.rules[r] in c.rules;
        AppendKeepsInv(c, t, k, Touch(Mapping(p.src, c.rules[r].internal, p.dst, 0, NEW_CONNECTION), p, dir), t');
      }
    } else {
      var port := FindPort(t.inUse, NAT_PORT_MIN);
      if port <= NAT_PORT_MAX {
        var m := Touch(Mapping(p.dst, p.src, Endpoint(c.externalIp, port), 0, NEW_CONNECTION), p, dir);
        assert PortOk(t, port);
        forall j: nat | j < |t.buckets[k]| ensures !Clash(t.buckets[k][j], m) {
          assert !Holds(t, port, k, j);
        }
        AppendKeepsInv(c, t, k, m, t');
      }
    }
  }

  // ---------------------------------------------------------------------
  // The sweep keeps the invariant
  // ---------------------------------------------------------------------

  /** The place in the bucket that the j-th kept entry comes from. */
  ghost function Origin(bucket: seq<Mapping>, j: nat): (i: nat)
    requires j < |Kept(bucket)|
    ensures i < |bucket| && !Expires(bucket[i]) && Kept(bucket)[j] == Tick(bucket[i])
  {
    if Expires(bucket[0]) then 1 + Origin(bucket[1..], j)
    else if j == 0 then 0
    else 1 + Origin(bucket[1..], j - 1)
  }

  lemma {:induction false} OriginIncreases(bucket: seq<Mapping>, i: nat, j: nat)
    requires i < j < |Kept(bucket)|
    ensures Origin(bucket, i) < Origin(bucket, j)
  {
    if Expires(bucket[0]) {
      OriginIncreases(bucket[1..], i, j);
    } else if i > 0 {
      OriginIncreases(bucket[1..], i - 1, j - 1);
    }
  }

  lemma {:induction false} SurvivorKept(bucket: seq<Mapping>, i: nat) returns (j: nat)
    requires i < |bucket| && !Expires(bucket[i])
    ensures j < |Kept(bucket)| && Kept(bucket)[j] == Tick(bucket[i]) && Origin(bucket, j) == i
  {
    if i == 0 {
      j := 0;
    } else {
      j := SurvivorKept(bucket[1..], i - 1);
      if !Expires(bucket[0]) {
        j := j + 1;
      }
    }
  }

  lemma {:induction false} FreedExactly(bucket: seq<Mapping>, inUse: seq<bool>, port: u16)
    requires |inUse| == PORTS
    ensures Freed(bucket, inUse)[port] <==>
      inUse[port] && forall i: nat :: i < |bucket| && Expires(bucket[i]) ==> bucket[i].external.port != port
  {
    if bucket != [] {
      var rest := bucket[1..];
      FreedExactly(rest, if Expires(bucket[0]) then inUse[bucket[0].external.port := false] else inUse, port);
      assert forall i: nat :: 0 < i < |bucket| ==> bucket[i] == rest[i - 1];
      assert forall i: nat :: i < |rest| ==> rest[i] == bucket[i + 1];
    }
  }

  ghost predicate NoExpiredHolder(bucket: seq<Mapping>, port: u16) {
    forall i: nat :: i < |bucket| && Expires(bucket[i]) ==> bucket[i].external.port != port
  }

  lemma {:induction false} FreedAllExactly(buckets: seq<seq<Mapping>>, inUse: seq<bool>, port: u16)
    requires |inUse| == PORTS
    ensures FreedAll(buckets, inUse)[port] <==>
      inUse[port] && forall k: nat :: k < |buckets| ==> NoExpiredHolder(buckets[k], port)
  {
    if buckets != [] {
      var rest := buckets[1..];
      FreedExactly(buckets[0], inUse, port);
      FreedAllExactly(rest, Freed(buckets[0], inUse), port);
      assert forall k: nat :: 0 < k < |buckets| ==> buckets[k] == rest[k - 1];
      assert forall k: nat :: k < |rest| ==> rest[k] == buckets[k + 1];
    }
  }

  lemma SweepKeepsPort(t: Table, port: u16)
    requires Shape(t) && PortOk(t, port)
    ensures PortOk(Sweep(t), port)
  {
    var t' := Sweep(t);
    FreedAllExactly(t.buckets, t.inUse, port);
    forall k: nat, i: nat, l: nat, j: nat | Holds(t', port, k, i) && Holds(t', port, l, j)
      ensures k == l && i == j
    {
      assert Holds(t, port, k, Origin(t.buckets[k], i)) && Holds(t, port, l, Origin(t.buckets[l], j));
      if i < j {
        OriginIncreases(t.buckets[k], i, j);
      } else if j < i {
        OriginIncreases(t.buckets[k], j, i);
      }
    }
    if t'.inUse[port] {
      var k: nat, i: nat :| Holds(t, port, k, i);
      assert NoExpiredHolder(t.buckets[k], port);
      var j := SurvivorKept(t.buckets[k], i);
      assert Holds(t', port, k, j);
    }
    if Held(t', port) {
      var k: nat, j: nat :| Holds(t', port, k, j);
      var i := Origin(t.buckets[k], j);
      assert Holds(t, port, k, i);
      forall l: nat | l < |t.buckets| ensures NoExpiredHolder(t.buckets[l], port) {
        forall x: nat | x < |t.buckets[l]| && Expires(t.buckets[l][x]) ensures t.buckets[l][x].external.port != port {
          assert Holds(t, port, l, x) ==> l == k && x == i;
        }
      }
    }
  }

  lemma SweepKeepsInv(c: Config, t: Table)
    requires Inv(c, t)
    ensures Inv(c, Sweep(t))
  {
    var t' := Sweep(t);
    forall k: nat, i: nat | LiveAt(t', k, i) ensures Placed(c, t'.buckets[k][i], k) {
      assert LiveAt(t, k, Origin(t.buckets[k], i));
    }
    forall k: nat | k < HASH_8BITS ensures NoClash(t'.buckets[k]) {
      forall i: nat, j: nat | i < j < |t'.buckets[k]| ensures !Clash(t'.buckets[k][i], t'.buckets[k][j]) {
        OriginIncreases(t.buckets[k], i, j);
        assert NoClash(t.buckets[k]);
      }
    }
    forall port: u16 | InPool(port) ensures PortOk(t', port) {
      SweepKeepsPort(t, port);
    }
  }

  // ---------------------------------------------------------------------
  // All runs
  // ---------------------------------------------------------------------

  lemma EmptyInv(c: Config)
    ensures Inv(c, Empty())
  {
  }

  lemma StepKeepsInv(c: Config, t: Table, ev: Event, t': Table)
    requires Inv(c, t) && RulesOutsidePool(c) && Step(c, t, ev, t')
    ensures Inv(c, t')
  {
    match ev
    case Outbound(p) => TranslateKeepsInv(c, t, p, Out);
    case Inbound(p) => TranslateKeepsInv(c, t, p, In);
    case SweepNow => SweepKeepsInv(c, t);
  }

  lemma {:induction false} RunInv(c: Config, tr: seq<Table>, evs: seq<Event>, k: nat)
    requires RulesOutsidePool(c) && Run(c, tr, evs) && k <= |evs|
    ensures Inv(c, tr[k])
  {
    if k == 0 {
      EmptyInv(c);
    } else {
      RunInv(c, tr, evs, k - 1);
      StepKeepsInv(c, tr[k - 1], evs[k - 1], tr[k]);
    }
  }

  lemma ReachableInv(c: Config, t: Table)
    requires RulesOutsidePool(c) && Reachable(c, t)
    ensures Inv(c, t)
  {
    var tr: seq<Table>, evs: seq<Event> :| Run(c, tr, evs) && tr[|evs|] == t;
    RunInv(c, tr, evs, |evs|);
  }

  // ---------------------------------------------------------------------
  // The port pool
  // ---------------------------------------------------------------------

  /** A pool port is marked exactly when one live mapping holds it. */
  ghost predicate PoolConserved(t: Table) {
    Shape(t) && forall port: u16 :: InPool(port) ==> PortOk(t, port)
  }

  /** A rule on a pool port breaks conservation with the first packet it admits. */
  lemma RuleInPoolBreaks(c: Config, r: Rule) returns (t: Table)
    requires r in c.rules && r.external.ip == c.externalIp && InPool(r.external.port)
    ensures Reachable(c, t) && !PoolConserved(t)
  {
    var p := Packet(Endpoint(0, 0), r.external, 0, 0, false);
    var k := Key(p.src);
    t := Translate(c, Empty(), p, In).0;
    var i: nat :| i < |c.rules| && c.rules[i] == r;
    assert FindRule(c.rules, p.dst, 0) <= i;
    assert Holds(t, r.external.port, k, 0);
    assert !t.inUse[r.external.port];
    assert Step(c, Empty(), Inbound(p), t);
    assert Run(c, [Empty(), t], [Inbound(p)]);
    assert [Empty(), t][|[Inbound(p)]|] == t;
  }

  /** The pool is conserved in every run if and only if no rule uses one of its ports. */
  lemma PoolConservedIffRulesOutside(c: Config)
    ensures (forall t :: Reachable(c, t) ==> PoolConserved(t)) <==> RulesOutsidePool(c)
  {
    if RulesOutsidePool(c) {
      forall t | Reachable(c, t) ensures PoolConserved(t) {
        ReachableInv(c, t);
      }
    } else {
      var r :| r in c.rules && r.external.ip == c.externalIp && InPool(r.external.port);
      var t := RuleInPoolBreaks(c, r);
    }
  }

  ghost predicate PoolHeld(t: Table) {
    forall port: u16 :: InPool(port) ==> Held(t, port)
  }

  ghost predicate Unmatched(t: Table, p: Packet, dir: Direction) {
    forall k: nat, i: nat :: LiveAt(t, k, i) ==> !Matches(t.buckets[k][i], p, dir)
  }

  /** Looking into one bucket is enough. */
  lemma OneBucketSuffices(c: Config, t: Table, p: Packet, dir: Direction)
    requires Inv(c, t)
    ensures var b := t.buckets[Key(Remote(p, dir))]; Find(b, p, dir, 0) == |b| <==> Unmatched(t, p, dir)
  {
  }

  lemma NoFreePort(c: Config, t: Table)
    requires Inv(c, t)
    ensures FindPort(t.inUse, NAT_PORT_MIN) > NAT_PORT_MAX <==> PoolHeld(t)
  {
    var f := FindPort(t.inUse, NAT_PORT_MIN);
    if f <= NAT_PORT_MAX {
      assert PortOk(t, f);
    } else {
      forall port: u16 | InPool(port) ensures Held(t, port) {
        assert PortOk(t, port);
      }
    }
  }

  /** A packet on its way out is refused exactly when it belongs to no mapping
      and every pool port is held by one. */
  lemma RefusedIffPoolHeld(c: Config, t: Table, p: Packet)
    requires RulesOutsidePool(c) && Reachable(c, t)
    ensures Shape(t)
    ensures Translate(c, t, p, Out).1 == NoPort <==> Unmatched(t, p, Out) && PoolHeld(t)
  {
    ReachableInv(c, t);
    OneBucketSuffices(c, t, p, Out);
    NoFreePort(c, t);
  }

  predicate IsFirstRule(c: Config, external: Endpoint, i: nat) {
    i < |c.rules| && c.rules[i].external == external && forall j: nat :: j < i ==> c.rules[j].external != external
  }

  /** Index i of bucket k holds the new mapping m, at the end of the bucket, and
      nothing else in the buckets has changed. */
  predicate NewAt(t: Table, t': Table, k: nat, m: Mapping) {
    && k < |t.buckets| == |t'.buckets|
    && t'.buckets == t.buckets[k := t.buckets[k] + [m]]
  }

  /** A packet on its way in that belongs to no mapping goes where the first rule
      for its destination says, and leaves a mapping that has recorded just it;
      without a rule it is refused. */
  lemma UnmatchedInbound(c: Config, t: Table, p: Packet) returns (k: nat)
    requires RulesOutsidePool(c) && Reachable(c, t) && Unmatched(t, p, In)
    ensures Shape(t)
    ensures (forall i: nat :: i < |c.rules| ==> c.rules[i].external != p.dst) ==> Translate(c, t, p, In) == (t, NoRule)
    ensures forall i: nat :: IsFirstRule(c, p.dst, i) ==>
      var r, internal := Translate(c, t, p, In), c.rules[i].internal;
      && r.1 == Forwarded(p.(dst := internal)) && r.0.inUse == t.inUse
      && NewAt(t, r.0, k, Mapping(p.src, internal, p.dst, 0, Connection(false, p.fin, 0, p.seqNo, 0, p.ackNo)))
  {
    ReachableInv(c, t);
    OneBucketSuffices(c, t, p, In);
    k := Key(p.src);
    forall i: nat | IsFirstRule(c, p.dst, i) ensures FindRule(c.rules, p.dst, 0) == i {
    }
  }

  /** A packet on its way out that belongs to no mapping takes the first free port
      of the pool and leaves a mapping that has recorded just it. */
  lemma UnmatchedOutbound(c: Config, t: Table, p: Packet) returns (k: nat)
    requires RulesOutsidePool(c) && Reachable(c, t) && Unmatched(t, p, Out)
    ensures Shape(t)
    ensures PoolHeld(t) ==> Translate(c, t, p, Out) == (t, NoPort)
    ensures forall port: u16 ::
      InPool(port) && !Held(t, port) && (forall q: u16 :: InPool(q) && q < port ==> Held(t, q)) ==>
      var r, external := Translate(c, t, p, Out), Endpoint(c.externalIp, port);
      && r.1 == Forwarded(p.(src := external)) && r.0.inUse == t.inUse[port := true]
      && NewAt(t, r.0, k, Mapping(p.dst, p.src, external, 0, Connection(p.fin, false, p.seqNo, 0, p.ackNo, 0)))
  {
    ReachableInv(c, t);
    OneBucketSuffices(c, t, p, Out);
    NoFreePort(c, t);
    k := Key(p.dst);
    forall port: u16 | InPool(port) && !Held(t, port) && (forall q: u16 :: InPool(q) && q < port ==> Held(t, q))
      ensures FindPort(t.inUse, NAT_PORT_MIN) == port
    {
      FirstFreePort(c, t, port);
    }
  }

  lemma FirstFreePort(c: Config, t: Table, port: u16)
    requires Inv(c, t) && InPool(port) && !Held(t, port) && forall q: u16 :: InPool(q) && q < port ==> Held(t, q)
    ensures FindPort(t.inUse, NAT_PORT_MIN) == port
  {
    var f := FindPort(t.inUse, NAT_PORT_MIN);
    assert PortOk(t, port);
    assert InPool(f) ==> PortOk(t, f);
  }

  // ---------------------------------------------------------------------
  // Replies
  // ---------------------------------------------------------------------

  ghost predicate IsMapping(t: Table, k: nat, i: nat, remote: Endpoint, internal: Endpoint, external: Endpoint) {
    LiveAt(t, k, i) && var m := t.buckets[k][i]; m.remote == remote && m.internal == internal && m.external == external
  }

  ghost predicate Lives(t: Table, remote: Endpoint, internal: Endpoint, external: Endpoint) {
    exists k: nat, i: nat :: IsMapping(t, k, i, remote, internal, external)
  }

  /** A remote and an external endpoint determine the mapping. */
  lemma MappingIsUnique(c: Config, t: Table, k: nat, i: nat, l: nat, j: nat)
    requires RulesOutsidePool(c) && Reachable(c, t)
    requires LiveAt(t, k, i) && LiveAt(t, l, j) && Clash(t.buckets[k][i], t.buckets[l][j])
    ensures k == l && i == j
  {
    ReachableInv(c, t);
    assert Placed(c, t.buckets[k][i], k) && Placed(c, t.buckets[l][j], l);
    assert NoClash(t.buckets[k]);
  }

  /** A forwarded outbound packet leaves behind the mapping that rewrote it. */
  lemma OutboundLeavesMapping(c: Config, t: Table, p: Packet)
    requires Shape(t) && Translate(c, t, p, Out).1.Forwarded?
    ensures var r := Translate(c, t, p, Out);
      r.1.packet == p.(src := r.1.packet.src) && Lives(r.0, p.dst, p.src, r.1.packet.src)
  {
    var k := Key(p.dst);
    var i := Find(t.buckets[k], p, Out, 0);
    var r := Translate(c, t, p, Out);
    assert IsMapping(r.0, k, i, p.dst, p.src, r.1.packet.src);
  }

  /** While a mapping lives, what its remote sends to its external endpoint goes
      to its internal endpoint, in every reachable state. */
  lemma ReplyReachesSender(c: Config, t: Table, internal: Endpoint, p: Packet)
    requires RulesOutsidePool(c) && Reachable(c, t) && Lives(t, p.src, internal, p.dst)
    ensures Shape(t) && Translate(c, t, p, In).1 == Forwarded(p.(dst := internal))
  {
    ReachableInv(c, t);
    var k: nat, i: nat :| IsMapping(t, k, i, p.src, internal, p.dst);
    assert Placed(c, t.buckets[k][i], k);
    var j := Find(t.buckets[k], p, In, 0);
    assert Matches(t.buckets[k][i], p, In);
    MappingIsUnique(c, t, k, i, k, j);
  }

  /** Translations never remove or redirect a mapping; the sweep removes exactly
      the expired ones. */
  lemma MappingStays(c: Config, t: Table, ev: Event, t': Table, k: nat, i: nat)
    requires Shape(t) && Step(c, t, ev, t') && LiveAt(t, k, i)
    requires ev.SweepNow? ==> !Expires(t.buckets[k][i])
    ensures var m := t.buckets[k][i]; Lives(t', m.remote, m.internal, m.external)
  {
    var m := t.buckets[k][i];
    if ev.SweepNow? {
      var j := SurvivorKept(t.buckets[k], i);
      assert IsMapping(t', k, j, m.remote, m.internal, m.external);
    } else {
      assert IsMapping(t', k, i, m.remote, m.internal, m.external);
    }
  }

  /** An expired mapping is gone after the sweep, and its pool port is free. */
  lemma ExpiredIsReleased(c: Config, t: Table, k: nat, i: nat)
    requires RulesOutsidePool(c) && Reachable(c, t) && LiveAt(t, k, i) && Expires(t.buckets[k][i])
    ensures Shape(t)
    ensures var m := t.buckets[k][i];
      && !Lives(Sweep(t), m.remote, m.internal, m.external)
      && (InPool(m.external.port) ==> !Sweep(t).inUse[m.external.port] && !Held(Sweep(t), m.external.port))
  {
    ReachableInv(c, t);
    var m, t' := t.buckets[k][i], Sweep(t);
    if Lives(t', m.remote, m.internal, m.external) {
      var l: nat, j: nat :| IsMapping(t', l, j, m.remote, m.internal, m.external);
      MappingIsUnique(c, t, k, i, l, Origin(t.buckets[l], j));
      assert false;
    }
    if InPool(m.external.port) {
      FreedAllExactly(t.buckets, t.inUse, m.external.port);
      assert !NoExpiredHolder(t.buckets[k], m.external.port);
      SweepKeepsPort(t, m.external.port);
    }
  }

  function Sweeps(t: Table, n: nat): (r: Table)
    requires Shape(t)
    ensures Shape(r)
  {
    if n == 0 then t else Sweep(Sweeps(t, n - 1))
  }

  /** An unfinished mapping outlives 59 silent sweeps and not the 60th. */
  lemma {:induction false} SilentSweeps(t: Table, k: nat, i: nat, n: nat) returns (j: nat)
    requires Shape(t) && LiveAt(t, k, i) && t.buckets[k][i].updateTime == 0 && !Finished(t.buckets[k][i].conn)
    requires n < 60
    ensures LiveAt(Sweeps(t, n), k, j)
    ensures Sweeps(t, n).buckets[k][j] == t.buckets[k][i].(updateTime := n)
    ensures n == 59 ==> Expires(Sweeps(t, n).buckets[k][j])
  {
    if n == 0 {
      j := i;
    } else {
      j := SilentSweeps(t, k, i, n - 1);
      j := SurvivorKept(Sweeps(t, n - 1).buckets[k], j);
    }
  }

  // ---------------------------------------------------------------------
  // One flow among many
  // ---------------------------------------------------------------------

  predicate SameFlow(a: Mapping, b: Mapping) {
    a.remote == b.remote && a.internal == b.internal
  }

  /** m is the entry that outbound packets of its flow find. */
  predicate FirstAt(t: Table, k: nat, j: nat, m: Mapping) {
    LiveAt(t, k, j) && t.buckets[k][j] == m && forall i: nat :: i < j ==> !SameFlow(t.buckets[k][i], m)
  }

  /** What the events of a run make of a mapping if only its own packets and the
      sweeps count. */
  function Own(m: Mapping, ev: Event): Mapping {
    match ev
    case Outbound(p) => if Matches(m, p, Out) then Touch(m, p, Out) else m
    case Inbound(p) => if Matches(m, p, In) then Touch(m, p, In) else m
    case SweepNow => Tick(m)
  }

  function Alone(m: Mapping, evs: seq<Event>, a: nat, k: nat): (r: Mapping)
    requires a <= k <= |evs|
    ensures SameAddresses(m, r)
  {
    if k == a then m else Own(Alone(m, evs, a, k - 1), evs[k - 1])
  }

  /** The sweeps since the flow's last packet. */
  function Silence(m: Mapping, evs: seq<Event>, a: nat, k: nat): nat
    requires a <= k <= |evs|
  {
    if k == a then 0
    else
      match evs[k - 1]
      case SweepNow => Silence(m, evs, a, k - 1) + 1
      case Outbound(p) => if Matches(m, p, Out) then 0 else Silence(m, evs, a, k - 1)
      case Inbound(p) => if Matches(m, p, In) then 0 else Silence(m, evs, a, k - 1)
  }

  lemma {:induction false} UpdateTimeIsSilence(m: Mapping, evs: seq<Event>, a: nat, k: nat)
    requires a <= k <= |evs| && m.updateTime == 0
    ensures Alone(m, evs, a, k).updateTime == Silence(m, evs, a, k)
  {
    if k > a {
      UpdateTimeIsSilence(m, evs, a, k - 1);
    }
  }

  lemma OwnSweep(t: Table, k: nat, j: nat, m: Mapping) returns (j': nat)
    requires Shape(t) && FirstAt(t, k, j, m) && !Expires(m)
    ensures FirstAt(Sweep(t), k, j', Tick(m))
  {
    j' := SurvivorKept(t.buckets[k], j);
    forall i: nat | i < j' ensures !SameFlow(Sweep(t).buckets[k][i], m) {
      OriginIncreases(t.buckets[k], i, j');
    }
  }

  lemma OwnPacket(c: Config, t: Table, p: Packet, dir: Direction, k: nat, j: nat, m: Mapping)
    requires Inv(c, t) && FirstAt(t, k, j, m)
    ensures FirstAt(Translate(c, t, p, dir).0, k, j, if Matches(m, p, dir) then Touch(m, p, dir) else m)
  {
    assert NoClash(t.buckets[k]) && Placed(c, m, k);
    var i := Find(t.buckets[Key(Remote(p, dir))], p, dir, 0);
    if Matches(m, p, dir) {
      assert i <= j;
      assert i < j && dir.In? ==> Clash(t.buckets[k][i], t.buckets[k][j]);
    }
  }

  lemma OwnStep(c: Config, t: Table, ev: Event, t': Table, k: nat, j: nat, m: Mapping) returns (j': nat)
    requires Inv(c, t) && Step(c, t, ev, t') && FirstAt(t, k, j, m) && (ev.SweepNow? ==> !Expires(m))
    ensures FirstAt(t', k, j', Own(m, ev))
  {
    j' := j;
    match ev
    case Outbound(p) => OwnPacket(c, t, p, Out, k, j, m);
    case Inbound(p) => OwnPacket(c, t, p, In, k, j, m);
    case SweepNow => j' := OwnSweep(t, k, j, m);
  }

  /** No sweep among the events from a on expires it. */
  predicate Unexpired(m: Mapping, evs: seq<Event>, a: nat, k: nat)
    requires a <= k <= |evs|
  {
    k == a || (Unexpired(m, evs, a, k - 1) && (evs[k - 1].SweepNow? ==> !Expires(Alone(m, evs, a, k - 1))))
  }

  /** Flows do not disturb one another: through any run a mapping goes on as if
      only its own packets and the sweeps existed, until a sweep expires it. */
  lemma {:induction false} FlowsAreIndependent(
      c: Config, tr: seq<Table>, evs: seq<Event>, a: nat, b: nat, k: nat, j: nat, m: Mapping) returns (j': nat)
    requires RulesOutsidePool(c) && Run(c, tr, evs) && a <= b <= |evs| && FirstAt(tr[a], k, j, m)
    requires Unexpired(m, evs, a, b)
    ensures FirstAt(tr[b], k, j', Alone(m, evs, a, b))
  {
    if b == a {
      j' := j;
    } else {
      j' := FlowsAreIndependent(c, tr, evs, a, b - 1, k, j, m);
      RunInv(c, tr, evs, b - 1);
      j' := OwnStep(c, tr[b - 1], evs[b - 1], tr[b], k, j', Alone(m, evs, a, b - 1));
    }
  }

  lemma RunPrefix(c: Config, tr: seq<Table>, evs: seq<Event>, k: nat)
    requires Run(c, tr, evs) && k <= |evs|
    ensures Reachable(c, tr[k])
  {
    assert Run(c, tr[..k + 1], evs[..k]);
  }

  /** The mapping an outbound packet leaves behind. */
  lemma OutboundStartsFlow(c: Config, t: Table, p: Packet) returns (k: nat, j: nat, m: Mapping)
    requires Shape(t) && Translate(c, t, p, Out).1.Forwarded?
    ensures FirstAt(Translate(c, t, p, Out).0, k, j, m) && m.updateTime == 0
    ensures m.remote == p.dst && m.internal == p.src && m.external == Translate(c, t, p, Out).1.packet.src
  {
    k := Key(p.dst);
    j := Find(t.buckets[k], p, Out, 0);
    m := Translate(c, t, p, Out).0.buckets[k][j];
  }

  lemma OutboundInRun(c: Config, tr: seq<Table>, evs: seq<Event>, a: nat, p: Packet)
    returns (k: nat, j: nat, m: Mapping)
    requires Run(c, tr, evs) && a < |evs| && evs[a] == Outbound(p) && Translate(c, tr[a], p, Out).1.Forwarded?
    ensures FirstAt(tr[a + 1], k, j, m) && m.updateTime == 0
    ensures m.remote == p.dst && m.internal == p.src && m.external == Translate(c, tr[a], p, Out).1.packet.src
  {
    assert Step(c, tr[a], evs[a], tr[a + 1]);
    k, j, m := OutboundStartsFlow(c, tr[a], p);
  }

  /** No sweep finds the flow silent for 59 sweeps already, or finished. */
  predicate StaysAlive(m: Mapping, evs: seq<Event>, a: nat, k: nat)
    requires a <= k <= |evs|
  {
    forall i: nat :: a <= i < k && evs[i].SweepNow? ==>
      Silence(m, evs, a, i) + 1 < TCP_ESTABLISHED_TIMEOUT && !Finished(Alone(m, evs, a, i).conn)
  }

  lemma {:induction false} AliveIsUnexpired(m: Mapping, evs: seq<Event>, a: nat, k: nat)
    requires a <= k <= |evs| && m.updateTime == 0 && StaysAlive(m, evs, a, k)
    ensures Unexpired(m, evs, a, k)
  {
    if k > a {
      AliveIsUnexpired(m, evs, a, k - 1);
      UpdateTimeIsSilence(m, evs, a, k - 1);
    }
  }

  lemma AliveFlow(c: Config, tr: seq<Table>, evs: seq<Event>, a: nat, b: nat, k: nat, j: nat, m: Mapping)
    returns (j': nat)
    requires RulesOutsidePool(c) && Run(c, tr, evs) && a <= b <= |evs|
    requires FirstAt(tr[a], k, j, m) && m.updateTime == 0
    ensures StaysAlive(m, evs, a, b) ==> FirstAt(tr[b], k, j', Alone(m, evs, a, b))
  {
    j' := j;
    if StaysAlive(m, evs, a, b) {
      AliveIsUnexpired(m, evs, a, b);
      j' := FlowsAreIndependent(c, tr, evs, a, b, k, j, m);
    }
  }

  lemma FlowReply(c: Config, t: Table, k: nat, j: nat, m: Mapping, reply: Packet)
    requires RulesOutsidePool(c) && Reachable(c, t) && FirstAt(t, k, j, m)
    requires reply.src == m.remote && reply.dst == m.external
    ensures Shape(t) && Translate(c, t, reply, In).1 == Forwarded(reply.(dst := m.internal))
  {
    assert IsMapping(t, k, j, m.remote, m.internal, m.external);
    ReplyReachesSender(c, t, m.internal, reply);
  }

  /** After an outbound packet, as long as no sweep finds its flow finished or
      silent for 59 sweeps, a reply reaches the sender, whatever other flows and
      the flow itself have sent in between. */
  lemma ReplyWithinTimeout(c: Config, tr: seq<Table>, evs: seq<Event>, a: nat, p: Packet, reply: Packet)
    returns (k: nat, j: nat, m: Mapping)
    requires RulesOutsidePool(c) && Run(c, tr, evs) && a < |evs| && evs[a] == Outbound(p)
    requires Translate(c, tr[a], p, Out).1.Forwarded?
    requires reply.src == p.dst && reply.dst == Translate(c, tr[a], p, Out).1.packet.src
    ensures FirstAt(tr[a + 1], k, j, m) && m.remote == p.dst && m.internal == p.src && m.external == reply.dst
    ensures Shape(tr[|evs|])
    ensures StaysAlive(m, evs, a + 1, |evs|) ==>
      Translate(c, tr[|evs|], reply, In).1 == Forwarded(reply.(dst := p.src))
  {
    k, j, m := OutboundInRun(c, tr, evs, a, p);
    var j' := AliveFlow(c, tr, evs, a + 1, |evs|, k, j, m);
    if StaysAlive(m, evs, a + 1, |evs|) {
      FlowReply(c, tr[|evs|], k, j', Alone(m, evs, a + 1, |evs|), reply);
    }
  }

  /** The sweep that does find it so ends the mapping, and no other does. */
  lemma SweepEndsFlow(c: Config, tr: seq<Table>, evs: seq<Event>, a: nat, b: nat, k: nat, j: nat, m: Mapping)
    requires RulesOutsidePool(c) && Run(c, tr, evs) && a <= b < |evs| && evs[b].SweepNow?
    requires FirstAt(tr[a], k, j, m) && m.updateTime == 0 && StaysAlive(m, evs, a, b)
    ensures Lives(tr[b + 1], m.remote, m.internal, m.external) <==>
      Silence(m, evs, a, b) + 1 < TCP_ESTABLISHED_TIMEOUT && !Finished(Alone(m, evs, a, b).conn)
  {
    AliveIsUnexpired(m, evs, a, b);
    UpdateTimeIsSilence(m, evs, a, b);
    var j' := FlowsAreIndependent(c, tr, evs, a, b, k, j, m);
    assert Step(c, tr[b], evs[b], tr[b + 1]);
    RunPrefix(c, tr, evs, b);
    if Expires(Alone(m, evs, a, b)) {
      ExpiredIsReleased(c, tr[b], k, j');
    } else {
      MappingStays(c, tr[b], evs[b], tr[b + 1], k, j');
    }
  }

  // ---------------------------------------------------------------------
  // When a flow counts as finished
  // ---------------------------------------------------------------------

  /** The packets of one connection, in the order they pass. */
  type Exchange = seq<(Packet, Direction)>

  function TouchAll(m: Mapping, ps: Exchange): Mapping {
    if ps == [] then m else Touch(TouchAll(m, ps[..|ps| - 1]), ps[|ps| - 1].0, ps[|ps| - 1].1)
  }

  lemma TouchMore(m: Mapping, qs: Exchange, p: (Packet, Direction))
    ensures TouchAll(m, qs + [p]) == Touch(TouchAll(m, qs), p.0, p.1)
  {
    assert (qs + [p])[..|qs|] == qs;
  }

  /** Index n - 1 is the last packet of the direction. */
  predicate IsLast(ps: Exchange, dir: Direction, n: nat) {
    0 < n <= |ps| && ps[n - 1].1 == dir && forall i: nat :: n <= i < |ps| ==> ps[i].1 != dir
  }

  ghost predicate LastHasFin(ps: Exchange, dir: Direction) {
    exists n: nat :: IsLast(ps, dir, n) && ps[n - 1].0.fin
  }

  /** Every start number sent one way is reached by an ack number sent the other
      way. An ack number equal to it does not acknowledge that packet. */
  ghost predicate AllReached(ps: Exchange, dir: Direction) {
    forall i: nat :: i < |ps| && ps[i].1 == dir && ps[i].0.seqNo > 0 ==>
      exists j: nat :: j < |ps| && ps[j].1 != dir && ps[j].0.ackNo >= ps[i].0.seqNo
  }

  predicate Bounds(ps: Exchange, dir: Direction, seqEnd: u32, ack: u32) {
    && (forall i: nat :: i < |ps| && ps[i].1 == dir ==> ps[i].0.seqNo <= seqEnd && ps[i].0.ackNo <= ack)
    && (seqEnd == 0 || exists i: nat :: i < |ps| && ps[i].1 == dir && ps[i].0.seqNo == seqEnd)
    && (ack == 0 || exists i: nat :: i < |ps| && ps[i].1 == dir && ps[i].0.ackNo == ack)
  }

  /** The connection record holds the FIN bit of the last packet of each
      direction and the largest numbers of each. */
  lemma {:induction false} ConnectionRecords(m: Mapping, ps: Exchange)
    requires m.conn == NEW_CONNECTION
    ensures var c := TouchAll(m, ps).conn;
      && (c.internalFin <==> LastHasFin(ps, Out)) && (c.externalFin <==> LastHasFin(ps, In))
      && Bounds(ps, Out, c.internalSeqEnd, c.internalAck) && Bounds(ps, In, c.externalSeqEnd, c.externalAck)
    decreases |ps|
  {
    if ps != [] {
      var n := |ps| - 1;
      var qs := ps[..n];
      ConnectionRecords(m, qs);
      var c := TouchAll(m, qs).conn;
      assert ps == qs + [ps[n]];
      LastOfMore(qs, ps[n], Out);
      LastOfMore(qs, ps[n], In);
      BoundsOfMore(qs, ps[n], Out, c.internalSeqEnd, c.internalAck);
      BoundsOfMore(qs, ps[n], In, c.externalSeqEnd, c.externalAck);
    }
  }

  lemma LastOfMore(qs: Exchange, p: (Packet, Direction), dir: Direction)
    ensures LastHasFin(qs + [p], dir) <==> if p.1 == dir then p.0.fin else LastHasFin(qs, dir)
  {
    var ps := qs + [p];
    if p.1 == dir {
      assert IsLast(ps, dir, |ps|);
    } else {
      forall n: nat ensures IsLast(ps, dir, n) <==> IsLast(qs, dir, n) {
        assert ps[|qs|] == p && forall i: nat :: i < |qs| ==> ps[i] == qs[i];
      }
      assert forall n: nat :: IsLast(qs, dir, n) ==> ps[n - 1] == qs[n - 1];
    }
  }

  lemma BoundsOfMore(qs: Exchange, p: (Packet, Direction), dir: Direction, seqEnd: u32, ack: u32)
    requires Bounds(qs, dir, seqEnd, ack)
    ensures if p.1 == dir then Bounds(qs + [p], dir, Max(p.0.seqNo, seqEnd), Max(p.0.ackNo, ack))
            else Bounds(qs + [p], dir, seqEnd, ack)
  {
    var ps := qs + [p];
    assert ps[|qs|] == p && forall i: nat :: i < |qs| ==> ps[i] == qs[i];
  }

  /** A flow counts as finished exactly when the last packet each way carried a
      FIN and every start number sent each way has been reached. */
  lemma FinishedExactly(m: Mapping, ps: Exchange)
    requires m.conn == NEW_CONNECTION
    ensures Finished(TouchAll(m, ps).conn) <==>
      LastHasFin(ps, Out) && LastHasFin(ps, In) && AllReached(ps, Out) && AllReached(ps, In)
  {
    ConnectionRecords(m, ps);
  }

  /** The FIN that ended a direction is acknowledged: it takes the number it
      starts at, so the ack number lies beyond that. */
  ghost predicate FinAcked(ps: Exchange, dir: Direction) {
    exists n: nat, j: nat ::
      IsLast(ps, dir, n) && ps[n - 1].0.fin && j < |ps| && ps[j].1 != dir && ps[j].0.ackNo > ps[n - 1].0.seqNo
  }

  lemma LastIsUnique(ps: Exchange, dir: Direction, n: nat)
    requires IsLast(ps, dir, n)
    ensures forall n': nat :: IsLast(ps, dir, n') ==> n' == n
  {
  }

  function Other(dir: Direction): Direction {
    if dir.In? then Out else In
  }

  /** The largest start number recorded of a direction, and the largest ack number. */
  function SeqEnd(c: Connection, dir: Direction): u32 {
    if dir.In? then c.externalSeqEnd else c.internalSeqEnd
  }

  function AckEnd(c: Connection, dir: Direction): u32 {
    if dir.In? then c.externalAck else c.internalAck
  }

  lemma FinAckedExactly(m: Mapping, ps: Exchange, dir: Direction, n: nat)
    requires m.conn == NEW_CONNECTION && IsLast(ps, dir, n) && ps[n - 1].0.fin
    ensures FinAcked(ps, dir) <==> AckEnd(TouchAll(m, ps).conn, Other(dir)) > ps[n - 1].0.seqNo
  {
    ConnectionRecords(m, ps);
    LastIsUnique(ps, dir, n);
  }

  lemma SecondFinAcked(m: Mapping, qs: Exchange, dir: Direction, a: nat, p: (Packet, Direction))
    requires m.conn == NEW_CONNECTION && IsLast(qs, dir, a) && qs[a - 1].0.fin && p.0.fin && p.1 == Other(dir)
    ensures var c, ps := TouchAll(m, qs).conn, qs + [p];
      && (FinAcked(ps, p.1) <==> AckEnd(c, dir) > p.0.seqNo)
      && (FinAcked(ps, dir) <==> Max(p.0.ackNo, AckEnd(c, p.1)) > qs[a - 1].0.seqNo)
  {
    var ps := qs + [p];
    TouchMore(m, qs, p);
    assert ps[|qs|] == p && forall i: nat :: i < |qs| ==> ps[i] == qs[i];
    assert IsLast(ps, p.1, |ps|) && IsLast(ps, dir, a);
    FinAckedExactly(m, ps, dir, a);
    FinAckedExactly(m, ps, p.1, |ps|);
  }

  /** The second FIN after any history qs whose last packet of direction dir was
      the first FIN, numbers never going back and nothing acknowledged that was
      not sent: the flow counts as finished exactly if this FIN has the number
      expected next and reaches every start number of the other side. Either way
      it is not acknowledged yet, and the first one is only if the ack number it
      carries lies beyond it. */
  lemma SecondFinFinishes(m: Mapping, qs: Exchange, dir: Direction, a: nat, fin: Packet)
    requires m.conn == NEW_CONNECTION && IsLast(qs, dir, a) && qs[a - 1].0.fin && fin.fin
    requires var c := TouchAll(m, qs).conn;
      SeqEnd(c, Other(dir)) <= fin.seqNo && AckEnd(c, dir) <= fin.seqNo && AckEnd(c, Other(dir)) <= fin.ackNo
    ensures var c, ps := TouchAll(m, qs).conn, qs + [(fin, Other(dir))];
      && (Finished(TouchAll(m, ps).conn) <==> fin.seqNo == AckEnd(c, dir) && SeqEnd(c, dir) <= fin.ackNo)
      && !FinAcked(ps, Other(dir))
      && (FinAcked(ps, dir) <==> fin.ackNo > qs[a - 1].0.seqNo)
  {
    var p := (fin, Other(dir));
    TouchMore(m, qs, p);
    assert LastHasFin(qs, dir);
    ConnectionRecords(m, qs);
    SecondFinAcked(m, qs, dir, a, p);
  }

  /** Two FINs that cross: the flow counts as finished with neither acknowledged. */
  lemma CrossingFins(m: Mapping, inner: Endpoint, outer: Endpoint)
    requires m.conn == NEW_CONNECTION
    ensures var ps := [(Packet(inner, outer, 100, 200, true), Out), (Packet(outer, inner, 200, 100, true), In)];
      Finished(TouchAll(m, ps).conn) && !FinAcked(ps, Out) && !FinAcked(ps, In)
  {
    var first := (Packet(inner, outer, 100, 200, true), Out);
    var fin := Packet(outer, inner, 200, 100, true);
    var none: Exchange := [];
    TouchMore(m, none, first);
    assert none + [first] == [first];
    SecondFinFinishes(m, [first], Out, 1, fin);
    assert [first] + [(fin, In)] == [first, (fin, In)];
  }

  /** A finished flow has both its FINs acknowledged exactly when the recorded ack
      numbers are beyond the numbers of the FINs; equal to them is not enough. The
      code's own comparison with > in place of >= would do. */
  lemma FinishedFinsAcked(m: Mapping, ps: Exchange, a: nat, b: nat)
    requires m.conn == NEW_CONNECTION && Finished(TouchAll(m, ps).conn) && IsLast(ps, Out, a) && IsLast(ps, In, b)
    ensures var c := TouchAll(m, ps).conn;
      && (FinAcked(ps, Out) && FinAcked(ps, In) <==>
          c.externalAck > ps[a - 1].0.seqNo && c.internalAck > ps[b - 1].0.seqNo)
      && (c.externalAck > c.internalSeqEnd && c.internalAck > c.externalSeqEnd ==>
          FinAcked(ps, Out) && FinAcked(ps, In))
  {
    ConnectionRecords(m, ps);
    LastIsUnique(ps, Out, a);
    LastIsUnique(ps, In, b);
    FinAckedExactly(m, ps, Out, a);
    FinAckedExactly(m, ps, In, b);
  }

  /** An ordinary close ends with an acknowledgment that carries no FIN. If the
      mapping is still there by then, it stays for 59 more sweeps, although the
      connection is over. */
  lemma OrdinaryCloseWaits(t: Table, k: nat, i: nat, m: Mapping, ps: Exchange, n: nat) returns (j: nat)
    requires Shape(t) && LiveAt(t, k, i) && m.conn == NEW_CONNECTION && ps != [] && !ps[|ps| - 1].0.fin
    requires t.buckets[k][i] == TouchAll(m, ps) && n < TCP_ESTABLISHED_TIMEOUT
    ensures LiveAt(Sweeps(t, n), k, j) && Sweeps(t, n).buckets[k][j] == TouchAll(m, ps).(updateTime := n)
    ensures n == TCP_ESTABLISHED_TIMEOUT - 1 ==> Expires(Sweeps(t, n).buckets[k][j])
  {
    var p := ps[|ps| - 1];
    assert IsLast(ps, p.1, |ps|);
    LastIsUnique(ps, p.1, |ps|);
    FinishedExactly(m, ps);
    j := SilentSweeps(t, k, i, n);
  }

  // ---------------------------------------------------------------------
  // Finished flows in a run
  // ---------------------------------------------------------------------

  function OwnPackets(m: Mapping, ev: Event): Exchange {
    match ev
    case Outbound(p) => if Matches(m, p, Out) then [(p, Out)] else []
    case Inbound(p) => if Matches(m, p, In) then [(p, In)] else []
    case SweepNow => []
  }

  /** The packets of the mapping's flow among the events of a run. */
  function Packets(m: Mapping, evs: seq<Event>, a: nat, k: nat): Exchange
    requires a <= k <= |evs|
  {
    if k == a then []
    else Packets(m, evs, a, k - 1) + OwnPackets(m, evs[k - 1])
  }

  lemma OwnIsExchange(m0: Mapping, qs: Exchange, before: Exchange, m: Mapping, now: Mapping, ev: Event)
    requires now.conn == TouchAll(m0, qs + before).conn && SameAddresses(m, now)
    ensures Own(now, ev).conn == TouchAll(m0, qs + (before + OwnPackets(m, ev))).conn
  {
    var more := OwnPackets(m, ev);
    assert qs + (before + more) == (qs + before) + more;
    if more == [] {
      assert (qs + before) + more == qs + before;
    } else {
      TouchMore(m0, qs + before, more[0]);
    }
  }

  /** Sweeps leave the record of the connection alone: it is that of the flow's
      packets. */
  lemma {:induction false} AloneIsExchange(m0: Mapping, qs: Exchange, m: Mapping, evs: seq<Event>, a: nat, k: nat)
    requires a <= k <= |evs| && m.conn == TouchAll(m0, qs).conn
    ensures Alone(m, evs, a, k).conn == TouchAll(m0, qs + Packets(m, evs, a, k)).conn
  {
    if k == a {
      assert qs + [] == qs;
    } else {
      AloneIsExchange(m0, qs, m, evs, a, k - 1);
      OwnIsExchange(m0, qs, Packets(m, evs, a, k - 1), m, Alone(m, evs, a, k - 1), evs[k - 1]);
    }
  }

  /** What an unused mapping has recorded after one outbound packet. */
  function FirstRecord(p: Packet): Connection {
    Connection(p.fin, false, p.seqNo, 0, p.ackNo, 0)
  }

  lemma FirstIsTouched(m: Mapping, p: Packet)
    requires m.conn == NEW_CONNECTION
    ensures TouchAll(m, [(p, Out)]).conn == FirstRecord(p)
  {
    var none: Exchange := [];
    TouchMore(m, none, (p, Out));
    assert none + [(p, Out)] == [(p, Out)];
  }

  /** The first packet of a flow is the only one its new mapping has recorded. */
  lemma NewInRun(c: Config, tr: seq<Table>, evs: seq<Event>, a: nat, p: Packet) returns (k: nat, j: nat, m: Mapping)
    requires RulesOutsidePool(c) && Run(c, tr, evs) && a < |evs| && evs[a] == Outbound(p)
    requires Translate(c, tr[a], p, Out).1.Forwarded? && Unmatched(tr[a], p, Out)
    ensures FirstAt(tr[a + 1], k, j, m) && m.updateTime == 0
    ensures m.remote == p.dst && m.internal == p.src && m.external == Translate(c, tr[a], p, Out).1.packet.src
    ensures m.conn == FirstRecord(p)
  {
    k, j, m := OutboundInRun(c, tr, evs, a, p);
    RunInv(c, tr, evs, a);
    OneBucketSuffices(c, tr[a], p, Out);
    assert Step(c, tr[a], evs[a], tr[a + 1]);
  }

  /** From the packet that made its mapping on, and while it stays alive, the
      entry of a flow in the table is what that packet and its own packets made
      of an unused mapping. */
  lemma FlowRecordsPackets(c: Config, tr: seq<Table>, evs: seq<Event>, a: nat, b: nat, p: Packet)
    returns (k: nat, j: nat, m: Mapping)
    requires RulesOutsidePool(c) && Run(c, tr, evs) && a < b <= |evs| && evs[a] == Outbound(p)
    requires Translate(c, tr[a], p, Out).1.Forwarded? && Unmatched(tr[a], p, Out)
    ensures m.remote == p.dst && m.internal == p.src && m.external == Translate(c, tr[a], p, Out).1.packet.src
    ensures m.conn == FirstRecord(p)
    ensures StaysAlive(m, evs, a + 1, b) ==> FirstAt(tr[b], k, j, Alone(m, evs, a + 1, b))
  {
    k, j, m := NewInRun(c, tr, evs, a, p);
    j := AliveFlow(c, tr, evs, a + 1, b, k, j, m);
  }

  /** So a sweep at b finds it finished exactly when the flow's packets say so. */
  lemma FlowFinishedExactly(m: Mapping, p: Packet, evs: seq<Event>, a: nat, b: nat)
    requires a <= b <= |evs| && m.conn == FirstRecord(p)
    ensures var ps := [(p, Out)] + Packets(m, evs, a, b);
      Finished(Alone(m, evs, a, b).conn) <==>
        LastHasFin(ps, Out) && LastHasFin(ps, In) && AllReached(ps, Out) && AllReached(ps, In)
  {
    var m0 := m.(conn := NEW_CONNECTION);
    FirstIsTouched(m0, p);
    AloneIsExchange(m0, [(p, Out)], m, evs, a, b);
    FinishedExactly(m0, [(p, Out)] + Packets(m, evs, a, b));
  }
}
