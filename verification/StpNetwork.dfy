/** Switches joined by point-to-point links, exchanging config messages.

  `sent` holds the messages on the links. A delivery takes any of them and leaves
  it there, and a loss removes any of them for good, so messages may be lost,
  repeated, reordered and arbitrarily stale.
*/
module StpNetwork {
  import opened Common
  import opened StpSwitch

  const U64: nat := 0x1_0000_0000_0000_0000

  datatype End = End(sw: nat, port: nat)

  datatype Topology = Topology(ids: seq<nat>, nports: seq<nat>, peer: map<End, End>)

  datatype Message = Message(dst: End, vec: Vector)

  datatype State = State(sws: seq<Switch>, sent: set<Message>)

  datatype Event = Deliver(m: Message) | Hello(i: nat) | Lose(gone: set<Message>)

  predicate ValidEnd(t: Topology, e: End) {
    e.sw < |t.ids| && |t.ids| == |t.nports| && e.port < t.nports[e.sw]
  }

  ghost predicate ValidTopology(t: Topology) {
    && |t.ids| == |t.nports|
    && (forall i: nat :: i < |t.ids| ==> t.ids[i] < U64 && t.nports[i] <= STP_MAX_PORTS)
    && (forall i: nat, j: nat :: i < |t.ids| && j < |t.ids| && t.ids[i] == t.ids[j] ==> i == j)
    && (forall e :: e in t.peer ==>
          && ValidEnd(t, e) && ValidEnd(t, t.peer[e])
          && t.peer[e].sw != e.sw
          && t.peer[e] in t.peer && t.peer[t.peer[e]] == e)
  }

  ghost predicate Init(t: Topology, s: State) {
    && |t.ids| == |t.nports| == |s.sws|
    && (forall i: nat :: i < |s.sws| ==> s.sws[i] == Initial(t.ids[i], t.nports[i]))
    && s.sent == {}
  }

  /** The messages that leave switch i; a packet on a port without a peer goes nowhere. */
  ghost function Emit(t: Topology, i: nat, out: seq<Packet>): set<Message> {
    set k: nat | k < |out| && End(i, out[k].port) in t.peer :: Message(t.peer[End(i, out[k].port)], out[k].vec)
  }

  ghost predicate Step(t: Topology, s: State, ev: Event, s': State) {
    match ev
    case Deliver(m) =>
      && m in s.sent
      && m.dst.sw < |s.sws|
      && CanHandle(s.sws[m.dst.sw], m.dst.port, m.vec)
      && var r := Handle(s.sws[m.dst.sw], m.dst.port, m.vec);
         s' == State(s.sws[m.dst.sw := r.0], s.sent + Emit(t, m.dst.sw, r.1))
    case Hello(i) =>
      && i < |s.sws|
      && s.sws[i].hello
      && s' == State(s.sws, s.sent + Emit(t, i, SendConfigs(s.sws[i], |s.sws[i].ports|)))
    case Lose(gone) =>
      s' == s.(sent := s.sent - gone)
  }

  ghost predicate Run(t: Topology, tr: seq<State>, evs: seq<Event>) {
    && |tr| == |evs| + 1
    && Init(t, tr[0])
    && (forall k: nat :: k < |evs| ==> Step(t, tr[k], evs[k], tr[k + 1]))
  }

  ghost predicate Reachable(t: Topology, s: State) {
    exists tr: seq<State>, evs: seq<Event> :: Run(t, tr, evs) && tr[|evs|] == s
  }

  /** A walk of len links from switch i to switch j. */
  ghost predicate Walk(t: Topology, i: nat, j: nat, len: nat)
    decreases len
  {
    if len == 0 then i == j
    else exists q: nat :: End(i, q) in t.peer && Walk(t, t.peer[End(i, q)].sw, j, len - 1)
  }

  /** Some switch has identifier root and lies cost links away from i. */
  ghost predicate Real(t: Topology, i: nat, root: nat, cost: nat) {
    exists k: nat :: k < |t.ids| && t.ids[k] == root && Walk(t, i, k, cost)
  }

  predicate AtMost(root: nat, cost: nat, root': nat, cost': nat) {
    root < root' || (root == root' && cost <= cost')
  }

  predicate NotWorse(v: Vector, w: Vector) {
    !SuperiorTo(w, v)
  }

  // ---------------------------------------------------------------------
  // What holds of one switch
  // ---------------------------------------------------------------------

  ghost predicate SwitchOk(s: Switch) {
    && (forall q: nat :: q < |s.ports| ==>
          if IsDesignated(s, q) then s.ports[q] == Offer(s, q) else SuperiorTo(s.ports[q], Offer(s, q)))
    && (s.hello <==> IsRootSwitch(s))
    && match s.rootPort
       case None => s.root == s.id && s.cost == 0 && !HasCandidate(s)
       case Some(r) =>
         && s.root < s.id
         && r < |s.ports| && !IsDesignated(s, r)
         && s.root == s.ports[r].root && s.cost == s.ports[r].cost + PATH_COST
         && (forall q: nat :: q < |s.ports| && !IsDesignated(s, q) ==>
               !SuperiorTo(s.ports[q].(port := 0), s.ports[r].(port := 0)))
  }

  /** A vector another switch may have sent to switch `id`. */
  predicate Foreign(id: nat, v: Vector) {
    v.sw != id && (v.cost == 0 ==> v.root == v.sw)
  }

  ghost predicate ForeignPorts(s: Switch) {
    forall q: nat :: q < |s.ports| && !IsDesignated(s, q) ==> Foreign(s.id, s.ports[q])
  }

  lemma InitialOk(id: nat, n: nat)
    ensures SwitchOk(Initial(id, n)) && ForeignPorts(Initial(id, n))
  {
  }

  /** The elected port is minimal in (root, cost, switch) among the candidates. */
  lemma {:induction false} FindRootPortMinimal(s: Switch, k: nat, q: nat)
    requires q < k <= |s.ports| && !IsDesignated(s, q)
    ensures FindRootPort(s, k).Some?
    ensures !SuperiorTo(s.ports[q].(port := 0), s.ports[FindRootPort(s, k).value].(port := 0))
  {
    if q < k - 1 {
      FindRootPortMinimal(s, k - 1, q);
    } else if exists p: nat :: p < k - 1 && !IsDesignated(s, p) {
      var p: nat :| p < k - 1 && !IsDesignated(s, p);
      FindRootPortFound(s, k - 1, p);
    }
  }

  /** A config message from a peer can always be handled, keeps the switch
      consistent, and never makes the switch or one of its ports worse. */
  lemma HandleLocal(s: Switch, p: nat, msg: Vector)
    requires SwitchOk(s) && ForeignPorts(s)
    requires p < |s.ports| && Foreign(s.id, msg)
    ensures CanHandle(s, p, msg)
    ensures var s' := Handle(s, p, msg).0;
      && s'.id == s.id && |s'.ports| == |s.ports|
      && SwitchOk(s') && ForeignPorts(s')
      && AtMost(s'.root, s'.cost, s.root, s.cost)
      && (forall q: nat :: q < |s.ports| ==> NotWorse(s'.ports[q], s.ports[q]))
      && (forall q: nat :: q < |s.ports| && !IsDesignated(s', q) ==>
            if q == p && !SuperiorTo(s.ports[p], msg) then s'.ports[q] == msg
            else s'.ports[q] == s.ports[q] && !IsDesignated(s, q))
  {
    if !SuperiorTo(s.ports[p], msg) {
      var s1 := Receive(s, p, msg);
      assert !IsDesignated(s1, p);
      RecomputeLocal(s, p, msg);
    }
  }

  /** The three loops in one: a port ends up holding the new offer unless it
      is a candidate superior to that offer. */
  lemma RecomputeShape(s: Switch)
    requires HasCandidate(s)
    ensures FindRootPort(s, |s.ports|).Some?
    ensures var e := Elect(s, FindRootPort(s, |s.ports|).value);
      var s' := Recompute(s);
      && s' == e.(ports := s'.ports, hello := s.hello && e.root == s.id)
      && |s'.ports| == |s.ports|
      && (forall q: nat :: q < |s.ports| ==>
            s'.ports[q] ==
              if IsDesignated(s, q) || !SuperiorTo(s.ports[q], Offer(e, q)) then Offer(e, q) else s.ports[q])
  {
    CandidateFound(s);
    var e := Elect(s, FindRootPort(s, |s.ports|).value);
    var c := Claim(e);
    forall q: nat | q < |s.ports|
      ensures RefreshPort(c, q) ==
        if IsDesignated(s, q) || !SuperiorTo(s.ports[q], Offer(e, q)) then Offer(e, q) else s.ports[q]
    {
      assert c.ports[q] == ClaimPort(e, q);
    }
  }

  lemma RecomputeOk(s: Switch, p: nat, msg: Vector, r: nat)
    requires SwitchOk(s) && ForeignPorts(s)
    requires p < |s.ports| && Foreign(s.id, msg) && !SuperiorTo(s.ports[p], msg)
    requires HasCandidate(Receive(s, p, msg)) && FindRootPort(Receive(s, p, msg), |s.ports|) == Some(r)
    ensures SwitchOk(Recompute(Receive(s, p, msg)))
  {
    var s1 := Receive(s, p, msg);
    var s' := Recompute(s1);
    RecomputeShape(s1);
    ElectedImproves(s, p, msg, r);
    assert SuperiorTo(s1.ports[r], Offer(s', r));
    forall q: nat | q < |s'.ports| && !IsDesignated(s', q)
      ensures !SuperiorTo(s'.ports[q].(port := 0), s'.ports[r].(port := 0))
    {
      FindRootPortMinimal(s1, |s1.ports|, q);
    }
  }

  lemma RecomputeLocal(s: Switch, p: nat, msg: Vector)
    requires SwitchOk(s) && ForeignPorts(s)
    requires p < |s.ports| && Foreign(s.id, msg) && !SuperiorTo(s.ports[p], msg)
    ensures HasCandidate(Receive(s, p, msg))
    ensures var s' := Recompute(Receive(s, p, msg));
      && s'.id == s.id && |s'.ports| == |s.ports|
      && SwitchOk(s')
      && AtMost(s'.root, s'.cost, s.root, s.cost)
      && (forall q: nat :: q < |s.ports| ==> NotWorse(s'.ports[q], s.ports[q]))
      && (forall q: nat :: q < |s.ports| && !IsDesignated(s', q) ==>
            if q == p then s'.ports[q] == msg else s'.ports[q] == s.ports[q] && !IsDesignated(s, q))
  {
    var s1 := Receive(s, p, msg);
    assert !IsDesignated(s1, p);
    RecomputeShape(s1);
    var r := FindRootPort(s1, |s1.ports|).value;
    ElectedImproves(s, p, msg, r);
    RecomputeOk(s, p, msg, r);
    forall q: nat | q < |s.ports|
      ensures NotWorse(Recompute(s1).ports[q], s.ports[q])
    {
      assert q != p ==> IsDesignated(s1, q) == IsDesignated(s, q);
    }
  }

  lemma ElectedImproves(s: Switch, p: nat, msg: Vector, r: nat)
    requires SwitchOk(s) && ForeignPorts(s)
    requires p < |s.ports| && Foreign(s.id, msg) && !SuperiorTo(s.ports[p], msg)
    requires FindRootPort(Receive(s, p, msg), |s.ports|) == Some(r)
    ensures r < |s.ports| && !IsDesignated(Receive(s, p, msg), r)
    ensures var v := Receive(s, p, msg).ports[r];
      v.root < s.id && AtMost(v.root, v.cost + PATH_COST, s.root, s.cost)
  {
    var s1 := Receive(s, p, msg);
    if s.rootPort.Some? {
      assert !IsDesignated(s1, s.rootPort.value);
      FindRootPortMinimal(s1, |s1.ports|, s.rootPort.value);
    } else {
      assert forall q: nat :: q < |s.ports| ==> IsDesignated(s, q);
      assert r == p;
    }
  }

  // ---------------------------------------------------------------------
  // What holds of the network
  // ---------------------------------------------------------------------

  ghost function Within(s: State, root: nat): set<nat> {
    set i: nat | i < |s.sws| && s.sws[i].root <= root
  }

  /** A claim of cost c about a root has been passed on by c + 1 switches. */
  ghost predicate Counted(s: State, root: nat, cost: nat) {
    cost + 1 <= |Within(s, root)|
  }

  /** What remains true of an offer v of the peer of e: the peer's offers have not
      got worse since, and the walk it claims exists. That v was offered is shown
      in module StpHistory. */
  ghost predicate FromPeer(t: Topology, s: State, e: End, v: Vector) {
    && e in t.peer
    && var f := t.peer[e];
    && f.sw < |s.sws| && f.sw < |t.ids|
    && v.sw == t.ids[f.sw] && v.port == PortId(f.port)
    && AtMost(s.sws[f.sw].root, s.sws[f.sw].cost, v.root, v.cost)
    && Real(t, f.sw, v.root, v.cost)
    && Counted(s, v.root, v.cost)
  }

  ghost predicate SwitchInv(t: Topology, s: State, i: nat)
    requires i < |s.sws| && |t.ids| == |t.nports| == |s.sws|
  {
    var w := s.sws[i];
    && w.id == t.ids[i] && |w.ports| == t.nports[i]
    && SwitchOk(w)
    && Real(t, i, w.root, w.cost)
    && Counted(s, w.root, w.cost)
    && (forall q: nat :: q < |w.ports| && !IsDesignated(w, q) ==> FromPeer(t, s, End(i, q), w.ports[q]))
  }

  ghost predicate Inv(t: Topology, s: State) {
    && |t.ids| == |t.nports| == |s.sws|
    && (forall i: nat :: i < |s.sws| ==> SwitchInv(t, s, i))
    && (forall m :: m in s.sent ==> FromPeer(t, s, m.dst, m.vec))
  }

  lemma {:induction false} SubsetSize(a: set<nat>, b: set<nat>)
    requires a <= b
    ensures |a| <= |b|
  {
    assert b == a + (b - a);
  }

  ghost predicate Improves(s: State, s': State) {
    && |s'.sws| == |s.sws|
    && (forall i: nat :: i < |s.sws| ==> AtMost(s'.sws[i].root, s'.sws[i].cost, s.sws[i].root, s.sws[i].cost))
  }

  lemma CountedKept(s: State, s': State, root: nat, cost: nat)
    requires Improves(s, s') && Counted(s, root, cost)
    ensures Counted(s', root, cost)
  {
    SubsetSize(Within(s, root), Within(s', root));
  }

  lemma FromPeerKept(t: Topology, s: State, s': State, e: End, v: Vector)
    requires Improves(s, s') && FromPeer(t, s, e, v)
    ensures FromPeer(t, s', e, v)
  {
    CountedKept(s, s', v.root, v.cost);
  }

  lemma FromPeerForeign(t: Topology, s: State, e: End, v: Vector)
    requires ValidTopology(t) && FromPeer(t, s, e, v) && e.sw < |t.ids|
    ensures Foreign(t.ids[e.sw], v)
  {
  }

  lemma InvForeign(t: Topology, s: State, i: nat)
    requires ValidTopology(t) && Inv(t, s) && i < |s.sws|
    ensures ForeignPorts(s.sws[i])
  {
    forall q: nat | q < |s.sws[i].ports| && !IsDesignated(s.sws[i], q)
      ensures Foreign(s.sws[i].id, s.sws[i].ports[q])
    {
      assert SwitchInv(t, s, i);
      FromPeerForeign(t, s, End(i, q), s.sws[i].ports[q]);
    }
  }

  lemma InitInv(t: Topology, s: State)
    requires ValidTopology(t) && Init(t, s)
    ensures Inv(t, s)
  {
    forall i: nat | i < |s.sws|
      ensures SwitchInv(t, s, i)
    {
      InitialOk(t.ids[i], t.nports[i]);
      assert Walk(t, i, i, 0);
      SubsetSize({i}, Within(s, t.ids[i]));
    }
  }

  lemma SendConfigsAreOffers(w: Switch, k: nat, j: nat)
    requires k <= |w.ports| && j < |SendConfigs(w, k)|
    ensures var p := SendConfigs(w, k)[j]; p.port < |w.ports| && p.vec == Offer(w, p.port)
  {
  }

  /** What a switch sends is its current offer, so it is from the peer. */
  lemma EmittedFromPeer(t: Topology, s: State, i: nat, out: seq<Packet>, m: Message)
    requires ValidTopology(t) && |t.ids| == |s.sws| && i < |s.sws| && s.sws[i].id == t.ids[i]
    requires Real(t, i, s.sws[i].root, s.sws[i].cost) && Counted(s, s.sws[i].root, s.sws[i].cost)
    requires forall k: nat :: k < |out| ==> out[k].vec == Offer(s.sws[i], out[k].port)
    requires m in Emit(t, i, out)
    ensures FromPeer(t, s, m.dst, m.vec)
  {
  }

  /** The new (root, cost) of a switch is real and counted: it is one more than
      what its new root port holds. */
  lemma NewClaim(t: Topology, s: State, i: nat, s': State)
    requires |t.ids| == |t.nports| == |s.sws| && i < |s.sws| && SwitchInv(t, s, i)
    requires Improves(s, s') && SwitchOk(s'.sws[i]) && s'.sws[i].id == s.sws[i].id
    requires forall q: nat :: q < |s'.sws[i].ports| && !IsDesignated(s'.sws[i], q) ==>
               FromPeer(t, s, End(i, q), s'.sws[i].ports[q])
    ensures Real(t, i, s'.sws[i].root, s'.sws[i].cost) && Counted(s', s'.sws[i].root, s'.sws[i].cost)
  {
    var w, w' := s.sws[i], s'.sws[i];
    assert AtMost(w'.root, w'.cost, w.root, w.cost);
    if w'.root == w.root && w'.cost == w.cost {
      CountedKept(s, s', w.root, w.cost);
    } else {
      var r := w'.rootPort.value;
      RealThroughPeer(t, s, End(i, r), w'.ports[r]);
      if w'.root == w.root {
        CountedKept(s, s', w.root, w.cost);
      } else {
        assert i !in Within(s, w'.root);
        SubsetSize(Within(s, w'.root) + {i}, Within(s', w'.root));
      }
    }
  }

  lemma RealThroughPeer(t: Topology, s: State, e: End, v: Vector)
    requires FromPeer(t, s, e, v)
    ensures Real(t, e.sw, v.root, v.cost + 1)
  {
  }

  /** Switch i becomes w and sends out, in a way allowed by the local lemmas. */
  ghost predicate Update(t: Topology, s: State, i: nat, w: Switch, out: seq<Packet>)
    requires i < |s.sws|
  {
    var was := s.sws[i];
    && w.id == was.id && |w.ports| == |was.ports| && SwitchOk(w)
    && AtMost(w.root, w.cost, was.root, was.cost)
    && (forall q: nat :: q < |w.ports| && !IsDesignated(w, q) ==> FromPeer(t, s, End(i, q), w.ports[q]))
    && (forall k: nat :: k < |out| ==> out[k].vec == Offer(w, out[k].port))
  }

  lemma UpdateKeepsSwitches(t: Topology, s: State, i: nat, w: Switch, out: seq<Packet>, s': State)
    requires ValidTopology(t) && Inv(t, s) && i < |s.sws| && Update(t, s, i, w, out)
    requires s' == State(s.sws[i := w], s.sent + Emit(t, i, out))
    ensures Improves(s, s')
    ensures forall j: nat :: j < |s'.sws| ==> SwitchInv(t, s', j)
  {
    forall j: nat | j < |s'.sws| ensures SwitchInv(t, s', j) {
      assert SwitchInv(t, s, j);
      if j == i {
        NewClaim(t, s, i, s');
      } else {
        CountedKept(s, s', s.sws[j].root, s.sws[j].cost);
      }
      forall q: nat | q < |s'.sws[j].ports| && !IsDesignated(s'.sws[j], q)
        ensures FromPeer(t, s', End(j, q), s'.sws[j].ports[q])
      {
        FromPeerKept(t, s, s', End(j, q), s'.sws[j].ports[q]);
      }
    }
  }

  lemma UpdateKeepsInv(t: Topology, s: State, i: nat, w: Switch, out: seq<Packet>, s': State)
    requires ValidTopology(t) && Inv(t, s) && i < |s.sws| && Update(t, s, i, w, out)
    requires s' == State(s.sws[i := w], s.sent + Emit(t, i, out))
    ensures Inv(t, s') && Improves(s, s')
  {
    UpdateKeepsSwitches(t, s, i, w, out, s');
    assert SwitchInv(t, s', i);
    forall x | x in s'.sent ensures FromPeer(t, s', x.dst, x.vec) {
      if x in s.sent {
        FromPeerKept(t, s, s', x.dst, x.vec);
      } else {
        EmittedFromPeer(t, s', i, out, x);
      }
    }
  }

  lemma HandleSendsOffers(w: Switch, p: nat, msg: Vector, k: nat)
    requires CanHandle(w, p, msg) && k < |Handle(w, p, msg).1|
    ensures var r := Handle(w, p, msg); r.1[k].vec == Offer(r.0, r.1[k].port)
  {
    if !SuperiorTo(w.ports[p], msg) {
      var w' := Recompute(Receive(w, p, msg));
      SendConfigsAreOffers(w', |w'.ports|, k);
    }
  }

  /** Each message in flight can be handled: the handler never runs out of root
      port candidates, and its result is an update. */
  lemma DeliverLocal(t: Topology, s: State, m: Message)
    requires ValidTopology(t) && Inv(t, s) && m in s.sent
    ensures m.dst.sw < |s.sws|
    ensures CanHandle(s.sws[m.dst.sw], m.dst.port, m.vec)
    ensures var r := Handle(s.sws[m.dst.sw], m.dst.port, m.vec);
      && Update(t, s, m.dst.sw, r.0, r.1)
      && (forall q: nat :: q < |r.0.ports| ==> NotWorse(r.0.ports[q], s.sws[m.dst.sw].ports[q]))
  {
    assert FromPeer(t, s, m.dst, m.vec);
    var i, p := m.dst.sw, m.dst.port;
    assert m.dst == End(i, p);
    assert SwitchInv(t, s, i);
    InvForeign(t, s, i);
    FromPeerForeign(t, s, m.dst, m.vec);
    HandleLocal(s.sws[i], p, m.vec);
    forall k: nat | k < |Handle(s.sws[i], p, m.vec).1|
      ensures var r := Handle(s.sws[i], p, m.vec); r.1[k].vec == Offer(r.0, r.1[k].port)
    {
      HandleSendsOffers(s.sws[i], p, m.vec, k);
    }
  }

  lemma HelloLocal(t: Topology, s: State, i: nat)
    requires ValidTopology(t) && Inv(t, s) && i < |s.sws|
    ensures Update(t, s, i, s.sws[i], SendConfigs(s.sws[i], |s.sws[i].ports|))
  {
    assert SwitchInv(t, s, i);
    forall k: nat | k < |SendConfigs(s.sws[i], |s.sws[i].ports|)|
      ensures var out := SendConfigs(s.sws[i], |s.sws[i].ports|); out[k].vec == Offer(s.sws[i], out[k].port)
    {
      SendConfigsAreOffers(s.sws[i], |s.sws[i].ports|, k);
    }
  }

  lemma LoseKeepsInv(t: Topology, s: State, s': State)
    requires Inv(t, s) && s'.sws == s.sws && s'.sent <= s.sent
    ensures Inv(t, s') && Improves(s, s')
  {
    forall j: nat | j < |s'.sws| ensures SwitchInv(t, s', j) {
      assert SwitchInv(t, s, j);
      CountedKept(s, s', s.sws[j].root, s.sws[j].cost);
      forall q: nat | q < |s.sws[j].ports| && !IsDesignated(s.sws[j], q)
        ensures FromPeer(t, s', End(j, q), s.sws[j].ports[q])
      {
        FromPeerKept(t, s, s', End(j, q), s.sws[j].ports[q]);
      }
    }
    forall m | m in s'.sent ensures FromPeer(t, s', m.dst, m.vec) {
      FromPeerKept(t, s, s', m.dst, m.vec);
    }
  }

  lemma StepKeepsInv(t: Topology, s: State, ev: Event, s': State)
    requires ValidTopology(t) && Inv(t, s) && Step(t, s, ev, s')
    ensures Inv(t, s') && Improves(s, s')
  {
    match ev
    case Deliver(m) =>
      DeliverLocal(t, s, m);
      var r := Handle(s.sws[m.dst.sw], m.dst.port, m.vec);
      UpdateKeepsInv(t, s, m.dst.sw, r.0, r.1, s');
    case Hello(i) =>
      HelloLocal(t, s, i);
      assert s.sws[i := s.sws[i]] == s.sws;
      UpdateKeepsInv(t, s, i, s.sws[i], SendConfigs(s.sws[i], |s.sws[i].ports|), s');
    case Lose(gone) =>
      LoseKeepsInv(t, s, s');
  }

  lemma {:induction false} RunInv(t: Topology, tr: seq<State>, evs: seq<Event>, k: nat)
    requires ValidTopology(t) && Run(t, tr, evs) && k <= |evs|
    ensures Inv(t, tr[k])
  {
    if k == 0 {
      InitInv(t, tr[0]);
    } else {
      RunInv(t, tr, evs, k - 1);
      StepKeepsInv(t, tr[k - 1], evs[k - 1], tr[k]);
    }
  }

  lemma ReachableInv(t: Topology, s: State)
    requires ValidTopology(t) && Reachable(t, s)
    ensures Inv(t, s)
  {
    var tr: seq<State>, evs: seq<Event> :| Run(t, tr, evs) && tr[|evs|] == s;
    RunInv(t, tr, evs, |evs|);
  }
}
