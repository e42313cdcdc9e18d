/** Safety over all runs, a bound on the work, and the spanning tree. */
module StpTree {
  import opened Common
  import opened StpSwitch
  import opened StpNetwork

  predicate Designated(s: State, e: End)
    requires e.sw < |s.sws| && e.port < |s.sws[e.sw].ports|
  {
    IsDesignated(s.sws[e.sw], e.port)
  }

  function VectorAt(s: State, e: End): Vector
    requires e.sw < |s.sws| && e.port < |s.sws[e.sw].ports|
  {
    s.sws[e.sw].ports[e.port]
  }

  function OfferAt(s: State, e: End): Vector
    requires e.sw < |s.sws|
  {
    Offer(s.sws[e.sw], e.port)
  }

  lemma EndInRange(t: Topology, s: State, e: End)
    requires ValidTopology(t) && Inv(t, s) && e in t.peer
    ensures e.sw < |s.sws| && e.port < |s.sws[e.sw].ports|
  {
    assert SwitchInv(t, s, e.sw);
  }

  /** What a port that is not designated holds is superior to its own offer and
      not to its peer's. */
  lemma AlternateHoldsPeerOffer(t: Topology, s: State, e: End)
    requires ValidTopology(t) && Inv(t, s) && e in t.peer
    requires e.sw < |s.sws| && e.port < |s.sws[e.sw].ports| && !Designated(s, e)
    ensures FromPeer(t, s, e, VectorAt(s, e))
    ensures SuperiorTo(VectorAt(s, e), OfferAt(s, e))
    ensures NotWorse(OfferAt(s, t.peer[e]), VectorAt(s, e))
  {
    assert SwitchInv(t, s, e.sw);
    assert e == End(e.sw, e.port);
    var f := t.peer[e];
    assert SwitchInv(t, s, f.sw);
  }

  /** In every reachable state every link has a designated end, whatever is in flight. */
  lemma EveryLinkHasDesignatedEnd(t: Topology, s: State, e: End)
    requires ValidTopology(t) && Reachable(t, s) && e in t.peer
    ensures var f := t.peer[e];
      && e.sw < |s.sws| && e.port < |s.sws[e.sw].ports|
      && f.sw < |s.sws| && f.port < |s.sws[f.sw].ports|
      && (Designated(s, e) || Designated(s, f))
  {
    ReachableInv(t, s);
    var f := t.peer[e];
    EndInRange(t, s, e);
    EndInRange(t, s, f);
    if !Designated(s, e) && !Designated(s, f) {
      AlternateHoldsPeerOffer(t, s, e);
      AlternateHoldsPeerOffer(t, s, f);
    }
  }

  // ---------------------------------------------------------------------
  // Claims
  // ---------------------------------------------------------------------

  ghost predicate Smallest(t: Topology, m: nat) {
    m < |t.ids| && forall i: nat :: i < |t.ids| ==> t.ids[m] <= t.ids[i]
  }

  /** A (root, cost) names an existing switch that many links away; cost 0 only
      at the root itself; the cost stays below the number of switches. */
  ghost predicate TrueClaim(t: Topology, i: nat, root: nat, cost: nat) {
    && i < |t.ids|
    && Real(t, i, root, cost)
    && (cost == 0 ==> root == t.ids[i])
    && cost < |t.ids|
  }

  lemma CountedBelow(t: Topology, s: State, root: nat, cost: nat)
    requires |t.ids| == |s.sws| && Counted(s, root, cost)
    ensures cost < |t.ids|
  {
    SubsetSize(Within(s, root), Below(|s.sws|));
  }

  ghost function Below(n: nat): (r: set<nat>)
    ensures |r| == n
    ensures forall i: nat :: i in r <==> i < n
  {
    if n == 0 then {} else Below(n - 1) + {n - 1}
  }

  lemma ClaimsAreTrue(t: Topology, s: State)
    requires ValidTopology(t) && Reachable(t, s)
    ensures |s.sws| == |t.ids|
    ensures forall i: nat :: i < |s.sws| ==> TrueClaim(t, i, s.sws[i].root, s.sws[i].cost)
    ensures forall m :: m in s.sent ==> m.dst in t.peer && TrueClaim(t, t.peer[m.dst].sw, m.vec.root, m.vec.cost)
    ensures forall i: nat, q: nat :: i < |s.sws| && q < |s.sws[i].ports| && !IsDesignated(s.sws[i], q) ==>
      End(i, q) in t.peer && TrueClaim(t, t.peer[End(i, q)].sw, s.sws[i].ports[q].root, s.sws[i].ports[q].cost)
  {
    ReachableInv(t, s);
    forall i: nat | i < |s.sws| ensures TrueClaim(t, i, s.sws[i].root, s.sws[i].cost) {
      assert SwitchInv(t, s, i);
      CountedBelow(t, s, s.sws[i].root, s.sws[i].cost);
    }
    forall m | m in s.sent ensures m.dst in t.peer && TrueClaim(t, t.peer[m.dst].sw, m.vec.root, m.vec.cost) {
      FromPeerTrue(t, s, m.dst, m.vec);
    }
    forall i: nat, q: nat | i < |s.sws| && q < |s.sws[i].ports| && !IsDesignated(s.sws[i], q)
      ensures End(i, q) in t.peer && TrueClaim(t, t.peer[End(i, q)].sw, s.sws[i].ports[q].root, s.sws[i].ports[q].cost)
    {
      assert SwitchInv(t, s, i);
      FromPeerTrue(t, s, End(i, q), s.sws[i].ports[q]);
    }
  }

  lemma FromPeerTrue(t: Topology, s: State, e: End, v: Vector)
    requires |t.ids| == |s.sws| && FromPeer(t, s, e, v)
    ensures TrueClaim(t, t.peer[e].sw, v.root, v.cost)
  {
    CountedBelow(t, s, v.root, v.cost);
  }

  /** The switch with the smallest id stays as it was initialised. */
  lemma SmallestNeverChanges(t: Topology, s: State, m: nat)
    requires ValidTopology(t) && Reachable(t, s) && Smallest(t, m)
    ensures m < |s.sws| && s.sws[m] == Initial(t.ids[m], t.nports[m])
  {
    ReachableInv(t, s);
    assert SwitchInv(t, s, m);
    var w := s.sws[m];
    var k: nat :| k < |t.ids| && t.ids[k] == w.root && Walk(t, m, k, w.cost);
    assert w.rootPort.None?;
    forall q: nat | q < |w.ports| ensures w.ports[q] == Vector(w.id, 0, w.id, PortId(q)) {
      assert IsDesignated(w, q);
    }
  }

  // ---------------------------------------------------------------------
  // Monotonicity and the bound on changes
  // ---------------------------------------------------------------------

  ghost predicate VectorsNotWorse(s: State, s': State) {
    && |s'.sws| == |s.sws|
    && forall i: nat :: i < |s.sws| ==>
         && |s'.sws[i].ports| == |s.sws[i].ports|
         && (forall q: nat :: q < |s.sws[i].ports| ==> NotWorse(s'.sws[i].ports[q], s.sws[i].ports[q]))
  }

  lemma StepMonotone(t: Topology, s: State, ev: Event, s': State)
    requires ValidTopology(t) && Inv(t, s) && Step(t, s, ev, s')
    ensures Improves(s, s') && VectorsNotWorse(s, s')
  {
    StepKeepsInv(t, s, ev, s');
    if ev.Deliver? {
      DeliverLocal(t, s, ev.m);
      assert forall i: nat :: i < |s.sws| && i != ev.m.dst.sw ==> s'.sws[i] == s.sws[i];
    }
  }

  /** Over any run, no switch's (root, cost) and no port's vector gets worse. */
  lemma {:induction false} RunMonotone(t: Topology, tr: seq<State>, evs: seq<Event>, j: nat, k: nat)
    requires ValidTopology(t) && Run(t, tr, evs) && j <= k <= |evs|
    ensures Improves(tr[j], tr[k]) && VectorsNotWorse(tr[j], tr[k])
  {
    if j < k {
      RunMonotone(t, tr, evs, j, k - 1);
      RunInv(t, tr, evs, k - 1);
      StepMonotone(t, tr[k - 1], evs[k - 1], tr[k]);
      ImprovesTransitive(tr[j], tr[k - 1], tr[k]);
    }
  }

  lemma ImprovesTransitive(a: State, b: State, c: State)
    requires Improves(a, b) && Improves(b, c) && VectorsNotWorse(a, b) && VectorsNotWorse(b, c)
    ensures Improves(a, c) && VectorsNotWorse(a, c)
  {
  }

  predicate Bounded(n: nat, v: Vector) {
    v.cost < n && v.sw < U64 && v.port < U16
  }

  /** The lexicographic order on bounded vectors, as one number. */
  function Rank(n: nat, v: Vector): nat {
    ((v.root * n + v.cost) * U64 + v.sw) * U16 + v.port
  }

  lemma RankStrict(n: nat, v: Vector, w: Vector)
    requires Bounded(n, v) && Bounded(n, w) && SuperiorTo(v, w)
    ensures Rank(n, v) < Rank(n, w)
  {
    if v.root < w.root {
      assert v.root * n + n == (v.root + 1) * n <= w.root * n;
    }
  }

  lemma RankNotWorse(n: nat, v: Vector, w: Vector)
    requires Bounded(n, v) && Bounded(n, w) && NotWorse(v, w)
    ensures Rank(n, v) <= Rank(n, w) && (v != w ==> Rank(n, v) < Rank(n, w))
  {
    if v != w {
      RankStrict(n, v, w);
    }
  }

  function PortsRank(n: nat, ports: seq<Vector>, k: nat): nat
    requires k <= |ports|
  {
    if k == 0 then 0 else PortsRank(n, ports, k - 1) + Rank(n, ports[k - 1])
  }

  function Measure(n: nat, s: State, k: nat): nat
    requires k <= |s.sws|
  {
    if k == 0 then 0 else Measure(n, s, k - 1) + PortsRank(n, s.sws[k - 1].ports, |s.sws[k - 1].ports|)
  }

  lemma {:induction false} PortsRankDecreases(n: nat, a: seq<Vector>, b: seq<Vector>, k: nat)
    requires k <= |a| == |b|
    requires forall q: nat :: q < k ==> Bounded(n, a[q]) && Bounded(n, b[q]) && NotWorse(b[q], a[q])
    ensures PortsRank(n, b, k) <= PortsRank(n, a, k)
    ensures (exists q: nat :: q < k && a[q] != b[q]) ==> PortsRank(n, b, k) < PortsRank(n, a, k)
  {
    if k > 0 {
      PortsRankDecreases(n, a, b, k - 1);
      RankNotWorse(n, b[k - 1], a[k - 1]);
      assert a[k - 1] == b[k - 1] || Rank(n, b[k - 1]) < Rank(n, a[k - 1]);
    }
  }

  ghost predicate AllBounded(n: nat, s: State) {
    forall i: nat, q: nat :: i < |s.sws| && q < |s.sws[i].ports| ==> Bounded(n, s.sws[i].ports[q])
  }

  predicate SameVectors(s: State, s': State) {
    |s.sws| == |s'.sws| && forall i: nat :: i < |s.sws| ==> s.sws[i].ports == s'.sws[i].ports
  }

  lemma {:induction false} MeasureDecreases(n: nat, s: State, s': State, k: nat)
    requires VectorsNotWorse(s, s') && AllBounded(n, s) && AllBounded(n, s') && k <= |s.sws|
    ensures Measure(n, s', k) <= Measure(n, s, k)
    ensures (exists i: nat :: i < k && s.sws[i].ports != s'.sws[i].ports) ==> Measure(n, s', k) < Measure(n, s, k)
  {
    if k > 0 {
      MeasureDecreases(n, s, s', k - 1);
      var a, b := s.sws[k - 1].ports, s'.sws[k - 1].ports;
      PortsRankDecreases(n, a, b, |a|);
      assert a != b ==> exists q: nat :: q < |a| && a[q] != b[q];
    }
  }

  lemma InvBounded(t: Topology, s: State)
    requires ValidTopology(t) && Inv(t, s)
    ensures AllBounded(|t.ids|, s)
  {
    forall i: nat, q: nat | i < |s.sws| && q < |s.sws[i].ports|
      ensures Bounded(|t.ids|, s.sws[i].ports[q])
    {
      assert SwitchInv(t, s, i);
      var v := s.sws[i].ports[q];
      if IsDesignated(s.sws[i], q) {
        CountedBelow(t, s, v.root, v.cost);
      } else {
        assert FromPeer(t, s, End(i, q), v);
        CountedBelow(t, s, v.root, v.cost);
      }
    }
  }

  /** Every step that changes a port vector strictly decreases the measure. */
  lemma ChangeDecreasesMeasure(t: Topology, s: State, ev: Event, s': State)
    requires ValidTopology(t) && Inv(t, s) && Step(t, s, ev, s')
    ensures |s'.sws| == |s.sws|
    ensures Measure(|t.ids|, s', |s.sws|) <= Measure(|t.ids|, s, |s.sws|)
    ensures !SameVectors(s, s') ==> Measure(|t.ids|, s', |s.sws|) < Measure(|t.ids|, s, |s.sws|)
  {
    StepMonotone(t, s, ev, s');
    StepKeepsInv(t, s, ev, s');
    InvBounded(t, s);
    InvBounded(t, s');
    MeasureDecreases(|t.ids|, s, s', |s.sws|);
  }

  /** The number of vector-changing steps among the first k. */
  ghost function Changes(tr: seq<State>, k: nat): nat
    requires k < |tr|
  {
    if k == 0 then 0 else Changes(tr, k - 1) + if SameVectors(tr[k - 1], tr[k]) then 0 else 1
  }

  /** However long a run, the number of steps that change anything is bounded by
      a number that depends on the topology alone. */
  lemma {:induction false} ChangesBounded(t: Topology, tr: seq<State>, evs: seq<Event>, k: nat)
    requires ValidTopology(t) && Run(t, tr, evs) && k <= |evs|
    ensures |tr[0].sws| == |tr[k].sws| == |t.ids|
    ensures Changes(tr, k) + Measure(|t.ids|, tr[k], |t.ids|) <= Measure(|t.ids|, tr[0], |t.ids|)
  {
    RunInv(t, tr, evs, k);
    if k > 0 {
      ChangesBounded(t, tr, evs, k - 1);
      RunInv(t, tr, evs, k - 1);
      ChangeDecreasesMeasure(t, tr[k - 1], evs[k - 1], tr[k]);
    }
  }

  // ---------------------------------------------------------------------
  // The stable state
  // ---------------------------------------------------------------------

  ghost predicate Connected(t: Topology) {
    forall i: nat, j: nat :: i < |t.ids| && j < |t.ids| ==> Linked(t, i, j)
  }

  ghost predicate Linked(t: Topology, i: nat, j: nat) {
    exists len: nat :: Walk(t, i, j, len)
  }

  /** A designated port whose message would change its peer's vectors. */
  ghost predicate Unsettled(t: Topology, s: State, e: End) {
    && e in t.peer && e.sw < |s.sws| && e.port < |s.sws[e.sw].ports| && Designated(s, e)
    && var f := t.peer[e];
    && f.sw < |s.sws| && CanHandle(s.sws[f.sw], f.port, OfferAt(s, e))
    && Handle(s.sws[f.sw], f.port, OfferAt(s, e)).0.ports != s.sws[f.sw].ports
  }

  /** Delivering what a designated port sends changes no vector of the receiver. */
  ghost predicate Quiescent(t: Topology, s: State) {
    forall e :: e in t.peer ==> !Unsettled(t, s, e)
  }

  /** An unchanged port is superior to what was delivered or already holds it. */
  lemma UnchangedPort(w: Switch, p: nat, msg: Vector)
    requires CanHandle(w, p, msg) && msg.sw != w.id
    requires Handle(w, p, msg).0.ports == w.ports
    ensures SuperiorTo(w.ports[p], msg) || w.ports[p] == msg
  {
  }

  /** Offers are always deliverable. */
  lemma OfferHandled(t: Topology, s: State, e: End)
    requires ValidTopology(t) && Inv(t, s) && e in t.peer && e.sw < |s.sws|
    ensures var f := t.peer[e]; f.sw < |s.sws| && CanHandle(s.sws[f.sw], f.port, OfferAt(s, e))
    ensures OfferAt(s, e).sw != s.sws[t.peer[e].sw].id
  {
    var f := t.peer[e];
    assert SwitchInv(t, s, e.sw) && SwitchInv(t, s, f.sw);
    assert FromPeer(t, s, f, OfferAt(s, e));
    FromPeerForeign(t, s, f, OfferAt(s, e));
    InvForeign(t, s, f.sw);
    HandleLocal(s.sws[f.sw], f.port, OfferAt(s, e));
  }

  /** In a quiescent state the far end of a designated port holds its offer. */
  lemma QuiescentLink(t: Topology, s: State, e: End)
    requires ValidTopology(t) && Inv(t, s) && Quiescent(t, s) && e in t.peer
    requires e.sw < |s.sws| && e.port < |s.sws[e.sw].ports| && Designated(s, e)
    ensures var f := t.peer[e];
      && f.sw < |s.sws| && f.port < |s.sws[f.sw].ports|
      && !Designated(s, f) && VectorAt(s, f) == OfferAt(s, e)
  {
    var f := t.peer[e];
    EndInRange(t, s, f);
    assert SwitchInv(t, s, e.sw) && SwitchInv(t, s, f.sw);
    OfferHandled(t, s, e);
    UnchangedPort(s.sws[f.sw], f.port, OfferAt(s, e));
    if Designated(s, f) {
      OfferHandled(t, s, f);
      UnchangedPort(s.sws[e.sw], e.port, OfferAt(s, f));
    } else {
      AlternateHoldsPeerOffer(t, s, f);
    }
  }

  lemma QuiescentNeighbours(t: Topology, s: State, e: End)
    requires ValidTopology(t) && Reachable(t, s) && Quiescent(t, s) && e in t.peer
    ensures var f := t.peer[e];
      && e.sw < |s.sws| && f.sw < |s.sws|
      && s.sws[e.sw].root == s.sws[f.sw].root
      && s.sws[e.sw].cost <= s.sws[f.sw].cost + 1
  {
    ReachableInv(t, s);
    EveryLinkHasDesignatedEnd(t, s, e);
    var f := t.peer[e];
    if Designated(s, e) {
      QuiescentLinkAgrees(t, s, e);
    } else {
      QuiescentLinkAgrees(t, s, f);
    }
  }

  lemma QuiescentLinkAgrees(t: Topology, s: State, e: End)
    requires ValidTopology(t) && Inv(t, s) && Quiescent(t, s) && e in t.peer
    requires e.sw < |s.sws| && e.port < |s.sws[e.sw].ports| && Designated(s, e)
    ensures var f := t.peer[e];
      && f.sw < |s.sws|
      && s.sws[e.sw].root == s.sws[f.sw].root
      && s.sws[e.sw].cost <= s.sws[f.sw].cost <= s.sws[e.sw].cost + 1
  {
    QuiescentLink(t, s, e);
    var f := t.peer[e];
    assert SwitchInv(t, s, f.sw);
    var w := s.sws[f.sw];
    assert !IsDesignated(w, f.port) && SuperiorTo(w.ports[f.port], Offer(w, f.port));
    var r := w.rootPort.value;
    assert !SuperiorTo(w.ports[f.port].(port := 0), w.ports[r].(port := 0));
  }

  /** Neighbours name the same root and their costs differ by at most one. */
  ghost predicate Agreeing(t: Topology, s: State) {
    forall e :: e in t.peer ==>
      var f := t.peer[e];
      && e.sw < |s.sws| && f.sw < |s.sws|
      && s.sws[e.sw].root == s.sws[f.sw].root
      && s.sws[e.sw].cost <= s.sws[f.sw].cost + 1
  }

  lemma QuiescentAgrees(t: Topology, s: State)
    requires ValidTopology(t) && Reachable(t, s) && Quiescent(t, s)
    ensures Agreeing(t, s)
  {
    forall e | e in t.peer
      ensures var f := t.peer[e];
        && e.sw < |s.sws| && f.sw < |s.sws|
        && s.sws[e.sw].root == s.sws[f.sw].root
        && s.sws[e.sw].cost <= s.sws[f.sw].cost + 1
    {
      QuiescentNeighbours(t, s, e);
    }
  }

  lemma {:induction false} WalkAgrees(t: Topology, s: State, i: nat, j: nat, len: nat)
    requires Agreeing(t, s) && i < |s.sws| && Walk(t, i, j, len)
    ensures j < |s.sws| && s.sws[i].root == s.sws[j].root && s.sws[i].cost <= s.sws[j].cost + len
    decreases len
  {
    if len > 0 {
      var q: nat :| End(i, q) in t.peer && Walk(t, t.peer[End(i, q)].sw, j, len - 1);
      WalkAgrees(t, s, t.peer[End(i, q)].sw, j, len - 1);
    }
  }

  ghost predicate HopDistance(t: Topology, i: nat, j: nat, d: nat) {
    Walk(t, i, j, d) && forall len: nat :: Walk(t, i, j, len) ==> d <= len
  }

  /** The switch on the other side of the root port. */
  ghost predicate HasParent(t: Topology, s: State, i: nat) {
    i < |s.sws| && s.sws[i].rootPort.Some? && End(i, s.sws[i].rootPort.value) in t.peer
  }

  ghost function Parent(t: Topology, s: State, i: nat): End
    requires HasParent(t, s, i)
  {
    t.peer[End(i, s.sws[i].rootPort.value)]
  }

  /** Of the two ends of a link the designated one is nearer to the root, or
      belongs to the smaller switch if both are equally near. */
  ghost predicate OneDesignatedEnd(t: Topology, s: State, e: End) {
    && e in t.peer
    && var f := t.peer[e];
    && e.sw < |s.sws| && e.port < |s.sws[e.sw].ports|
    && f.sw < |s.sws| && f.port < |s.sws[f.sw].ports|
    && (Designated(s, e) <==> !Designated(s, f))
    && (Designated(s, e) <==> Nearer(s, e.sw, f.sw))
  }

  predicate Nearer(s: State, i: nat, j: nat)
    requires i < |s.sws| && j < |s.sws|
  {
    s.sws[i].cost < s.sws[j].cost || (s.sws[i].cost == s.sws[j].cost && s.sws[i].id < s.sws[j].id)
  }

  /** i has a root port; the switch behind it is one link nearer to the root, the
      smallest such neighbour, and its end of the link is designated. */
  ghost predicate NearerParent(t: Topology, s: State, i: nat) {
    && HasParent(t, s, i)
    && var f := Parent(t, s, i);
    && f.sw < |s.sws| && f.port < |s.sws[f.sw].ports|
    && Designated(s, f)
    && s.sws[i].cost == s.sws[f.sw].cost + 1
    && (forall q: nat :: End(i, q) in t.peer && t.peer[End(i, q)].sw < |s.sws| ==>
          !Nearer(s, t.peer[End(i, q)].sw, f.sw))
  }

  /** Root ports form parent pointers towards m. */
  ghost predicate Rooted(t: Topology, s: State, m: nat) {
    && |s.sws| == |t.ids| && m < |s.sws|
    && s.sws[m].rootPort.None? && s.sws[m].cost == 0
    && (forall i: nat :: i < |s.sws| && i != m ==> NearerParent(t, s, i))
  }

  ghost predicate SpanningTree(t: Topology, s: State, m: nat) {
    && Rooted(t, s, m)
    && (forall i: nat :: i < |s.sws| ==> s.sws[i].root == t.ids[m])
    && (forall i: nat :: i < |s.sws| ==> HopDistance(t, i, m, s.sws[i].cost))
    && (forall e :: e in t.peer ==> OneDesignatedEnd(t, s, e))
  }

  /** A reachable state of a connected network that no designated port would
      change is a spanning tree rooted at the smallest switch id. */
  lemma QuiescentIsSpanningTree(t: Topology, s: State, m: nat)
    requires ValidTopology(t) && Connected(t) && Smallest(t, m)
    requires Reachable(t, s) && Quiescent(t, s)
    ensures SpanningTree(t, s, m)
  {
    ReachableInv(t, s);
    SmallestNeverChanges(t, s, m);
    forall i: nat | i < |s.sws|
      ensures s.sws[i].root == t.ids[m] && HopDistance(t, i, m, s.sws[i].cost)
    {
      QuiescentDistance(t, s, m, i);
    }
    forall e | e in t.peer ensures OneDesignatedEnd(t, s, e) {
      EveryLinkHasDesignatedEnd(t, s, e);
      DesignatedIsNearer(t, s, e);
      DesignatedIsNearer(t, s, t.peer[e]);
    }
    forall i: nat | i < |s.sws| && i != m ensures NearerParent(t, s, i) {
      QuiescentParent(t, s, i);
    }
  }

  lemma DesignatedIsNearer(t: Topology, s: State, e: End)
    requires ValidTopology(t) && Inv(t, s) && Quiescent(t, s) && e in t.peer
    ensures var f := t.peer[e];
      && e.sw < |s.sws| && e.port < |s.sws[e.sw].ports| && f.sw < |s.sws| && f.port < |s.sws[f.sw].ports|
      && (Designated(s, e) ==> !Designated(s, f) && Nearer(s, e.sw, f.sw) && !Nearer(s, f.sw, e.sw))
  {
    var f := t.peer[e];
    EndInRange(t, s, e);
    EndInRange(t, s, f);
    if Designated(s, e) {
      QuiescentLink(t, s, e);
      QuiescentLinkAgrees(t, s, e);
      assert SwitchInv(t, s, e.sw) && SwitchInv(t, s, f.sw);
    }
  }

  lemma QuiescentDistance(t: Topology, s: State, m: nat, i: nat)
    requires ValidTopology(t) && Connected(t) && Smallest(t, m)
    requires Reachable(t, s) && Quiescent(t, s) && i < |s.sws| == |t.ids|
    ensures s.sws[i].root == t.ids[m] && HopDistance(t, i, m, s.sws[i].cost)
  {
    ReachableInv(t, s);
    SmallestNeverChanges(t, s, m);
    QuiescentAgrees(t, s);
    assert Linked(t, i, m);
    var len: nat :| Walk(t, i, m, len);
    WalkAgrees(t, s, i, m, len);
    assert SwitchInv(t, s, i);
    var k: nat :| k < |t.ids| && t.ids[k] == s.sws[i].root && Walk(t, i, k, s.sws[i].cost);
    forall l: nat | Walk(t, i, m, l) ensures s.sws[i].cost <= l {
      WalkAgrees(t, s, i, m, l);
    }
  }

  lemma QuiescentParent(t: Topology, s: State, i: nat)
    requires ValidTopology(t) && Reachable(t, s) && Quiescent(t, s)
    requires i < |s.sws| == |t.ids| && s.sws[i].root != t.ids[i]
    ensures NearerParent(t, s, i)
  {
    ReachableInv(t, s);
    assert SwitchInv(t, s, i);
    var e := End(i, s.sws[i].rootPort.value);
    assert FromPeer(t, s, e, VectorAt(s, e));
    EveryLinkHasDesignatedEnd(t, s, e);
    QuiescentLink(t, s, t.peer[e]);
    forall q: nat | End(i, q) in t.peer && t.peer[End(i, q)].sw < |s.sws|
      ensures !Nearer(s, t.peer[End(i, q)].sw, t.peer[e].sw)
    {
      NoNearerNeighbour(t, s, e, End(i, q));
    }
  }

  /** No neighbour is nearer to the root than the one behind the root port. */
  lemma NoNearerNeighbour(t: Topology, s: State, e: End, e': End)
    requires ValidTopology(t) && Reachable(t, s) && Quiescent(t, s) && e in t.peer && e' in t.peer && e'.sw == e.sw
    requires e.sw < |s.sws| && s.sws[e.sw].rootPort == Some(e.port)
    ensures t.peer[e].sw < |s.sws| && t.peer[e'].sw < |s.sws| && !Nearer(s, t.peer[e'].sw, t.peer[e].sw)
  {
    ReachableInv(t, s);
    var f, f' := t.peer[e], t.peer[e'];
    EveryLinkHasDesignatedEnd(t, s, e);
    EveryLinkHasDesignatedEnd(t, s, e');
    assert SwitchInv(t, s, e.sw) && SwitchInv(t, s, f.sw) && SwitchInv(t, s, f'.sw);
    QuiescentLink(t, s, f);
    if Designated(s, f') {
      QuiescentLink(t, s, f');
    } else {
      DesignatedIsNearer(t, s, e');
    }
  }

  ghost function Ancestor(t: Topology, s: State, m: nat, i: nat, k: nat): (j: nat)
    requires Rooted(t, s, m) && i < |s.sws|
    ensures j < |s.sws|
    decreases k
  {
    if k == 0 || i == m then i
    else
      assert NearerParent(t, s, i);
      Ancestor(t, s, m, Parent(t, s, i).sw, k - 1)
  }

  /** Following root ports reaches the root after exactly root_path_cost links. */
  lemma {:induction false} RootPortsLeadToRoot(t: Topology, s: State, m: nat, i: nat)
    requires Rooted(t, s, m) && i < |s.sws|
    ensures Ancestor(t, s, m, i, s.sws[i].cost) == m
    ensures forall k: nat :: k < s.sws[i].cost ==> Ancestor(t, s, m, i, k) != m
    decreases s.sws[i].cost
  {
    if i != m {
      assert NearerParent(t, s, i);
      RootPortsLeadToRoot(t, s, m, Parent(t, s, i).sw);
    }
  }

  ghost function RootEnd(s: State, i: nat): End
    requires i < |s.sws| && s.sws[i].rootPort.Some?
  {
    End(i, s.sws[i].rootPort.value)
  }

  ghost function RootPorts(s: State, k: nat): (r: set<End>)
    requires k <= |s.sws|
    ensures forall e :: e in r ==> e.sw < k && s.sws[e.sw].rootPort.Some? && e == RootEnd(s, e.sw)
    ensures |r| == CountRootPorts(s, k)
  {
    if k == 0 then {}
    else if s.sws[k - 1].rootPort.None? then RootPorts(s, k - 1)
    else RootPorts(s, k - 1) + {RootEnd(s, k - 1)}
  }

  function CountRootPorts(s: State, k: nat): nat
    requires k <= |s.sws|
  {
    if k == 0 then 0 else CountRootPorts(s, k - 1) + if s.sws[k - 1].rootPort.Some? then 1 else 0
  }

  /** All switches but m have a root port. */
  predicate AllButOne(s: State, m: nat) {
    m < |s.sws| && forall i: nat :: i < |s.sws| ==> (s.sws[i].rootPort.Some? <==> i != m)
  }

  lemma {:induction false} RootPortsCount(s: State, m: nat, k: nat)
    requires AllButOne(s, m) && k <= |s.sws|
    ensures CountRootPorts(s, k) == if m < k then k - 1 else k
  {
    if k > 0 {
      RootPortsCount(s, m, k - 1);
    }
  }

  /** n switches are joined by n - 1 links that have a root port at exactly one end. */
  lemma RootPortsAreTreeEdges(t: Topology, s: State, m: nat)
    requires ValidTopology(t) && Rooted(t, s, m)
    ensures |RootPorts(s, |s.sws|)| == |t.ids| - 1
    ensures forall e :: e in RootPorts(s, |s.sws|) ==> e in t.peer && t.peer[e] !in RootPorts(s, |s.sws|)
  {
    forall i: nat | i < |s.sws| ensures s.sws[i].rootPort.Some? <==> i != m {
      assert i != m ==> NearerParent(t, s, i);
    }
    RootPortsCount(s, m, |s.sws|);
    forall e | e in RootPorts(s, |s.sws|)
      ensures e in t.peer && t.peer[e] !in RootPorts(s, |s.sws|)
    {
      assert NearerParent(t, s, e.sw);
      var f := t.peer[e];
      assert f in RootPorts(s, |s.sws|) ==> NearerParent(t, s, f.sw);
    }
  }

  // ---------------------------------------------------------------------
  // Answers
  // ---------------------------------------------------------------------

  lemma {:induction false} SendConfigsCovers(w: Switch, k: nat, q: nat)
    requires q < k <= |w.ports| && IsDesignated(w, q) && (IsRootSwitch(w) || w.rootPort.Some?)
    ensures Packet(q, Offer(w, q)) in SendConfigs(w, k)
  {
    if q < k - 1 {
      SendConfigsCovers(w, k - 1, q);
    }
  }

  /** Exactly the designated ports send, each the current offer, and none of them
      while a switch that is not root has no root port. */
  lemma {:induction false} SendConfigsExactly(w: Switch, k: nat, p: Packet)
    requires k <= |w.ports|
    ensures p in SendConfigs(w, k) <==>
      && p.port < k && IsDesignated(w, p.port) && p.vec == Offer(w, p.port)
      && (w.root == w.id || w.rootPort.Some?)
  {
    if k > 0 {
      SendConfigsExactly(w, k - 1, p);
    }
  }

  /** They send in port order, each once. */
  lemma {:induction false} SendConfigsOrdered(w: Switch, k: nat, i: nat, j: nat)
    requires k <= |w.ports| && i < j < |SendConfigs(w, k)|
    ensures SendConfigs(w, k)[i].port < SendConfigs(w, k)[j].port
  {
    if j < |SendConfigs(w, k - 1)| {
      SendConfigsOrdered(w, k - 1, i, j);
    } else {
      SendConfigsExactly(w, k - 1, SendConfigs(w, k - 1)[i]);
    }
  }

  lemma EmitCovers(t: Topology, i: nat, out: seq<Packet>, p: Packet)
    requires p in out && End(i, p.port) in t.peer
    ensures Message(t.peer[End(i, p.port)], p.vec) in Emit(t, i, out)
  {
  }

  /** The handler never looks for a root port in vain, whatever is delivered. */
  lemma RootPortAlwaysFound(t: Topology, s: State, m: Message)
    requires ValidTopology(t) && Reachable(t, s) && m in s.sent
    ensures m.dst.sw < |s.sws| && CanHandle(s.sws[m.dst.sw], m.dst.port, m.vec)
  {
    ReachableInv(t, s);
    DeliverLocal(t, s, m);
  }

  /** Every delivery is answered: an inferior message by the port it came in on,
      an adopted one through every designated port. */
  lemma DeliveryIsAnswered(t: Topology, s: State, m: Message, s': State, e: End)
    requires ValidTopology(t) && Reachable(t, s) && Step(t, s, Deliver(m), s')
    requires e in t.peer && e.sw == m.dst.sw
    requires if SuperiorTo(s.sws[e.sw].ports[m.dst.port], m.vec) then e == m.dst
             else e.port < |s'.sws[e.sw].ports| && Designated(s', e)
    ensures Message(t.peer[e], OfferAt(s', e)) in s'.sent
  {
    ReachableInv(t, s);
    StepKeepsInv(t, s, Deliver(m), s');
    assert SwitchInv(t, s', e.sw);
    assert e == End(e.sw, e.port);
    var w := s.sws[e.sw];
    var r := Handle(w, m.dst.port, m.vec);
    if !SuperiorTo(w.ports[m.dst.port], m.vec) {
      SendConfigsCovers(r.0, |r.0.ports|, e.port);
    }
    EmitCovers(t, e.sw, r.1, Packet(e.port, Offer(r.0, e.port)));
  }

  /** f has something to send in this step: an inferior message is answered through
      the port it came in on, everything else goes out through designated ports. */
  ghost predicate Due(s: State, ev: Event, s': State, f: End) {
    && f.sw < |s.sws| && f.sw < |s'.sws| && f.port < |s'.sws[f.sw].ports|
    && match ev
       case Hello(i) => f.sw == i && Designated(s', f)
       case Lose(gone) => false
       case Deliver(m) =>
         && f.sw == m.dst.sw && m.dst.port < |s.sws[f.sw].ports|
         && if SuperiorTo(s.sws[f.sw].ports[m.dst.port], m.vec) then f.port == m.dst.port else Designated(s', f)
  }

  lemma EmitExactly(t: Topology, i: nat, out: seq<Packet>, m: Message)
    requires ValidTopology(t)
    ensures m in Emit(t, i, out) <==>
      m.dst in t.peer && t.peer[m.dst].sw == i && Packet(t.peer[m.dst].port, m.vec) in out
  {
    if m.dst in t.peer && t.peer[m.dst].sw == i && Packet(t.peer[m.dst].port, m.vec) in out {
      assert t.peer[m.dst] == End(i, t.peer[m.dst].port);
      EmitCovers(t, i, out, Packet(t.peer[m.dst].port, m.vec));
    }
  }

  lemma HandleSendsExactly(w: Switch, p: nat, msg: Vector, out: Packet)
    requires CanHandle(w, p, msg) && SwitchOk(w) && SwitchOk(Handle(w, p, msg).0) && Handle(w, p, msg).0.id == w.id
    ensures var r := Handle(w, p, msg);
      out in r.1 <==>
        && out.port < |r.0.ports| && out.vec == Offer(r.0, out.port)
        && if SuperiorTo(w.ports[p], msg) then out.port == p else IsDesignated(r.0, out.port)
  {
    if !SuperiorTo(w.ports[p], msg) {
      var w' := Recompute(Receive(w, p, msg));
      RecomputeShape(Receive(w, p, msg));
      SendConfigsExactly(w', |w'.ports|, out);
    }
  }

  lemma HelloSendsExactly(t: Topology, s: State, i: nat, s': State, m: Message)
    requires ValidTopology(t) && Inv(t, s) && Step(t, s, Hello(i), s')
    ensures m in s'.sent <==>
      || m in s.sent
      || (m.dst in t.peer && Due(s, Hello(i), s', t.peer[m.dst]) && m.vec == OfferAt(s', t.peer[m.dst]))
  {
    assert SwitchInv(t, s, i);
    EmitExactly(t, i, SendConfigs(s.sws[i], |s.sws[i].ports|), m);
    if m.dst in t.peer {
      SendConfigsExactly(s.sws[i], |s.sws[i].ports|, Packet(t.peer[m.dst].port, m.vec));
    }
  }

  lemma DeliverySendsExactly(t: Topology, s: State, d: Message, s': State, m: Message)
    requires ValidTopology(t) && Inv(t, s) && Inv(t, s') && Step(t, s, Deliver(d), s')
    ensures m in s'.sent <==>
      || m in s.sent
      || (m.dst in t.peer && Due(s, Deliver(d), s', t.peer[m.dst]) && m.vec == OfferAt(s', t.peer[m.dst]))
  {
    var i := d.dst.sw;
    var r := Handle(s.sws[i], d.dst.port, d.vec);
    assert SwitchInv(t, s, i) && SwitchInv(t, s', i) && s'.sws[i] == r.0;
    EmitExactly(t, i, r.1, m);
    if m.dst in t.peer && t.peer[m.dst].sw == i {
      var f := t.peer[m.dst];
      HandleSendsExactly(s.sws[i], d.dst.port, d.vec, Packet(f.port, m.vec));
      DueOfDelivery(s, d, s', f);
    }
  }

  lemma DueOfDelivery(s: State, d: Message, s': State, f: End)
    requires f.sw == d.dst.sw && f.sw < |s.sws| == |s'.sws| && d.dst.port < |s.sws[f.sw].ports|
    ensures Due(s, Deliver(d), s', f) <==>
      && f.port < |s'.sws[f.sw].ports|
      && if SuperiorTo(s.sws[f.sw].ports[d.dst.port], d.vec) then f.port == d.dst.port
         else IsDesignated(s'.sws[f.sw], f.port)
  {
  }

  /** Nothing else is ever sent: a step adds exactly the current offers that are due. */
  lemma StepSendsExactly(t: Topology, s: State, ev: Event, s': State, m: Message)
    requires ValidTopology(t) && Reachable(t, s) && Step(t, s, ev, s') && !ev.Lose?
    ensures m in s'.sent <==>
      || m in s.sent
      || (m.dst in t.peer && Due(s, ev, s', t.peer[m.dst]) && m.vec == OfferAt(s', t.peer[m.dst]))
  {
    ReachableInv(t, s);
    StepKeepsInv(t, s, ev, s');
    if ev.Hello? {
      HelloSendsExactly(t, s, ev.i, s', m);
    } else {
      DeliverySendsExactly(t, s, ev.m, s', m);
    }
  }

  predicate Ties(v: Vector, w: Vector) {
    v.(port := 0) == w.(port := 0)
  }

  /** Which of several links to the same best switch becomes the root port: no later
      one stores a port number below the root port's own, and it is the first of
      them or stores a number below that of an earlier one. */
  lemma {:induction false} RootPortTieBreak(w: Switch, k: nat, q: nat) returns (p: nat)
    requires q < k <= |w.ports| && !IsDesignated(w, q)
    ensures FindRootPort(w, k).Some?
    ensures var r := FindRootPort(w, k).value;
      && (Ties(w.ports[q], w.ports[r]) && q > r ==> w.ports[q].port >= PortId(r))
      && (Ties(w.ports[q], w.ports[r]) && q < r ==>
            p < r && !IsDesignated(w, p) && Ties(w.ports[p], w.ports[r]) && w.ports[r].port < PortId(p))
  {
    FindRootPortMinimal(w, k, q);
    p := 0;
    var b := FindRootPort(w, k - 1);
    if q < k - 1 {
      p := RootPortTieBreak(w, k - 1, q);
      FindRootPortMinimal(w, k - 1, q);
      if FindRootPort(w, k).value != b.value {
        p := b.value;
      }
    }
  }

  /** A port number as the protocol writes it: the priority above, and ports
      counted from one below. */
  lemma PortIdParts(q: nat)
    requires q < STP_MAX_PORTS
    ensures PortId(q) / 256 == 128 && PortId(q) % 256 == q + 1
  {
  }
}
