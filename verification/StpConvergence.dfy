/** The network settles, and stays settled. */
module StpConvergence {
  import opened Common
  import opened StpSwitch
  import opened StpNetwork
  import opened StpTree

  // ---------------------------------------------------------------------
  // Every run can be continued to a stable state
  // ---------------------------------------------------------------------

  // ---------------------------------------------------------------------
  // A switch is determined by its vectors
  // ---------------------------------------------------------------------

  lemma {:induction false} ElectionReadsVectors(w: Switch, w': Switch, k: nat)
    requires w.id == w'.id && w.ports == w'.ports && k <= |w.ports|
    ensures FindRootPort(w, k) == FindRootPort(w', k)
  {
    if k > 0 {
      ElectionReadsVectors(w, w', k - 1);
    }
  }

  lemma RecomputeReadsVectors(a: Switch, b: Switch)
    requires a.id == b.id && a.ports == b.ports && HasCandidate(a)
    ensures HasCandidate(b) && Recompute(a).ports == Recompute(b).ports
  {
    var q: nat :| q < |a.ports| && !IsDesignated(a, q);
    assert !IsDesignated(b, q);
    ElectionReadsVectors(a, b, |a.ports|);
    RecomputeShape(a);
    RecomputeShape(b);
    var r := FindRootPort(a, |a.ports|).value;
    forall q: nat | q < |a.ports| ensures Recompute(a).ports[q] == Recompute(b).ports[q] {
      assert Offer(Elect(a, r), q) == Offer(Elect(b, r), q);
    }
  }

  /** What a message does to the vectors depends on the vectors alone. */
  lemma HandleReadsVectors(w: Switch, w': Switch, p: nat, msg: Vector)
    requires w.id == w'.id && w.ports == w'.ports && CanHandle(w, p, msg)
    ensures CanHandle(w', p, msg) && Handle(w', p, msg).0.ports == Handle(w, p, msg).0.ports
  {
    if !SuperiorTo(w.ports[p], msg) {
      RecomputeReadsVectors(Receive(w, p, msg), Receive(w', p, msg));
    }
  }

  /** What switch i offers through its designated ports is on the links. */
  ghost predicate Emitted(t: Topology, s: State, i: nat) {
    i < |s.sws| && forall q: nat :: q < |s.sws[i].ports| && IsDesignated(s.sws[i], q) && End(i, q) in t.peer ==>
      Message(t.peer[End(i, q)], s.sws[i].ports[q]) in s.sent
  }

  /** e is still unsettled when all vectors are as they were. */
  lemma StillUnsettled(t: Topology, s: State, s1: State, e: End)
    requires ValidTopology(t) && Inv(t, s) && Inv(t, s1) && SameVectors(s, s1) && Unsettled(t, s, e)
    ensures OfferAt(s1, e) == OfferAt(s, e)
    ensures Emitted(t, s1, e.sw) ==> Message(t.peer[e], OfferAt(s, e)) in s1.sent
    ensures var f, msg := t.peer[e], OfferAt(s, e);
      CanHandle(s1.sws[f.sw], f.port, msg) && Handle(s1.sws[f.sw], f.port, msg).0.ports != s.sws[f.sw].ports
  {
    var f := t.peer[e];
    assert SwitchInv(t, s, e.sw) && SwitchInv(t, s1, e.sw) && SwitchInv(t, s, f.sw) && SwitchInv(t, s1, f.sw);
    assert e == End(e.sw, e.port);
    HandleReadsVectors(s.sws[f.sw], s1.sws[f.sw], f.port, OfferAt(s, e));
  }

  predicate TiesAt(w: Switch, r: nat, b: Option<nat>)
    requires r < |w.ports|
  {
    b.Some? && b.value < |w.ports| && Ties(w.ports[b.value], w.ports[r])
  }

  /** The election depends only on the candidates that tie with the best one. */
  lemma {:induction false} ElectionAmongTies(a: Switch, b: Switch, r: nat, k: nat)
    requires |a.ports| == |b.ports| && k <= |a.ports| && r < |a.ports|
    requires forall q: nat :: q < |a.ports| && !IsDesignated(a, q) ==>
      !SuperiorTo(a.ports[q].(port := 0), a.ports[r].(port := 0))
    requires forall q: nat :: q < |b.ports| && !IsDesignated(b, q) ==> !IsDesignated(a, q) && b.ports[q] == a.ports[q]
    requires forall q: nat :: q < |a.ports| && !IsDesignated(a, q) && Ties(a.ports[q], a.ports[r]) ==>
      !IsDesignated(b, q)
    ensures var fa, fb := FindRootPort(a, k), FindRootPort(b, k);
      if TiesAt(a, r, fa) then fb == fa else !TiesAt(a, r, fb)
  {
    if k > 0 {
      ElectionAmongTies(a, b, r, k - 1);
    }
  }

  /** The root port is the one that would be elected again. */
  predicate Elected(w: Switch) {
    w.rootPort == FindRootPort(w, |w.ports|)
  }

  lemma RecomputeElects(s: Switch)
    requires HasCandidate(s)
    ensures Elected(Recompute(s))
  {
    RecomputeShape(s);
    var r := FindRootPort(s, |s.ports|).value;
    var s' := Recompute(s);
    forall q: nat | q < |s.ports| && !IsDesignated(s, q)
      ensures !SuperiorTo(s.ports[q].(port := 0), s.ports[r].(port := 0))
    {
      FindRootPortMinimal(s, |s.ports|, q);
    }
    ElectionAmongTies(s, s', r, |s.ports|);
  }

  lemma {:induction false} RunElected(t: Topology, tr: seq<State>, evs: seq<Event>, k: nat, i: nat)
    requires ValidTopology(t) && Run(t, tr, evs) && k <= |evs| && i < |tr[k].sws|
    ensures Elected(tr[k].sws[i])
  {
    if k > 0 {
      RunInv(t, tr, evs, k - 1);
      assert Step(t, tr[k - 1], evs[k - 1], tr[k]);
      RunElected(t, tr, evs, k - 1, i);
      if evs[k - 1].Deliver? && evs[k - 1].m.dst.sw == i {
        HandleElects(tr[k - 1].sws[i], evs[k - 1].m.dst.port, evs[k - 1].m.vec);
      }
    }
  }

  lemma HandleElects(w: Switch, p: nat, msg: Vector)
    requires Elected(w) && CanHandle(w, p, msg)
    ensures Elected(Handle(w, p, msg).0)
  {
    if !SuperiorTo(w.ports[p], msg) {
      RecomputeElects(Receive(w, p, msg));
    }
  }

  lemma VectorsDetermine(w: Switch, w': Switch)
    requires SwitchOk(w) && SwitchOk(w') && Elected(w) && Elected(w') && w.id == w'.id && w.ports == w'.ports
    ensures w == w'
  {
    ElectionReadsVectors(w, w', |w.ports|);
  }

  lemma SameSwitches(t: Topology, tr: seq<State>, evs: seq<Event>, j: nat, k: nat)
    requires ValidTopology(t) && Run(t, tr, evs) && j <= |evs| && k <= |evs| && SameVectors(tr[j], tr[k])
    ensures tr[j].sws == tr[k].sws
  {
    RunInv(t, tr, evs, j);
    RunInv(t, tr, evs, k);
    forall i: nat | i < |tr[j].sws| ensures tr[j].sws[i] == tr[k].sws[i] {
      assert SwitchInv(t, tr[j], i) && SwitchInv(t, tr[k], i);
      RunElected(t, tr, evs, j, i);
      RunElected(t, tr, evs, k, i);
      VectorsDetermine(tr[j].sws[i], tr[k].sws[i]);
    }
  }

  // ---------------------------------------------------------------------
  // A stable state is final
  // ---------------------------------------------------------------------

  /** The peer's offer is not worse than any message it has sent. */
  lemma OfferNotWorse(t: Topology, s: State, e: End, v: Vector)
    requires ValidTopology(t) && Inv(t, s) && FromPeer(t, s, e, v)
    ensures NotWorse(OfferAt(s, t.peer[e]), v)
  {
    assert SwitchInv(t, s, t.peer[e].sw);
  }

  /** In a quiescent state every port is superior to its peer's offer, or it holds
      just that and the peer is designated. */
  lemma HoldsAtLeastPeerOffer(t: Topology, s: State, e: End)
    requires ValidTopology(t) && Reachable(t, s) && Quiescent(t, s) && e in t.peer
    ensures e.sw < |s.sws| && e.port < |s.sws[e.sw].ports|
    ensures var f := t.peer[e];
      && f.sw < |s.sws| && f.port < |s.sws[f.sw].ports|
      && (SuperiorTo(VectorAt(s, e), OfferAt(s, f)) || (VectorAt(s, e) == OfferAt(s, f) && Designated(s, f)))
  {
    ReachableInv(t, s);
    var f := t.peer[e];
    EveryLinkHasDesignatedEnd(t, s, e);
    if Designated(s, f) {
      QuiescentLink(t, s, f);
    } else {
      assert SwitchInv(t, s, e.sw);
      QuiescentLink(t, s, e);
      AlternateHoldsPeerOffer(t, s, f);
    }
  }

  /** However stale a message is, in a quiescent state it changes no vector. */
  lemma StaleChangesNothing(t: Topology, s: State, m: Message)
    requires ValidTopology(t) && Reachable(t, s) && Quiescent(t, s) && m in s.sent
    ensures m.dst.sw < |s.sws| && CanHandle(s.sws[m.dst.sw], m.dst.port, m.vec)
    ensures Handle(s.sws[m.dst.sw], m.dst.port, m.vec).0.ports == s.sws[m.dst.sw].ports
  {
    ReachableInv(t, s);
    DeliverLocal(t, s, m);
    HoldsAtLeastPeerOffer(t, s, m.dst);
    OfferNotWorse(t, s, m.dst, m.vec);
    if !SuperiorTo(VectorAt(s, m.dst), m.vec) {
      assert m.vec == OfferAt(s, t.peer[m.dst]);
      assert !Unsettled(t, s, t.peer[m.dst]);
    }
  }

  lemma QuiescentStep(t: Topology, s: State, ev: Event, s': State)
    requires ValidTopology(t) && Reachable(t, s) && Quiescent(t, s) && Step(t, s, ev, s')
    ensures SameVectors(s, s')
  {
    if ev.Deliver? {
      StaleChangesNothing(t, s, ev.m);
    }
  }

  lemma RunReachable(t: Topology, tr: seq<State>, evs: seq<Event>, k: nat)
    requires Run(t, tr, evs) && k <= |evs|
    ensures Reachable(t, tr[k])
  {
    assert Run(t, tr[..k + 1], evs[..k]);
  }

  lemma SwitchesDecide(t: Topology, s: State, s': State)
    requires s.sws == s'.sws && Quiescent(t, s)
    ensures Quiescent(t, s')
  {
    forall e | e in t.peer ensures !Unsettled(t, s', e) {
      assert !Unsettled(t, s, e);
    }
  }

  lemma NextIsFinal(t: Topology, tr: seq<State>, evs: seq<Event>, k: nat)
    requires ValidTopology(t) && Run(t, tr, evs) && k < |evs| && Quiescent(t, tr[k])
    ensures tr[k + 1].sws == tr[k].sws && Quiescent(t, tr[k + 1])
  {
    RunReachable(t, tr, evs, k);
    QuiescentStep(t, tr[k], evs[k], tr[k + 1]);
    SameSwitches(t, tr, evs, k, k + 1);
    SwitchesDecide(t, tr[k], tr[k + 1]);
  }

  /** Once a state is quiescent, no switch changes again in any way, whatever is
      still in flight. */
  lemma QuiescentIsFinal(t: Topology, tr: seq<State>, evs: seq<Event>, j: nat, k: nat)
    requires ValidTopology(t) && Run(t, tr, evs) && j <= k <= |evs| && Quiescent(t, tr[j])
    ensures tr[k].sws == tr[j].sws && Quiescent(t, tr[k])
  {
    for i := j to k
      invariant tr[i].sws == tr[j].sws && Quiescent(t, tr[i])
    {
      NextIsFinal(t, tr, evs, i);
    }
  }

  // ---------------------------------------------------------------------
  // Fair runs
  // ---------------------------------------------------------------------

  /** In this step the current offer of e is delivered, or e is not designated. */
  ghost predicate Served(t: Topology, s: State, ev: Event, e: End) {
    && e in t.peer && e.sw < |s.sws| && e.port < |s.sws[e.sw].ports|
    && (ev == Deliver(Message(t.peer[e], OfferAt(s, e))) || !Designated(s, e))
  }

  /** A stretch of a run in which every port gets one offer through to its peer as
      it then is, unless it stops being designated. */
  ghost predicate FairRound(t: Topology, tr: seq<State>, evs: seq<Event>, a: nat, b: nat)
    requires a <= b <= |evs| < |tr|
  {
    forall e :: e in t.peer ==> exists j: nat :: a <= j < b && Served(t, tr[j], evs[j], e)
  }

  /** Fair rounds one after the other, with anything between and within them. */
  ghost predicate FairRounds(t: Topology, tr: seq<State>, evs: seq<Event>, r: seq<nat>) {
    && |r| > 0 && |evs| < |tr|
    && (forall x: nat :: x < |r| ==> r[x] <= |evs|)
    && (forall x: nat :: 0 < x < |r| ==> r[x - 1] <= r[x] && FairRound(t, tr, evs, r[x - 1], r[x]))
  }

  ghost function Work(t: Topology, s: State): nat
    requires |s.sws| == |t.ids|
  {
    Measure(|t.ids|, s, |t.ids|)
  }

  lemma {:induction false} WorkDoesNotGrow(t: Topology, tr: seq<State>, evs: seq<Event>, j: nat, k: nat)
    requires ValidTopology(t) && Run(t, tr, evs) && j <= k <= |evs|
    ensures |tr[j].sws| == |tr[k].sws| == |t.ids|
    ensures Work(t, tr[k]) <= Work(t, tr[j])
    ensures SameVectors(tr[j], tr[k]) || Work(t, tr[k]) < Work(t, tr[j])
  {
    RunInv(t, tr, evs, k);
    if j < k {
      WorkDoesNotGrow(t, tr, evs, j, k - 1);
      RunInv(t, tr, evs, k - 1);
      ChangeDecreasesMeasure(t, tr[k - 1], evs[k - 1], tr[k]);
    }
  }

  /** The offer of an unsettled port makes progress as long as nothing else has. */
  lemma ServingLowers(t: Topology, tr: seq<State>, evs: seq<Event>, a: nat, j: nat, e: End)
    requires ValidTopology(t) && Run(t, tr, evs) && a <= j < |evs| && Unsettled(t, tr[a], e)
    requires Served(t, tr[j], evs[j], e)
    ensures |tr[a].sws| == |tr[j + 1].sws| == |t.ids| && Work(t, tr[j + 1]) < Work(t, tr[a])
  {
    WorkDoesNotGrow(t, tr, evs, a, j);
    WorkDoesNotGrow(t, tr, evs, j, j + 1);
    if SameVectors(tr[a], tr[j]) {
      RunInv(t, tr, evs, a);
      RunInv(t, tr, evs, j);
      assert SwitchInv(t, tr[a], e.sw) && SwitchInv(t, tr[j], e.sw);
      StillUnsettled(t, tr[a], tr[j], e);
      assert Step(t, tr[j], evs[j], tr[j + 1]);
      assert tr[j + 1].sws[t.peer[e].sw].ports != tr[j].sws[t.peer[e].sw].ports;
    }
  }

  lemma RoundServes(t: Topology, tr: seq<State>, evs: seq<Event>, a: nat, b: nat, e: End) returns (j: nat)
    requires a <= b <= |evs| < |tr| && FairRound(t, tr, evs, a, b) && e in t.peer
    ensures a <= j < b && Served(t, tr[j], evs[j], e)
  {
    j :| a <= j < b && Served(t, tr[j], evs[j], e);
  }

  lemma UnsettledRoundLowers(t: Topology, tr: seq<State>, evs: seq<Event>, a: nat, b: nat, e: End)
    requires ValidTopology(t) && Run(t, tr, evs) && a <= b <= |evs| && FairRound(t, tr, evs, a, b)
    requires Unsettled(t, tr[a], e)
    ensures |tr[a].sws| == |tr[b].sws| == |t.ids| && Work(t, tr[b]) < Work(t, tr[a])
  {
    var j := RoundServes(t, tr, evs, a, b, e);
    ServingLowers(t, tr, evs, a, j, e);
    WorkDoesNotGrow(t, tr, evs, j + 1, b);
  }

  lemma RoundLowers(t: Topology, tr: seq<State>, evs: seq<Event>, a: nat, b: nat)
    requires ValidTopology(t) && Run(t, tr, evs) && a <= b <= |evs| && FairRound(t, tr, evs, a, b)
    ensures |tr[a].sws| == |tr[b].sws| == |t.ids|
    ensures Quiescent(t, tr[a]) || Work(t, tr[b]) < Work(t, tr[a])
  {
    WorkDoesNotGrow(t, tr, evs, a, b);
    if !Quiescent(t, tr[a]) {
      var e :| e in t.peer && Unsettled(t, tr[a], e);
      UnsettledRoundLowers(t, tr, evs, a, b, e);
    }
  }

  lemma {:induction false} RoundsSettle(t: Topology, tr: seq<State>, evs: seq<Event>, r: seq<nat>, n: nat)
    requires ValidTopology(t) && Run(t, tr, evs) && FairRounds(t, tr, evs, r) && n < |r|
    ensures |tr[r[0]].sws| == |tr[r[n]].sws| == |t.ids|
    ensures Quiescent(t, tr[r[n]]) || Work(t, tr[r[n]]) + n <= Work(t, tr[r[0]])
  {
    WorkDoesNotGrow(t, tr, evs, r[0], r[0]);
    if n > 0 {
      RoundsSettle(t, tr, evs, r, n - 1);
      RoundLowers(t, tr, evs, r[n - 1], r[n]);
      if Quiescent(t, tr[r[n - 1]]) {
        QuiescentIsFinal(t, tr, evs, r[n - 1], r[n]);
      }
    }
  }

  /** Fair runs converge: after more fair rounds than the work left at their start,
      a connected network is a spanning tree rooted at the smallest switch and no
      switch changes ever again, whatever else was lost, repeated, reordered or
      stale. */
  lemma FairRunsReachTree(t: Topology, tr: seq<State>, evs: seq<Event>, r: seq<nat>, m: nat, k: nat)
    requires ValidTopology(t) && Connected(t) && Smallest(t, m) && Run(t, tr, evs) && FairRounds(t, tr, evs, r)
    requires |tr[r[0]].sws| == |t.ids| && |r| - 1 > Work(t, tr[r[0]])
    requires r[|r| - 1] <= k <= |evs|
    ensures SpanningTree(t, tr[k], m) && tr[k].sws == tr[r[|r| - 1]].sws
  {
    RoundsSettle(t, tr, evs, r, |r| - 1);
    QuiescentIsFinal(t, tr, evs, r[|r| - 1], k);
    RunReachable(t, tr, evs, k);
    QuiescentIsSpanningTree(t, tr[k], m);
  }

  // ---------------------------------------------------------------------
  // Every run can be continued to a stable state
  // ---------------------------------------------------------------------

  lemma ExtendRun(t: Topology, tr: seq<State>, evs: seq<Event>, ev: Event, s': State)
    requires Run(t, tr, evs) && Step(t, tr[|evs|], ev, s')
    ensures Run(t, tr + [s'], evs + [ev])
  {
    var tr', evs' := tr + [s'], evs + [ev];
    forall k: nat | k < |evs'| ensures Step(t, tr'[k], evs'[k], tr'[k + 1]) {
      if k < |evs| {
        assert Step(t, tr[k], evs[k], tr[k + 1]);
      }
    }
  }

  lemma SendingEmits(t: Topology, s: State, i: nat)
    requires ValidTopology(t) && Inv(t, s) && i < |s.sws|
    requires Emit(t, i, SendConfigs(s.sws[i], |s.sws[i].ports|)) <= s.sent
    ensures Emitted(t, s, i)
  {
    assert SwitchInv(t, s, i);
    var w := s.sws[i];
    forall q: nat | q < |w.ports| && IsDesignated(w, q) && End(i, q) in t.peer
      ensures Message(t.peer[End(i, q)], w.ports[q]) in s.sent
    {
      SendConfigsCovers(w, |w.ports|, q);
      EmitCovers(t, i, SendConfigs(w, |w.ports|), Packet(q, Offer(w, q)));
    }
  }

  /** A running hello timer puts the offers of its switch on the links. */
  lemma HelloEmits(t: Topology, tr: seq<State>, evs: seq<Event>, i: nat) returns (s': State)
    requires ValidTopology(t) && Run(t, tr, evs) && i < |tr[|evs|].sws| && tr[|evs|].sws[i].hello
    ensures Run(t, tr + [s'], evs + [Hello(i)])
    ensures SameVectors(tr[|evs|], s') && Emitted(t, s', i)
  {
    var s := tr[|evs|];
    s' := State(s.sws, s.sent + Emit(t, i, SendConfigs(s.sws[i], |s.sws[i].ports|)));
    ExtendRun(t, tr, evs, Hello(i), s');
    RunInv(t, tr + [s'], evs + [Hello(i)], |evs| + 1);
    SendingEmits(t, s', i);
  }

  /** The offer of the switch behind the root port is adopted, and passed on even
      when it is no news. */
  lemma RootPortRelays(t: Topology, tr: seq<State>, evs: seq<Event>, e: End) returns (s': State)
    requires ValidTopology(t) && Run(t, tr, evs) && e in t.peer
    requires var s := tr[|evs|]; e.sw < |s.sws| && e.port < |s.sws[e.sw].ports| && !Designated(s, e)
    requires Emitted(t, tr[|evs|], t.peer[e].sw)
    ensures Step(t, tr[|evs|], Deliver(Message(e, OfferAt(tr[|evs|], t.peer[e]))), s')
    ensures Run(t, tr + [s'], evs + [Deliver(Message(e, OfferAt(tr[|evs|], t.peer[e])))])
    ensures |s'.sws| == |tr[|evs|].sws| && Emitted(t, s', e.sw)
  {
    var s, f := tr[|evs|], t.peer[e];
    RunInv(t, tr, evs, |evs|);
    assert Reachable(t, s);
    EveryLinkHasDesignatedEnd(t, s, e);
    assert SwitchInv(t, s, f.sw) && f == End(f.sw, f.port) && e == End(e.sw, e.port);
    var m := Message(e, OfferAt(s, f));
    AlternateHoldsPeerOffer(t, s, e);
    DeliverLocal(t, s, m);
    var r := Handle(s.sws[e.sw], e.port, m.vec);
    s' := State(s.sws[e.sw := r.0], s.sent + Emit(t, e.sw, r.1));
    ExtendRun(t, tr, evs, Deliver(m), s');
    RunInv(t, tr + [s'], evs + [Deliver(m)], |evs| + 1);
    SendingEmits(t, s', e.sw);
  }

  lemma MeasureDependsOnVectors(n: nat, s: State, s': State, k: nat)
    requires SameVectors(s, s') && k <= |s.sws|
    ensures Measure(n, s, k) == Measure(n, s', k)
  {
  }

  ghost predicate Lower(t: Topology, s: State, s': State) {
    |s.sws| == |s'.sws| == |t.ids| && Measure(|t.ids|, s', |t.ids|) < Measure(|t.ids|, s, |t.ids|)
  }

  /** One more delivery: the measure drops or every vector stays. */
  lemma LowerOrSame(t: Topology, tr: seq<State>, evs: seq<Event>, s: State, ev: Event, s': State)
    requires ValidTopology(t) && Run(t, tr, evs) && SameVectors(s, tr[|evs|]) && Step(t, tr[|evs|], ev, s')
    ensures Lower(t, s, s') || SameVectors(s, s')
  {
    RunInv(t, tr, evs, |evs|);
    ChangeDecreasesMeasure(t, tr[|evs|], ev, s');
    MeasureDependsOnVectors(|t.ids|, s, tr[|evs|], |t.ids|);
  }

  /** The switch behind the root port claims strictly less. */
  lemma BehindRootPort(t: Topology, s: State, i: nat) returns (e: End)
    requires ValidTopology(t) && Inv(t, s) && i < |s.sws| && !s.sws[i].hello
    ensures e in t.peer && e.sw == i && e.port < |s.sws[i].ports| && !Designated(s, e)
    ensures var f := t.peer[e].sw;
      && f < |s.sws|
      && (s.sws[f].root < s.sws[i].root || (s.sws[f].root == s.sws[i].root && s.sws[f].cost < s.sws[i].cost))
  {
    assert SwitchInv(t, s, i);
    e := End(i, s.sws[i].rootPort.value);
    AlternateHoldsPeerOffer(t, s, e);
  }

  lemma RelayOrChange(t: Topology, tr: seq<State>, evs: seq<Event>, s: State, e: End)
    returns (tr': seq<State>, evs': seq<Event>)
    requires ValidTopology(t) && Run(t, tr, evs) && Inv(t, s) && SameVectors(s, tr[|evs|])
    requires e in t.peer && e.sw < |s.sws| && e.port < |s.sws[e.sw].ports| && !Designated(s, e)
    requires Emitted(t, tr[|evs|], t.peer[e].sw)
    ensures Run(t, tr', evs') && tr <= tr' && evs <= evs'
    ensures var s' := tr'[|evs'|]; Lower(t, s, s') || (SameVectors(s, s') && Emitted(t, s', e.sw))
  {
    var s1 := tr[|evs|];
    RunInv(t, tr, evs, |evs|);
    assert SwitchInv(t, s, e.sw) && SwitchInv(t, s1, e.sw);
    var s2 := RootPortRelays(t, tr, evs, e);
    var ev := Deliver(Message(e, OfferAt(s1, t.peer[e])));
    LowerOrSame(t, tr, evs, s, ev, s2);
    tr', evs' := tr + [s2], evs + [ev];
  }

  /** Whatever was lost, any switch can be brought to send its offers, or some
      vector changes: along root ports (root, cost) falls strictly, down to a
      switch whose hello timer runs. */
  lemma {:induction false} EmitOrChange(t: Topology, tr: seq<State>, evs: seq<Event>, i: nat)
    returns (tr': seq<State>, evs': seq<Event>)
    requires ValidTopology(t) && Run(t, tr, evs) && i < |tr[|evs|].sws|
    ensures Run(t, tr', evs') && tr <= tr' && evs <= evs'
    ensures var s, s' := tr[|evs|], tr'[|evs'|]; Lower(t, s, s') || (SameVectors(s, s') && Emitted(t, s', i))
    decreases tr[|evs|].sws[i].root, tr[|evs|].sws[i].cost
  {
    var s := tr[|evs|];
    if s.sws[i].hello {
      var s' := HelloEmits(t, tr, evs, i);
      tr', evs' := tr + [s'], evs + [Hello(i)];
    } else {
      RunInv(t, tr, evs, |evs|);
      var e := BehindRootPort(t, s, i);
      var tr1, evs1 := EmitOrChange(t, tr, evs, t.peer[e].sw);
      if Lower(t, s, tr1[|evs1|]) {
        tr', evs' := tr1, evs1;
      } else {
        tr', evs' := RelayOrChange(t, tr1, evs1, s, e);
      }
    }
  }

  lemma DeliverOffer(t: Topology, tr: seq<State>, evs: seq<Event>, e: End) returns (s': State)
    requires Run(t, tr, evs) && e in t.peer
    requires var s, f := tr[|evs|], t.peer[e];
      && e.sw < |s.sws| && Message(f, OfferAt(s, e)) in s.sent
      && f.sw < |s.sws| && CanHandle(s.sws[f.sw], f.port, OfferAt(s, e))
    ensures Step(t, tr[|evs|], Deliver(Message(t.peer[e], OfferAt(tr[|evs|], e))), s')
    ensures Run(t, tr + [s'], evs + [Deliver(Message(t.peer[e], OfferAt(tr[|evs|], e)))])
    ensures var s, f := tr[|evs|], t.peer[e];
      |s'.sws| == |s.sws| && s'.sws[f.sw].ports == Handle(s.sws[f.sw], f.port, OfferAt(s, e)).0.ports
  {
    var s, f := tr[|evs|], t.peer[e];
    var m := Message(f, OfferAt(s, e));
    var r := Handle(s.sws[f.sw], f.port, m.vec);
    s' := State(s.sws[f.sw := r.0], s.sent + Emit(t, f.sw, r.1));
    ExtendRun(t, tr, evs, Deliver(m), s');
  }

  lemma OfferLowers(t: Topology, tr: seq<State>, evs: seq<Event>, s: State, e: End) returns (s': State)
    requires ValidTopology(t) && Run(t, tr, evs) && Inv(t, s) && SameVectors(s, tr[|evs|]) && Unsettled(t, s, e)
    requires Emitted(t, tr[|evs|], e.sw)
    ensures Run(t, tr + [s'], evs + [Deliver(Message(t.peer[e], OfferAt(tr[|evs|], e)))]) && Lower(t, s, s')
  {
    RunInv(t, tr, evs, |evs|);
    StillUnsettled(t, s, tr[|evs|], e);
    s' := DeliverOffer(t, tr, evs, e);
    LowerOrSame(t, tr, evs, s, Deliver(Message(t.peer[e], OfferAt(tr[|evs|], e))), s');
  }

  /** If a designated port would change its peer's vectors, its offer can be
      delivered, or some vector changes before. */
  lemma DeliverUnsettled(t: Topology, tr: seq<State>, evs: seq<Event>, e: End)
    returns (tr': seq<State>, evs': seq<Event>)
    requires ValidTopology(t) && Run(t, tr, evs) && Unsettled(t, tr[|evs|], e)
    ensures Run(t, tr', evs') && tr <= tr' && evs <= evs' && Lower(t, tr[|evs|], tr'[|evs'|])
  {
    var s, f := tr[|evs|], t.peer[e];
    RunInv(t, tr, evs, |evs|);
    tr', evs' := EmitOrChange(t, tr, evs, e.sw);
    var s1 := tr'[|evs'|];
    if !Lower(t, s, s1) {
      var s2 := OfferLowers(t, tr', evs', s, e);
      tr', evs' := tr' + [s2], evs' + [Deliver(Message(f, OfferAt(s1, e)))];
    }
  }

  /** A state is quiescent exactly when no continuation changes any switch. */
  lemma SettledExactly(t: Topology, tr: seq<State>, evs: seq<Event>)
    requires ValidTopology(t) && Run(t, tr, evs)
    ensures Quiescent(t, tr[|evs|]) <==>
      forall tr': seq<State>, evs': seq<Event> :: Run(t, tr', evs') && tr <= tr' ==> tr'[|evs'|].sws == tr[|evs|].sws
  {
    if Quiescent(t, tr[|evs|]) {
      forall tr': seq<State>, evs': seq<Event> | Run(t, tr', evs') && tr <= tr'
        ensures tr'[|evs'|].sws == tr[|evs|].sws
      {
        QuiescentIsFinal(t, tr', evs', |evs|, |evs'|);
      }
    } else {
      var e :| e in t.peer && Unsettled(t, tr[|evs|], e);
      var tr', evs' := DeliverUnsettled(t, tr, evs, e);
      MeasureOfSwitches(t, tr[|evs|], tr'[|evs'|]);
    }
  }

  lemma MeasureOfSwitches(t: Topology, s: State, s': State)
    requires Lower(t, s, s')
    ensures s'.sws != s.sws
  {
    if s'.sws == s.sws {
      MeasureDependsOnVectors(|t.ids|, s, s', |t.ids|);
      assert false;
    }
  }

  /** Every run can be continued to a state in which nothing changes any more,
      even after the links have lost all they carried. */
  lemma {:induction false} EveryRunCanStabilise(t: Topology, tr: seq<State>, evs: seq<Event>)
    returns (tr': seq<State>, evs': seq<Event>)
    requires ValidTopology(t) && Run(t, tr, evs) && |tr[|evs|].sws| == |t.ids|
    ensures Run(t, tr', evs') && tr <= tr' && evs <= evs' && Quiescent(t, tr'[|evs'|])
    decreases Measure(|t.ids|, tr[|evs|], |t.ids|)
  {
    if Quiescent(t, tr[|evs|]) {
      tr', evs' := tr, evs;
    } else {
      var e :| Unsettled(t, tr[|evs|], e);
      var tr1, evs1 := DeliverUnsettled(t, tr, evs, e);
      tr', evs' := EveryRunCanStabilise(t, tr1, evs1);
    }
  }

  /** Every run of a connected network, with all that is in flight lost, can be
      continued to the spanning tree. */
  lemma EveryRunCanReachTree(t: Topology, tr: seq<State>, evs: seq<Event>, m: nat)
    returns (tr': seq<State>, evs': seq<Event>)
    requires ValidTopology(t) && Connected(t) && Smallest(t, m) && Run(t, tr, evs)
    ensures Run(t, tr', evs') && tr + [tr[|evs|].(sent := {})] <= tr' && evs + [Lose(tr[|evs|].sent)] <= evs'
    ensures SpanningTree(t, tr'[|evs'|], m)
  {
    var s := tr[|evs|];
    var s1 := s.(sent := {});
    assert s.sent - s.sent == {};
    ExtendRun(t, tr, evs, Lose(s.sent), s1);
    RunInv(t, tr + [s1], evs + [Lose(s.sent)], |evs| + 1);
    tr', evs' := EveryRunCanStabilise(t, tr + [s1], evs + [Lose(s.sent)]);
    assert Reachable(t, tr'[|evs'|]);
    QuiescentIsSpanningTree(t, tr'[|evs'|], m);
  }
}
