/** Where the vectors of the protocol come from. */
module StpHistory {
  import opened Common
  import opened StpSwitch
  import opened StpNetwork
  import opened StpTree

  /** v is what the peer of e offered in the j-th state. */
  ghost predicate OfferedAt(t: Topology, s: State, e: End, v: Vector) {
    e in t.peer && t.peer[e].sw < |s.sws| && v == OfferAt(s, t.peer[e])
  }

  /** v is what the peer of e offered in one of the first k + 1 states. */
  ghost predicate OnceOffered(t: Topology, tr: seq<State>, k: nat, e: End, v: Vector) {
    exists j: nat :: j <= k && j < |tr| && OfferedAt(t, tr[j], e, v)
  }

  /** Everything in flight, and every vector a switch has adopted, was offered. */
  ghost predicate AllOffered(t: Topology, tr: seq<State>, k: nat)
    requires k < |tr|
  {
    && (forall m :: m in tr[k].sent ==> OnceOffered(t, tr, k, m.dst, m.vec))
    && (forall i: nat, q: nat :: i < |tr[k].sws| && q < |tr[k].sws[i].ports| && !IsDesignated(tr[k].sws[i], q) ==>
          OnceOffered(t, tr, k, End(i, q), tr[k].sws[i].ports[q]))
  }

  lemma StillOffered(t: Topology, tr: seq<State>, j: nat, k: nat, e: End, v: Vector)
    requires j <= k && OnceOffered(t, tr, j, e, v)
    ensures OnceOffered(t, tr, k, e, v)
  {
  }

  /** What leaves switch i is what it offers in its new state. */
  lemma EmittedOffered(t: Topology, s: State, i: nat, out: seq<Packet>, m: Message)
    requires ValidTopology(t) && i < |s.sws| && m in Emit(t, i, out)
    requires forall k: nat :: k < |out| ==> out[k].vec == Offer(s.sws[i], out[k].port)
    ensures OfferedAt(t, s, m.dst, m.vec)
  {
  }

  lemma SentOffered(t: Topology, tr: seq<State>, evs: seq<Event>, k: nat, m: Message)
    requires ValidTopology(t) && Run(t, tr, evs) && k < |evs| && AllOffered(t, tr, k) && m in tr[k + 1].sent
    ensures OnceOffered(t, tr, k + 1, m.dst, m.vec)
  {
    RunInv(t, tr, evs, k);
    var s, s' := tr[k], tr[k + 1];
    assert Step(t, s, evs[k], s');
    if m in s.sent {
      StillOffered(t, tr, k, k + 1, m.dst, m.vec);
    } else if evs[k].Deliver? {
      var d := evs[k].m;
      DeliverLocal(t, s, d);
      EmittedOffered(t, s', d.dst.sw, Handle(s.sws[d.dst.sw], d.dst.port, d.vec).1, m);
    } else {
      var i := evs[k].i;
      HelloLocal(t, s, i);
      EmittedOffered(t, s', i, SendConfigs(s.sws[i], |s.sws[i].ports|), m);
    }
  }

  lemma HeldOffered(t: Topology, tr: seq<State>, evs: seq<Event>, k: nat, i: nat, q: nat)
    requires ValidTopology(t) && Run(t, tr, evs) && k < |evs| && AllOffered(t, tr, k)
    requires i < |tr[k + 1].sws| && q < |tr[k + 1].sws[i].ports| && !IsDesignated(tr[k + 1].sws[i], q)
    ensures OnceOffered(t, tr, k + 1, End(i, q), tr[k + 1].sws[i].ports[q])
  {
    RunInv(t, tr, evs, k);
    var s, s' := tr[k], tr[k + 1];
    assert Step(t, s, evs[k], s');
    if evs[k].Deliver? && evs[k].m.dst.sw == i {
      AdoptedFrom(t, s, evs[k].m, s', q);
      var m := evs[k].m;
      if s'.sws[i].ports[q] == m.vec && q == m.dst.port {
        assert m.dst == End(i, q);
        StillOffered(t, tr, k, k + 1, m.dst, m.vec);
      } else {
        StillOffered(t, tr, k, k + 1, End(i, q), s.sws[i].ports[q]);
      }
    } else {
      StillOffered(t, tr, k, k + 1, End(i, q), s.sws[i].ports[q]);
    }
  }

  /** A port that is not designated after a delivery holds what was delivered
      there, or what it held before. */
  lemma AdoptedFrom(t: Topology, s: State, m: Message, s': State, q: nat)
    requires ValidTopology(t) && Inv(t, s) && Step(t, s, Deliver(m), s')
    requires q < |s'.sws[m.dst.sw].ports| && !IsDesignated(s'.sws[m.dst.sw], q)
    ensures var w, w' := s.sws[m.dst.sw], s'.sws[m.dst.sw];
      (q == m.dst.port && w'.ports[q] == m.vec) || (q < |w.ports| && w'.ports[q] == w.ports[q] && !IsDesignated(w, q))
  {
    assert SwitchInv(t, s, m.dst.sw);
    InvForeign(t, s, m.dst.sw);
    FromPeerForeign(t, s, m.dst, m.vec);
    HandleLocal(s.sws[m.dst.sw], m.dst.port, m.vec);
  }

  /** In every state of every run: each message in flight, and each vector held by
      a port that is not designated, is word for word what the peer offered in
      that state or an earlier one. */
  lemma {:induction false} EveryVectorWasOffered(t: Topology, tr: seq<State>, evs: seq<Event>, k: nat)
    requires ValidTopology(t) && Run(t, tr, evs) && k <= |evs|
    ensures AllOffered(t, tr, k)
  {
    if k == 0 {
      forall i: nat | i < |tr[0].sws|
        ensures forall q: nat :: q < |tr[0].sws[i].ports| ==> IsDesignated(tr[0].sws[i], q)
      {
        assert tr[0].sws[i] == Initial(t.ids[i], t.nports[i]);
      }
    } else {
      EveryVectorWasOffered(t, tr, evs, k - 1);
      forall m | m in tr[k].sent ensures OnceOffered(t, tr, k, m.dst, m.vec) {
        SentOffered(t, tr, evs, k - 1, m);
      }
      forall i: nat, q: nat | i < |tr[k].sws| && q < |tr[k].sws[i].ports| && !IsDesignated(tr[k].sws[i], q)
        ensures OnceOffered(t, tr, k, End(i, q), tr[k].sws[i].ports[q])
      {
        HeldOffered(t, tr, evs, k - 1, i, q);
      }
    }
  }
}
