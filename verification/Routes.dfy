/** Route computation of lab7/07-mospf/mospf_database.c: a breadth-first search
    over a list that is kept sorted and extended while it is being walked.

  Networks are given already masked. A route records the network it was learned
  from; the choice of gateway and interface is not modelled.
*/
module Routes {
  /** One advertised link; rid is 0 when no router is known behind it. */
  datatype Lsa = Lsa(network: nat, mask: nat, rid: nat)

  datatype DbEntry = DbEntry(advs: seq<Lsa>)

  datatype Net = Net(nid: nat, dist: nat)

  datatype Route = Route(dest: nat, mask: nat, pre: nat)

  // ---------------------------------------------------------------------
  // The graph the database describes
  // ---------------------------------------------------------------------

  /** The router of entry k is on network x, with a router behind it, and on network y. */
  predicate LinkAt(db: seq<DbEntry>, k: nat, i: nat, j: nat, x: nat, y: nat) {
    && k < |db| && i < |db[k].advs| && j < |db[k].advs| && i != j
    && db[k].advs[i].network == x && db[k].advs[i].rid != 0
    && db[k].advs[j].network == y
  }

  ghost predicate Link(db: seq<DbEntry>, x: nat, y: nat) {
    exists k: nat, i: nat, j: nat :: LinkAt(db, k, i, j, x, y)
  }

  /** y is d links away from a directly connected network. */
  ghost predicate Hops(kernel: seq<nat>, db: seq<DbEntry>, y: nat, d: nat)
    decreases d
  {
    if d == 0 then y in kernel
    else exists x: nat :: Hops(kernel, db, x, d - 1) && Link(db, x, y)
  }

  ghost predicate ShortestHops(kernel: seq<nat>, db: seq<DbEntry>, y: nat, d: nat) {
    Hops(kernel, db, y, d) && forall h: nat :: Hops(kernel, db, y, h) ==> d <= h
  }

  // ---------------------------------------------------------------------
  // What the loops look for
  // ---------------------------------------------------------------------

  predicate IsAdv(e: DbEntry, x: nat, i: nat) {
    i < |e.advs| && e.advs[i].network == x && e.advs[i].rid != 0
  }

  /** The first advertisement of network x with a router behind it, or nadv. */
  function FirstAdv(e: DbEntry, x: nat, i: nat): (r: nat)
    requires i <= |e.advs|
    ensures i <= r <= |e.advs|
    ensures forall k: nat :: i <= k < r ==> !IsAdv(e, x, k)
    ensures r < |e.advs| ==> IsAdv(e, x, r)
    decreases |e.advs| - i
  {
    if i == |e.advs| || IsAdv(e, x, i) then i else FirstAdv(e, x, i + 1)
  }

  /** The loops step from network x to the j-th network that e advertises. */
  predicate Leads(e: DbEntry, x: nat, j: nat) {
    j < |e.advs| && FirstAdv(e, x, 0) < |e.advs| && j != FirstAdv(e, x, 0)
  }

  predicate LeadsTo(db: seq<DbEntry>, k: nat, x: nat, j: nat, y: nat) {
    k < |db| && Leads(db[k], x, j) && db[k].advs[j].network == y
  }

  /** The first advertisement, in database order, that leads from x to y. */
  ghost predicate FirstLead(db: seq<DbEntry>, k: nat, x: nat, j: nat, y: nat) {
    && LeadsTo(db, k, x, j, y)
    && forall k': nat, j': nat :: LeadsTo(db, k', x, j', y) ==> k < k' || (k == k' && j <= j')
  }

  /** Stopping at the first advertisement of x misses no link. */
  lemma LinkIsFollowed(db: seq<DbEntry>, k: nat, i: nat, j: nat, x: nat, y: nat) returns (l: nat)
    requires LinkAt(db, k, i, j, x, y)
    ensures Leads(db[k], x, l) && db[k].advs[l].network == y
  {
    assert IsAdv(db[k], x, i);
    l := if j == FirstAdv(db[k], x, 0) then i else j;
  }

  // ---------------------------------------------------------------------
  // The sorted list
  // ---------------------------------------------------------------------

  predicate Before(a: Net, b: Net) {
    a.dist < b.dist || (a.dist == b.dist && a.nid < b.nid)
  }

  /** Where a new node goes: before the first node that does not precede it. */
  function Place(list: seq<Net>, n: Net, i: nat): (r: nat)
    requires i <= |list|
    ensures i <= r <= |list|
    ensures forall k: nat :: i <= k < r ==> Before(list[k], n)
    ensures r < |list| ==> !Before(list[r], n)
    decreases |list| - i
  {
    if i == |list| || !Before(list[i], n) then i else Place(list, n, i + 1)
  }

  function Inserted(list: seq<Net>, n: Net): seq<Net> {
    var p := Place(list, n, 0);
    list[..p] + [n] + list[p..]
  }

  /** By distance, networks at the same distance by number. */
  ghost predicate Sorted(list: seq<Net>) {
    forall i: nat, j: nat :: i < j < |list| ==> NotAfter(list[i], list[j])
  }

  predicate NotAfter(a: Net, b: Net) {
    a.dist < b.dist || (a.dist == b.dist && a.nid <= b.nid)
  }

  ghost predicate Distinct(s: seq<nat>) {
    forall i: nat, j: nat :: i < j < |s| ==> s[i] != s[j]
  }

  ghost predicate DistinctNets(list: seq<Net>) {
    forall i: nat, j: nat :: i < j < |list| ==> list[i].nid != list[j].nid
  }

  ghost predicate Listed(list: seq<Net>, y: nat) {
    exists n :: n in list && n.nid == y
  }

  /** Entries for one network agree. */
  ghost predicate Functional(list: seq<Net>) {
    forall m, n :: m in list && n in list && m.nid == n.nid ==> m == n
  }

  /** y is in the list, at distance d or less. */
  ghost predicate Covered(list: seq<Net>, y: nat, d: nat) {
    exists n :: n in list && n.nid == y && n.dist <= d
  }

  lemma InsertedMembers(list: seq<Net>, n: Net)
    ensures forall x :: x in Inserted(list, n) <==> x in list || x == n
  {
  }

  lemma InsertedSorted(list: seq<Net>, n: Net)
    requires Sorted(list)
    ensures Sorted(Inserted(list, n))
  {
  }

  lemma InsertedDistinct(list: seq<Net>, n: Net)
    requires DistinctNets(list) && !Listed(list, n.nid)
    ensures DistinctNets(Inserted(list, n))
  {
  }

  /** A node farther than node i lands strictly after it. */
  lemma InsertedAfter(list: seq<Net>, n: Net, i: nat)
    requires Sorted(list) && i < |list| && list[i].dist < n.dist
    ensures Place(list, n, 0) > i
    ensures Inserted(list, n)[..i + 1] == list[..i + 1]
  {
  }

  // ---------------------------------------------------------------------
  // What the search keeps
  // ---------------------------------------------------------------------

  ghost function Networks(db: seq<DbEntry>): set<nat> {
    set k: nat, j: nat | k < |db| && j < |db[k].advs| :: db[k].advs[j].network
  }

  ghost function Nids(list: seq<Net>): set<nat> {
    set n | n in list :: n.nid
  }

  /** The number of advertised networks that are not in the list yet. */
  ghost function Missing(db: seq<DbEntry>, list: seq<Net>): nat {
    |Networks(db) - Nids(list)|
  }

  ghost predicate RouteOk(db: seq<DbEntry>, list: seq<Net>, r: Route) {
    exists k: nat, i: nat, j: nat, d: nat :: RouteVia(db, list, r, k, i, j, d)
  }

  /** r leads from a network at distance d over an advertised link to one at d + 1,
      with the mask of the first advertisement of that link. */
  ghost predicate RouteVia(db: seq<DbEntry>, list: seq<Net>, r: Route, k: nat, i: nat, j: nat, d: nat) {
    && LinkAt(db, k, i, j, r.pre, r.dest) && db[k].advs[j].mask == r.mask
    && FirstLead(db, k, r.pre, j, r.dest)
    && Net(r.pre, d) in list && Net(r.dest, d + 1) in list
  }

  ghost predicate HasRoute(routes: seq<Route>, y: nat) {
    exists i: nat :: i < |routes| && routes[i].dest == y
  }

  /** No smaller network one hop nearer has a link to the destination. */
  ghost predicate SmallestPre(db: seq<DbEntry>, list: seq<Net>, r: Route) {
    forall x: nat, d: nat :: Net(x, d) in list && Net(r.dest, d + 1) in list && Link(db, x, r.dest) ==> r.pre <= x
  }

  /** The routes come in the order of the networks they were learned from. */
  ghost predicate InOrder(list: seq<Net>, routes: seq<Route>) {
    forall a: nat, b: nat, d: nat, e: nat ::
      a < b < |routes| && Net(routes[a].pre, d) in list && Net(routes[b].pre, e) in list ==>
        NotAfter(Net(routes[a].pre, d), Net(routes[b].pre, e))
  }

  /** All routes were learned from networks not after n. */
  ghost predicate LearnedBy(list: seq<Net>, routes: seq<Route>, n: Net) {
    forall a: nat, d: nat :: a < |routes| && Net(routes[a].pre, d) in list ==> NotAfter(Net(routes[a].pre, d), n)
  }

  ghost predicate EachRouteOk(db: seq<DbEntry>, list: seq<Net>, routes: seq<Route>) {
    forall i: nat :: i < |routes| ==>
      RouteOk(db, list, routes[i]) && SmallestPre(db, list, routes[i]) && Listed(list, routes[i].dest)
  }

  ghost predicate AllHaveRoutes(list: seq<Net>, routes: seq<Route>) {
    forall n :: n in list && n.dist > 0 ==> HasRoute(routes, n.nid)
  }

  ghost predicate OneRouteEach(routes: seq<Route>) {
    forall i: nat, j: nat :: i < j < |routes| ==> routes[i].dest != routes[j].dest
  }

  ghost predicate RoutesOk(db: seq<DbEntry>, list: seq<Net>, routes: seq<Route>) {
    EachRouteOk(db, list, routes) && InOrder(list, routes) && AllHaveRoutes(list, routes) && OneRouteEach(routes)
  }

  ghost predicate ListOk(kernel: seq<nat>, db: seq<DbEntry>, list: seq<Net>) {
    && Sorted(list) && Functional(list)
    && (forall n :: n in list ==> Hops(kernel, db, n.nid, n.dist))
    && (forall y :: y in kernel ==> Net(y, 0) in list)
    && (Distinct(kernel) ==> DistinctNets(list))
  }

  /** What one round of the walk may do to the list while node i is current. */
  ghost predicate Grown(db: seq<DbEntry>, was: seq<Net>, list: seq<Net>, i: nat) {
    && i < |was| && i < |list| && list[..i + 1] == was[..i + 1]
    && (forall n :: n in was ==> n in list)
    && (forall n :: n in list && n !in was ==> n.dist == was[i].dist + 1)
    && (list == was || Missing(db, list) < Missing(db, was))
  }

  lemma GrownTransitive(db: seq<DbEntry>, a: seq<Net>, b: seq<Net>, c: seq<Net>, i: nat)
    requires Grown(db, a, b, i) && Grown(db, b, c, i)
    ensures Grown(db, a, c, i)
  {
  }

  /** Every neighbour of the first i nodes is in the list, one farther at most. */
  ghost predicate Closed(db: seq<DbEntry>, list: seq<Net>, i: nat)
    requires i <= |list|
  {
    forall a: nat, y: nat :: a < i && Link(db, list[a].nid, y) ==> Covered(list, y, list[a].dist + 1)
  }

  /** Everything entry k leads to from cur is covered. */
  ghost predicate EntryDone(db: seq<DbEntry>, list: seq<Net>, cur: Net, k: nat) {
    k < |db| && forall j: nat :: Leads(db[k], cur.nid, j) ==> Covered(list, db[k].advs[j].network, cur.dist + 1)
  }

  ghost predicate DoneBelow(db: seq<DbEntry>, list: seq<Net>, cur: Net, k: nat, j: nat) {
    && k < |db|
    && forall l: nat :: l < j && Leads(db[k], cur.nid, l) ==> Covered(list, db[k].advs[l].network, cur.dist + 1)
  }

  lemma DoneOneMore(db: seq<DbEntry>, was: seq<Net>, list: seq<Net>, cur: Net, k: nat, j: nat)
    requires DoneBelow(db, was, cur, k, j) && forall n :: n in was ==> n in list
    requires Leads(db[k], cur.nid, j) ==> Covered(list, db[k].advs[j].network, cur.dist + 1)
    ensures DoneBelow(db, list, cur, k, j + 1)
  {
  }

  lemma EntryStaysDone(db: seq<DbEntry>, was: seq<Net>, list: seq<Net>, cur: Net, k: nat)
    requires EntryDone(db, was, cur, k) && forall n :: n in was ==> n in list
    ensures EntryDone(db, list, cur, k)
  {
  }

  ghost predicate AllDone(db: seq<DbEntry>, list: seq<Net>, cur: Net, k: nat) {
    forall l: nat :: l < k ==> EntryDone(db, list, cur, l)
  }

  lemma AllStayDone(db: seq<DbEntry>, was: seq<Net>, list: seq<Net>, cur: Net, k: nat)
    requires AllDone(db, was, cur, k) && forall n :: n in was ==> n in list
    ensures AllDone(db, list, cur, k)
  {
    forall l: nat | l < k ensures EntryDone(db, list, cur, l) {
      EntryStaysDone(db, was, list, cur, l);
    }
  }

  /** cur has been followed through the first k entries and the first j
      advertisements of the next. */
  ghost predicate FollowedUpTo(db: seq<DbEntry>, list: seq<Net>, cur: Net, k: nat, j: nat) {
    AllDone(db, list, cur, k) && DoneBelow(db, list, cur, k, j)
  }

  lemma EntryIsDone(db: seq<DbEntry>, list: seq<Net>, cur: Net, k: nat)
    requires k < |db| && AllDone(db, list, cur, k)
    requires FirstAdv(db[k], cur.nid, 0) == |db[k].advs| || DoneBelow(db, list, cur, k, |db[k].advs|)
    ensures AllDone(db, list, cur, k + 1)
  {
  }

  lemma FollowedOneMore(db: seq<DbEntry>, was: seq<Net>, list: seq<Net>, cur: Net, k: nat, j: nat)
    requires FollowedUpTo(db, was, cur, k, j) && forall n :: n in was ==> n in list
    requires Leads(db[k], cur.nid, j) ==> Covered(list, db[k].advs[j].network, cur.dist + 1)
    ensures FollowedUpTo(db, list, cur, k, j + 1)
  {
    AllStayDone(db, was, list, cur, k);
    DoneOneMore(db, was, list, cur, k, j);
  }

  lemma CoveredKept(was: seq<Net>, list: seq<Net>, y: nat, d: nat)
    requires Covered(was, y, d) && forall n :: n in was ==> n in list
    ensures Covered(list, y, d)
  {
  }

  lemma NeighbourHops(kernel: seq<nat>, db: seq<DbEntry>, list: seq<Net>, i: nat, k: nat, j: nat)
    requires i < |list| && (forall n :: n in list ==> Hops(kernel, db, n.nid, n.dist))
    requires k < |db| && Leads(db[k], list[i].nid, j)
    ensures Hops(kernel, db, db[k].advs[j].network, list[i].dist + 1)
  {
    var y, d := db[k].advs[j].network, list[i].dist + 1;
    assert LinkAt(db, k, FirstAdv(db[k], list[i].nid, 0), j, list[i].nid, y);
    assert list[i] in list && Link(db, list[i].nid, y);
    assert Hops(kernel, db, list[i].nid, d - 1);
  }

  /** Adding an unlisted neighbour of the current node keeps everything. */
  lemma AddKeeps(kernel: seq<nat>, db: seq<DbEntry>, list: seq<Net>, i: nat, k: nat, j: nat)
    requires ListOk(kernel, db, list) && i < |list|
    requires k < |db| && Leads(db[k], list[i].nid, j) && !Listed(list, db[k].advs[j].network)
    ensures var n := Net(db[k].advs[j].network, list[i].dist + 1);
      ListOk(kernel, db, Inserted(list, n)) && Grown(db, list, Inserted(list, n), i)
  {
    var y := db[k].advs[j].network;
    var n := Net(y, list[i].dist + 1);
    var l := Inserted(list, n);
    InsertedMembers(list, n);
    InsertedSorted(list, n);
    InsertedAfter(list, n, i);
    if Distinct(kernel) {
      InsertedDistinct(list, n);
    }
    NeighbourHops(kernel, db, list, i, k, j);
    MissingShrinks(db, list, n, k, j);
  }

  lemma MissingShrinks(db: seq<DbEntry>, list: seq<Net>, n: Net, k: nat, j: nat)
    requires k < |db| && j < |db[k].advs| && n.nid == db[k].advs[j].network && !Listed(list, n.nid)
    ensures Missing(db, Inserted(list, n)) < Missing(db, list)
  {
    InsertedMembers(list, n);
    var l := Inserted(list, n);
    assert n in l;
    assert n.nid !in Nids(list);
    assert Nids(l) == Nids(list) + {n.nid};
    assert Networks(db) - Nids(list) == (Networks(db) - Nids(l)) + {n.nid};
  }

  /** The routes already learned stay the smallest when a farther node comes in. */
  lemma SmallestKept(db: seq<DbEntry>, was: seq<Net>, n: Net, r: Route)
    requires Functional(was) && RouteOk(db, was, r) && SmallestPre(db, was, r) && !Listed(was, n.nid)
    requires forall x :: x in was ==> x.dist <= n.dist
    ensures SmallestPre(db, Inserted(was, n), r)
  {
    var k: nat, i: nat, j: nat, e: nat :| RouteVia(db, was, r, k, i, j, e);
    var l := Inserted(was, n);
    InsertedMembers(was, n);
    assert Net(r.dest, e + 1) in was;
    forall x: nat, d: nat | Net(x, d) in l && Net(r.dest, d + 1) in l && Link(db, x, r.dest) ensures r.pre <= x {
      assert Net(r.dest, d + 1) in was;
    }
  }

  lemma OrderKept(db: seq<DbEntry>, was: seq<Net>, n: Net, routes: seq<Route>, cur: Net)
    requires (forall a: nat :: a < |routes| ==> RouteOk(db, was, routes[a])) && !Listed(was, n.nid)
    requires InOrder(was, routes) && LearnedBy(was, routes, cur)
    ensures InOrder(Inserted(was, n), routes) && LearnedBy(Inserted(was, n), routes, cur)
  {
    InsertedMembers(was, n);
    forall a: nat, d: nat | a < |routes| && Net(routes[a].pre, d) in Inserted(was, n)
      ensures Net(routes[a].pre, d) in was
    {
      var k: nat, i: nat, j: nat, e: nat :| RouteVia(db, was, routes[a], k, i, j, e);
    }
  }

  /** What an earlier node has a link to is listed already. */
  lemma EarlierReaches(db: seq<DbEntry>, start: seq<Net>, list: seq<Net>, i: nat, a: nat, y: nat)
    requires Grown(db, start, list, i) && Closed(db, start, i) && a < i && Link(db, list[a].nid, y)
    ensures Listed(list, y)
  {
    assert list[a] == list[..i + 1][a] == start[..i + 1][a] == start[a];
    assert Covered(start, y, start[a].dist + 1);
  }

  /** The new route is learned from the smallest network that has a link. */
  lemma NewIsSmallest(db: seq<DbEntry>, start: seq<Net>, list: seq<Net>, i: nat, r: Route)
    requires Sorted(list) && Functional(list) && Grown(db, start, list, i) && Closed(db, start, i)
    requires !Listed(list, r.dest) && r.pre == list[i].nid
    ensures SmallestPre(db, Inserted(list, Net(r.dest, list[i].dist + 1)), r)
  {
    var n := Net(r.dest, list[i].dist + 1);
    var l := Inserted(list, n);
    InsertedMembers(list, n);
    forall x: nat, d: nat | Net(x, d) in l && Net(r.dest, d + 1) in l && Link(db, x, r.dest) ensures r.pre <= x {
      assert d == list[i].dist && Net(x, d) in list;
      var a: nat :| a < |list| && list[a] == Net(x, d);
      if a < i {
        EarlierReaches(db, start, list, i, a, r.dest);
      } else if a > i {
        assert NotAfter(list[i], list[a]);
      }
    }
  }

  lemma FollowedIsListed(db: seq<DbEntry>, list: seq<Net>, cur: Net, k: nat, j: nat, y: nat)
    requires EntryDone(db, list, cur, k) && LeadsTo(db, k, cur.nid, j, y)
    ensures Listed(list, y)
  {
  }

  /** Everything before the j-th advertisement of entry k has been followed from
      cur without meeting y, so this is the first that leads there. */
  lemma NewIsFirst(db: seq<DbEntry>, list: seq<Net>, cur: Net, k: nat, j: nat)
    requires k < |db| && Leads(db[k], cur.nid, j) && !Listed(list, db[k].advs[j].network)
    requires FollowedUpTo(db, list, cur, k, j)
    ensures FirstLead(db, k, cur.nid, j, db[k].advs[j].network)
  {
    var y := db[k].advs[j].network;
    forall k': nat, j': nat | LeadsTo(db, k', cur.nid, j', y) ensures k < k' || (k == k' && j <= j') {
      if k' < k {
        FollowedIsListed(db, list, cur, k', j', y);
      }
    }
  }

  lemma RouteKept(db: seq<DbEntry>, was: seq<Net>, list: seq<Net>, r: Route)
    requires RouteOk(db, was, r) && forall n :: n in was ==> n in list
    ensures RouteOk(db, list, r)
  {
    var k: nat, i: nat, j: nat, d: nat :| RouteVia(db, was, r, k, i, j, d);
    assert RouteVia(db, list, r, k, i, j, d);
  }

  lemma NewIsLast(list: seq<Net>, routes: seq<Route>, r: Route, cur: Net)
    requires InOrder(list, routes) && LearnedBy(list, routes, cur) && r.pre == cur.nid
    requires forall d: nat :: Net(cur.nid, d) in list ==> d == cur.dist
    ensures InOrder(list, routes + [r]) && LearnedBy(list, routes + [r], cur)
  {
  }

  lemma OldRoutesKept(db: seq<DbEntry>, list: seq<Net>, n: Net, routes: seq<Route>)
    requires EachRouteOk(db, list, routes) && Functional(list) && !Listed(list, n.nid)
    requires forall x :: x in list ==> x.dist <= n.dist
    ensures EachRouteOk(db, Inserted(list, n), routes)
  {
    var l := Inserted(list, n);
    InsertedMembers(list, n);
    forall a: nat | a < |routes|
      ensures RouteOk(db, l, routes[a]) && SmallestPre(db, l, routes[a]) && Listed(l, routes[a].dest)
    {
      RouteKept(db, list, l, routes[a]);
      SmallestKept(db, list, n, routes[a]);
    }
  }

  lemma NewHasRoute(list: seq<Net>, n: Net, routes: seq<Route>, r: Route)
    requires AllHaveRoutes(list, routes) && r.dest == n.nid
    ensures AllHaveRoutes(Inserted(list, n), routes + [r])
  {
    InsertedMembers(list, n);
    var rs := routes + [r];
    forall m | m in Inserted(list, n) && m.dist > 0 ensures HasRoute(rs, m.nid) {
      if m in list {
        var a: nat :| a < |routes| && routes[a].dest == m.nid;
        assert rs[a].dest == m.nid;
      } else {
        assert rs[|routes|].dest == m.nid;
      }
    }
  }

  lemma OneMoreRouteOk(db: seq<DbEntry>, list: seq<Net>, routes: seq<Route>, r: Route)
    requires EachRouteOk(db, list, routes)
    requires RouteOk(db, list, r) && SmallestPre(db, list, r) && Listed(list, r.dest)
    ensures EachRouteOk(db, list, routes + [r])
  {
  }

  lemma NewRouteIsNew(db: seq<DbEntry>, list: seq<Net>, routes: seq<Route>, r: Route)
    requires EachRouteOk(db, list, routes) && OneRouteEach(routes) && !Listed(list, r.dest)
    ensures OneRouteEach(routes + [r])
  {
  }

  lemma NewRouteOk(db: seq<DbEntry>, list: seq<Net>, i: nat, k: nat, j: nat, r: Route)
    requires i < |list| && k < |db| && Leads(db[k], list[i].nid, j) && !Listed(list, db[k].advs[j].network)
    requires FollowedUpTo(db, list, list[i], k, j)
    requires r == Route(db[k].advs[j].network, db[k].advs[j].mask, list[i].nid)
    ensures var l := Inserted(list, Net(r.dest, list[i].dist + 1)); RouteOk(db, l, r) && Listed(l, r.dest)
  {
    var n := Net(r.dest, list[i].dist + 1);
    InsertedMembers(list, n);
    NewIsFirst(db, list, list[i], k, j);
    assert list[i] in list && n in Inserted(list, n);
    assert RouteVia(db, Inserted(list, n), r, k, FirstAdv(db[k], list[i].nid, 0), j, list[i].dist);
  }

  lemma AddKeepsRoutes(
      db: seq<DbEntry>, start: seq<Net>, list: seq<Net>, routes: seq<Route>, i: nat, k: nat, j: nat)
    requires Sorted(list) && Functional(list) && Grown(db, start, list, i) && Closed(db, start, i)
    requires RoutesOk(db, list, routes) && LearnedBy(list, routes, list[i])
    requires forall n :: n in list ==> n.dist <= list[i].dist + 1
    requires FollowedUpTo(db, list, list[i], k, j)
    requires k < |db| && Leads(db[k], list[i].nid, j) && !Listed(list, db[k].advs[j].network)
    ensures var adv := db[k].advs[j];
      var l := Inserted(list, Net(adv.network, list[i].dist + 1));
      var rs := routes + [Route(adv.network, adv.mask, list[i].nid)];
      RoutesOk(db, l, rs) && LearnedBy(l, rs, list[i])
  {
    var r := Route(db[k].advs[j].network, db[k].advs[j].mask, list[i].nid);
    var n := Net(r.dest, list[i].dist + 1);
    InsertedMembers(list, n);
    NewRouteOk(db, list, i, k, j, r);
    NewIsSmallest(db, start, list, i, r);
    OrderKept(db, list, n, routes, list[i]);
    NewIsLast(Inserted(list, n), routes, r, list[i]);
    OldRoutesKept(db, list, n, routes);
    NewHasRoute(list, n, routes, r);
    OneMoreRouteOk(db, Inserted(list, n), routes, r);
    NewRouteIsNew(db, list, routes, r);
  }

  /** All that the search keeps while node i is current; start is the list from
      before the first entry was looked at. */
  ghost predicate SearchOk(
      kernel: seq<nat>, db: seq<DbEntry>, start: seq<Net>, list: seq<Net>, routes: seq<Route>, i: nat)
  {
    && ListOk(kernel, db, list) && RoutesOk(db, list, routes)
    && Grown(db, start, list, i) && Closed(db, start, i)
    && LearnedBy(list, routes, start[i])
    && (forall n :: n in start ==> n.dist <= start[i].dist + 1)
  }

  /** What the outer loop keeps: the first i nodes are done, and no node is more
      than one link beyond the next. */
  ghost predicate Walking(kernel: seq<nat>, db: seq<DbEntry>, list: seq<Net>, routes: seq<Route>, i: nat) {
    && i <= |list|
    && ListOk(kernel, db, list) && RoutesOk(db, list, routes) && Closed(db, list, i)
    && (i < |list| ==> LearnedBy(list, routes, list[i]) && forall n :: n in list ==> n.dist <= list[i].dist + 1)
  }

  lemma CurrentUnchanged(db: seq<DbEntry>, start: seq<Net>, list: seq<Net>, i: nat)
    requires Grown(db, start, list, i)
    ensures list[i] == start[i]
  {
  }

  lemma AddKeepsSearch(
      kernel: seq<nat>, db: seq<DbEntry>, start: seq<Net>, list: seq<Net>, routes: seq<Route>, i: nat, k: nat, j: nat)
    requires SearchOk(kernel, db, start, list, routes, i)
    requires k < |db| && Leads(db[k], start[i].nid, j) && !Listed(list, db[k].advs[j].network)
    requires FollowedUpTo(db, list, start[i], k, j)
    ensures var adv := db[k].advs[j];
      var l := Inserted(list, Net(adv.network, start[i].dist + 1));
      && SearchOk(kernel, db, start, l, routes + [Route(adv.network, adv.mask, start[i].nid)], i)
      && Covered(l, adv.network, start[i].dist + 1)
      && (forall n :: n in list ==> n in l)
  {
    CurrentUnchanged(db, start, list, i);
    var n := Net(db[k].advs[j].network, start[i].dist + 1);
    AddKeeps(kernel, db, list, i, k, j);
    AddKeepsRoutes(db, start, list, routes, i, k, j);
    GrownTransitive(db, start, list, Inserted(list, n), i);
    InsertedMembers(list, n);
  }

  lemma ListedIsCovered(
      kernel: seq<nat>, db: seq<DbEntry>, start: seq<Net>, list: seq<Net>, routes: seq<Route>, i: nat, y: nat)
    requires SearchOk(kernel, db, start, list, routes, i) && Listed(list, y)
    ensures Covered(list, y, start[i].dist + 1)
  {
  }

  // ---------------------------------------------------------------------
  // The search
  // ---------------------------------------------------------------------

  class Router {
    var netList: seq<Net>
    var rtable: seq<Route>
    var db: seq<DbEntry>

    /** The walk that finds the place is the loop of add_net. */
    method AddNet(dist: nat, network: nat)
      modifies this`netList
      ensures netList == Inserted(old(netList), Net(network, dist))
    {
      var n := Net(network, dist);
      var p := 0;
      while p < |netList| && (netList[p].dist < n.dist || (netList[p].dist == n.dist && netList[p].nid < n.nid))
        invariant p <= |netList| && Place(netList, n, p) == Place(netList, n, 0)
      {
        p := p + 1;
      }
      netList := netList[..p] + [n] + netList[p..];
    }

    method NetAdded(network: nat) returns (found: bool)
      ensures found <==> Listed(netList, network)
    {
      for i := 0 to |netList|
        invariant forall k: nat :: k < i ==> netList[k].nid != network
      {
        if netList[i].nid == network {
          return true;
        }
      }
      return false;
    }

    method LoadKernel(kernel: seq<nat>)
      requires netList == []
      modifies this`netList
      ensures ListOk(kernel, db, netList) && (forall n :: n in netList ==> n.dist == 0)
    {
      for i := 0 to |kernel|
        invariant Sorted(netList)
        invariant forall n :: n in netList <==> n.dist == 0 && n.nid in kernel[..i]
        invariant Distinct(kernel) ==> DistinctNets(netList)
      {
        ghost var was := netList;
        var n := Net(kernel[i], 0);
        AddNet(0, kernel[i]);
        InsertedMembers(was, n);
        InsertedSorted(was, n);
        assert kernel[..i + 1] == kernel[..i] + [kernel[i]];
        if Distinct(kernel) {
          InsertedDistinct(was, n);
        }
      }
      assert kernel[..|kernel|] == kernel;
    }

    /** adv, an advertised network that is not listed yet, is one hop beyond node i. */
    method AddAdvertised(
        ghost kernel: seq<nat>, ghost db: seq<DbEntry>, ghost start: seq<Net>, i: nat,
        ghost k: nat, ghost j: nat, adv: Lsa)
      requires SearchOk(kernel, db, start, netList, rtable, i)
      requires k < |db| && Leads(db[k], start[i].nid, j) && db[k].advs[j] == adv && !Listed(netList, adv.network)
      requires FollowedUpTo(db, netList, start[i], k, j)
      modifies this`netList, this`rtable
      ensures SearchOk(kernel, db, start, netList, rtable, i)
      ensures forall n :: n in old(netList) ==> n in netList
      ensures Covered(netList, adv.network, start[i].dist + 1)
    {
      CurrentUnchanged(db, start, netList, i);
      AddKeepsSearch(kernel, db, start, netList, rtable, i, k, j);
      var cur := netList[i];
      AddNet(cur.dist + 1, adv.network);
      rtable := rtable + [Route(adv.network, adv.mask, cur.nid)];
    }

    /** The body of the innermost loop. */
    method VisitAdvertised(ghost kernel: seq<nat>, ghost start: seq<Net>, i: nat, k: nat, j: nat)
      requires SearchOk(kernel, db, start, netList, rtable, i)
      requires k < |db| && Leads(db[k], start[i].nid, j)
      requires FollowedUpTo(db, netList, start[i], k, j)
      modifies this`netList, this`rtable
      ensures SearchOk(kernel, db, start, netList, rtable, i)
      ensures forall n :: n in old(netList) ==> n in netList
      ensures Covered(netList, db[k].advs[j].network, start[i].dist + 1)
    {
      var found := NetAdded(db[k].advs[j].network);
      if found {
        ListedIsCovered(kernel, db, start, netList, rtable, i, db[k].advs[j].network);
      } else {
        AddAdvertised(kernel, db, start, i, k, j, db[k].advs[j]);
      }
    }

    method FindAdv(k: nat, x: nat) returns (f: nat)
      requires k < |db|
      ensures f == FirstAdv(db[k], x, 0)
    {
      f := 0;
      while f < |db[k].advs| && !(x == db[k].advs[f].network && db[k].advs[f].rid != 0)
        invariant f <= |db[k].advs| && FirstAdv(db[k], x, f) == FirstAdv(db[k], x, 0)
      {
        f := f + 1;
      }
    }

    /** The two inner loops: what the k-th database entry adds for node i. */
    method VisitEntry(ghost kernel: seq<nat>, ghost start: seq<Net>, i: nat, k: nat)
      requires SearchOk(kernel, db, start, netList, rtable, i) && k < |db|
      requires AllDone(db, netList, start[i], k)
      modifies this`netList, this`rtable
      ensures SearchOk(kernel, db, start, netList, rtable, i)
      ensures forall n :: n in old(netList) ==> n in netList
      ensures AllDone(db, netList, start[i], k + 1)
    {
      CurrentUnchanged(db, start, netList, i);
      var f := FindAdv(k, netList[i].nid);
      if f == |db[k].advs| {
        EntryIsDone(db, netList, start[i], k);
        return;
      }
      for j := 0 to |db[k].advs|
        invariant SearchOk(kernel, db, start, netList, rtable, i)
        invariant forall n :: n in old(netList) ==> n in netList
        invariant FollowedUpTo(db, netList, start[i], k, j)
      {
        ghost var mid := netList;
        if j != f {
          VisitAdvertised(kernel, start, i, k, j);
        }
        FollowedOneMore(db, mid, netList, start[i], k, j);
      }
      EntryIsDone(db, netList, start[i], k);
    }

    /** All database entries for node i. */
    method VisitEntries(ghost kernel: seq<nat>, ghost start: seq<Net>, i: nat)
      requires SearchOk(kernel, db, start, netList, rtable, i)
      modifies this`netList, this`rtable
      ensures SearchOk(kernel, db, start, netList, rtable, i) && AllDone(db, netList, start[i], |db|)
    {
      for k := 0 to |db|
        invariant SearchOk(kernel, db, start, netList, rtable, i)
        invariant AllDone(db, netList, start[i], k)
      {
        VisitEntry(kernel, start, i, k);
      }
    }

    /** The body of the outer loop. */
    method VisitNode(ghost kernel: seq<nat>, i: nat)
      requires SearchOk(kernel, db, netList, netList, rtable, i)
      modifies this`netList, this`rtable
      ensures SearchOk(kernel, db, old(netList), netList, rtable, i) && Closed(db, netList, i + 1)
    {
      ghost var start := netList;
      VisitEntries(kernel, start, i);
      ClosedGrows(db, start, netList, i);
    }

    /** The outer loop, over a list that grows meanwhile. */
    method WalkNets(ghost kernel: seq<nat>)
      requires Walking(kernel, db, netList, rtable, 0)
      modifies this`netList, this`rtable
      ensures Walking(kernel, db, netList, rtable, |netList|)
    {
      var i := 0;
      while i < |netList|
        invariant i <= |netList| && Walking(kernel, db, netList, rtable, i)
        decreases Missing(db, netList), |netList| - i
      {
        ghost var was := netList;
        WalkingSearches(kernel, db, was, rtable, i);
        VisitNode(kernel, i);
        WalksOn(kernel, db, was, netList, rtable, i);
        i := i + 1;
      }
    }

    /** net_list as it was before it is emptied again, and the learned routes.
        The list holds exactly the networks the database connects to the
        directly connected ones, each at its shortest hop count. */
    method UpdateRtable(kernel: seq<nat>) returns (nets: seq<Net>)
      requires netList == []
      modifies this`netList, this`rtable
      ensures netList == []
      ensures Sorted(nets)
      ensures forall n :: n in nets ==> ShortestHops(kernel, db, n.nid, n.dist)
      ensures forall y: nat, d: nat :: Hops(kernel, db, y, d) ==> Listed(nets, y)
      ensures Distinct(kernel) ==> DistinctNets(nets)
      ensures RoutesOk(db, nets, rtable)
    {
      rtable := [];
      LoadKernel(kernel);
      StartsWalking(kernel, db, netList);
      WalkNets(kernel);
      nets := netList;
      ClosedIsComplete(kernel, db, nets);
      netList := [];
    }
  }

  lemma NextIsNear(db: seq<DbEntry>, was: seq<Net>, list: seq<Net>, i: nat)
    requires Grown(db, was, list, i) && Sorted(list)
    requires forall n :: n in was ==> n.dist <= was[i].dist + 1
    ensures i + 1 < |list| ==> forall n :: n in list ==> n.dist <= list[i + 1].dist + 1
  {
    assert list[i] == list[..i + 1][i] == was[..i + 1][i] == was[i];
    if i + 1 < |list| {
      assert NotAfter(list[i], list[i + 1]);
    }
  }

  /** After a node has been visited the walk goes on with the next one. */
  lemma WalksOn(kernel: seq<nat>, db: seq<DbEntry>, was: seq<Net>, list: seq<Net>, routes: seq<Route>, i: nat)
    requires SearchOk(kernel, db, was, list, routes, i) && Closed(db, list, i + 1)
    ensures Walking(kernel, db, list, routes, i + 1)
  {
    CurrentUnchanged(db, was, list, i);
    NextIsNear(db, was, list, i);
    if i + 1 < |list| {
      LearnedEarlier(list, routes, list[i], list[i + 1]);
    }
  }

  lemma StartsWalking(kernel: seq<nat>, db: seq<DbEntry>, list: seq<Net>)
    requires ListOk(kernel, db, list) && forall n :: n in list ==> n.dist == 0
    ensures Walking(kernel, db, list, [], 0)
  {
  }

  lemma WalkingSearches(kernel: seq<nat>, db: seq<DbEntry>, list: seq<Net>, routes: seq<Route>, i: nat)
    requires Walking(kernel, db, list, routes, i) && i < |list|
    ensures SearchOk(kernel, db, list, list, routes, i)
  {
  }

  lemma LearnedEarlier(list: seq<Net>, routes: seq<Route>, a: Net, b: Net)
    requires LearnedBy(list, routes, a) && NotAfter(a, b)
    ensures LearnedBy(list, routes, b)
  {
  }

  lemma ClosedGrows(db: seq<DbEntry>, was: seq<Net>, list: seq<Net>, i: nat)
    requires Grown(db, was, list, i) && Closed(db, was, i)
    requires AllDone(db, list, was[i], |db|)
    ensures Closed(db, list, i + 1)
  {
    forall a: nat, y: nat | a < i + 1 && Link(db, list[a].nid, y)
      ensures Covered(list, y, list[a].dist + 1)
    {
      assert list[a] == list[..i + 1][a] == was[..i + 1][a] == was[a];
      if a < i {
        CoveredKept(was, list, y, was[a].dist + 1);
      } else {
        var k: nat, l: nat, j: nat :| LinkAt(db, k, l, j, list[a].nid, y);
        var f := LinkIsFollowed(db, k, l, j, list[a].nid, y);
        assert EntryDone(db, list, was[i], k);
      }
    }
  }

  /** In a list closed under links every path ends at a listed network that is no
      farther than the path is long. */
  lemma {:induction false} PathIsCovered(kernel: seq<nat>, db: seq<DbEntry>, list: seq<Net>, y: nat, d: nat)
    requires ListOk(kernel, db, list) && Closed(db, list, |list|) && Hops(kernel, db, y, d)
    ensures Covered(list, y, d)
    decreases d
  {
    if d > 0 {
      var x: nat :| Hops(kernel, db, x, d - 1) && Link(db, x, y);
      PathIsCovered(kernel, db, list, x, d - 1);
      var n :| n in list && n.nid == x && n.dist <= d - 1;
      var a: nat :| a < |list| && list[a] == n;
      assert Covered(list, y, list[a].dist + 1);
    }
  }

  lemma ClosedIsComplete(kernel: seq<nat>, db: seq<DbEntry>, list: seq<Net>)
    requires ListOk(kernel, db, list) && Closed(db, list, |list|)
    ensures forall n :: n in list ==> ShortestHops(kernel, db, n.nid, n.dist)
    ensures forall y: nat, d: nat :: Hops(kernel, db, y, d) ==> Listed(list, y)
  {
    forall n, h: nat | n in list && Hops(kernel, db, n.nid, h) ensures n.dist <= h {
      PathIsCovered(kernel, db, list, n.nid, h);
    }
    forall y: nat, d: nat | Hops(kernel, db, y, d) ensures Listed(list, y) {
      PathIsCovered(kernel, db, list, y, d);
    }
  }
}
