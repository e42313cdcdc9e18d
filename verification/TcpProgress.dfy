/** How a connection gets on: what is written arrives. */
module TcpProgress {
  import opened Common
  import opened TcpSegments
  import opened TcpReceiver
  import opened TcpSender
  import opened TcpControl
  import opened TcpStream
  import opened TcpDelivery

  // ---------------------------------------------------------------------
  // One segment and its answer
  // ---------------------------------------------------------------------

  /** Delivering a segment the receiver has taken, or the next one, is answered
      with a number at or beyond its end, whatever the receive window. */
  lemma NextIsAnswered(w: World, a: nat)
    requires Inv(w) && a < |w.log| && w.log[a].start <= w.rcv.rcvNxt
    ensures var g := w.log[a]; var r := Process(w.rcv, w.rcvWnd, g);
      && Answered(w.rcv, w.rcvWnd, g)
      && r.rcvNxt >= g.SeqEnd()
      && (Taken(w.rcv, w.rcvWnd, g) <==> w.rcv.rcvNxt == g.start)
  {
    var g := w.log[a];
    assert Entry(w.base, w.log, a);
    var n: nat :| TakenUpTo(w.base, w.log, w.rcv, n);
    SamePos(w.base, w.log, a, n);
    SamePos(w.base, w.log, a + 1, n);
    if n == a {
      var n' := AcceptTakes(w.base, w.log, w.rcv, n, g);
      forall i: nat | i < |w.rcv.ofo| ensures w.rcv.ofo[i].start >= g.SeqEnd() {
        BeyondNext(w.base, w.log, w.rcv.ofo[i], n);
      }
      DrainTakes(w.base, w.log, Accept(w.rcv, g), n');
    }
  }

  /** So it is with the first unacknowledged segment. */
  lemma HeadIsAnswered(w: World)
    requires Inv(w) && w.snd.sendBuf != []
    ensures var g := w.snd.sendBuf[0]; var r := Process(w.rcv, w.rcvWnd, g);
      && g.start == w.snd.sndUna && g in w.log
      && Answered(w.rcv, w.rcvWnd, g)
      && r.rcvNxt >= g.SeqEnd()
      && (Taken(w.rcv, w.rcvWnd, g) <==> w.rcv.rcvNxt == g.start)
  {
    var a := AckedUpTo(w.log, w.snd);
    assert w.snd.sendBuf[0] == w.log[a] && Entry(w.base, w.log, a);
    NextIsAnswered(w, a);
  }

  lemma StreamGrows(w: World, g: Seg)
    requires Inv(w) && FromLog(w.base, w.log, g)
    ensures |w.rcv.stream| <= |Process(w.rcv, w.rcvWnd, g).stream|
  {
    ProcessKeepsReceiver(w.base, w.log, w.rcv, w.rcvWnd, g);
    var r := Process(w.rcv, w.rcvWnd, g);
    var n: nat :| TakenUpTo(w.base, w.log, w.rcv, n);
    var n': nat :| TakenUpTo(w.base, w.log, r, n');
    SamePos(w.base, w.log, n', n);
    BytesPrefix(w.log, n, n');
  }

  /** Whenever the first unacknowledged segment is delivered and then the answer
      to it, send_buf gets shorter. */
  lemma HeadMakesProgress(w: World, readTo: nat, w1: World, rwnd: nat, w2: World)
    requires Inv(w) && Connected(w.snd) && w.snd.sendBuf != []
    requires Step(w, DeliverSeg(w.snd.sendBuf[0], readTo), w1)
    requires Step(w1, DeliverAck(w1.rcv.rcvNxt, rwnd), w2)
    ensures w1.rcv.rcvNxt in w1.acks
    ensures Connected(w2.snd) && w2.snd.state == w.snd.state && |w2.snd.sendBuf| < |w.snd.sendBuf|
    ensures w2.snd.sendBuf != [] ==> w2.snd.timer == Start(1)
  {
    HeadIsAnswered(w);
    StepKeepsInv(w, DeliverSeg(w.snd.sendBuf[0], readTo), w1);
    var ack := w1.rcv.rcvNxt;
    var k: nat :| k <= |w.log| && ack == Pos(w.base, w.log, k);
    var a := AckedUpTo(w.log, w.snd);
    assert w.snd.sendBuf[0] == w.log[a];
    SamePos(w.base, w.log, k, a + 1);
    AckKeepsSender(w.base, w.log, w.win0, w1.snd, k, rwnd);
    TimerAfterAck(w1.snd, ack, rwnd);
  }

  /** The delivery of the first unacknowledged segment is possible once it is on
      the network: the application reads what it can meanwhile. */
  lemma HeadCanBeDelivered(w: World) returns (readTo: nat, w1: World)
    requires Inv(w) && w.snd.sendBuf != [] && w.snd.sendBuf[0] in w.wire
    ensures Step(w, DeliverSeg(w.snd.sendBuf[0], readTo), w1)
    ensures w1.snd == w.snd && w1.rcv.rcvNxt in w1.acks
  {
    HeadIsAnswered(w);
    var g := w.snd.sendBuf[0];
    var r := Process(w.rcv, w.rcvWnd, g);
    if Taken(w.rcv, w.rcvWnd, g) {
      StreamGrows(w, g);
      readTo := |r.stream|;
      w1 := w.(rcv := r, read := readTo, rcvWnd := FreeSpace(r, readTo), acks := w.acks + {r.rcvNxt});
    } else {
      readTo := w.read;
      w1 := w.(acks := w.acks + {r.rcvNxt});
    }
  }

  // ---------------------------------------------------------------------
  // Runs that deliver everything
  // ---------------------------------------------------------------------

  /** A timeout is left before the connection is given up. */
  predicate CanRetry(s: Sender) {
    Connected(s) && (s.sendBuf != [] ==> s.timer.kind < LAST_TIMER_TYPE)
  }

  /** The application has done nothing in between. */
  predicate SameApplication(w: World, w': World) {
    w'.written == w.written && w'.win0 == w.win0 && w'.snd.state == w.snd.state
  }

  /** Without any delivery the timer brings the first segment back onto the network. */
  lemma {:induction false} HeadComesBack(tr: seq<World>, evs: seq<Event>) returns (tr': seq<World>, evs': seq<Event>)
    requires Run(tr, evs) && CanRetry(tr[|evs|].snd) && tr[|evs|].snd.sendBuf != []
    ensures Run(tr', evs') && tr <= tr' && evs <= evs'
    ensures var s, w := tr[|evs|].snd, tr'[|evs'|];
      Connected(w.snd) && w.snd.sendBuf == s.sendBuf && s.sendBuf[0] in w.wire && SameApplication(tr[|evs|], w)
    decreases tr[|evs|].snd.timer.timeout
  {
    var w := tr[|evs|];
    RunInv(tr, evs, |evs|);
    ScanFollowsTimer(w.snd);
    var r := Scan(w.snd);
    var w1 := w.(snd := r.0, wire := w.wire + ToSet(r.1));
    ExtendRun(tr, evs, TimerScan, w1);
    tr', evs' := tr + [w1], evs + [TimerScan];
    if w.snd.timer.timeout > SCAN_INTERVAL {
      tr', evs' := HeadComesBack(tr', evs');
    }
  }

  lemma RoundTrip(tr: seq<World>, evs: seq<Event>) returns (tr': seq<World>, evs': seq<Event>)
    requires Run(tr, evs) && Connected(tr[|evs|].snd)
    requires var w := tr[|evs|]; w.snd.sendBuf != [] && w.snd.sendBuf[0] in w.wire
    ensures Run(tr', evs') && tr <= tr' && evs <= evs'
    ensures CanRetry(tr'[|evs'|].snd) && |tr'[|evs'|].snd.sendBuf| < |tr[|evs|].snd.sendBuf|
    ensures SameApplication(tr[|evs|], tr'[|evs'|])
  {
    var w := tr[|evs|];
    RunInv(tr, evs, |evs|);
    var readTo, w1 := HeadCanBeDelivered(w);
    var ev1 := DeliverSeg(w.snd.sendBuf[0], readTo);
    var r := ProcessAck(w1.snd, w1.rcv.rcvNxt, 0);
    var w2 := w1.(snd := r.0, wire := w1.wire + ToSet(r.1));
    var ev2 := DeliverAck(w1.rcv.rcvNxt, 0);
    HeadMakesProgress(w, readTo, w1, 0, w2);
    ExtendRun(tr, evs, ev1, w1);
    ExtendRun(tr + [w1], evs + [ev1], ev2, w2);
    tr', evs' := tr + [w1] + [w2], evs + [ev1] + [ev2];
  }

  lemma {:induction false} DeliverAll(tr: seq<World>, evs: seq<Event>) returns (tr': seq<World>, evs': seq<Event>)
    requires Run(tr, evs) && CanRetry(tr[|evs|].snd)
    ensures Run(tr', evs') && tr <= tr' && evs <= evs'
    ensures tr'[|evs'|].snd.sendBuf == [] && SameApplication(tr[|evs|], tr'[|evs'|])
    decreases |tr[|evs|].snd.sendBuf|
  {
    if tr[|evs|].snd.sendBuf == [] {
      tr', evs' := tr, evs;
    } else {
      var tr1, evs1 := HeadComesBack(tr, evs);
      var tr2, evs2 := RoundTrip(tr1, evs1);
      tr', evs' := DeliverAll(tr2, evs2);
    }
  }

  lemma NothingLeft(w: World)
    requires Inv(w) && w.snd.sendBuf == []
    ensures w.snd.sndUna == w.snd.sndNxt == w.rcv.rcvNxt && w.rcv.stream == w.written
  {
    var n: nat :| TakenUpTo(w.base, w.log, w.rcv, n);
    SamePos(w.base, w.log, n, |w.log|);
  }

  /** While a timeout is left, every run can be continued until all that was
      written has arrived and is acknowledged, even if everything in flight is
      lost first. */
  lemma EverythingCanBeDelivered(tr: seq<World>, evs: seq<Event>) returns (tr': seq<World>, evs': seq<Event>)
    requires Run(tr, evs) && CanRetry(tr[|evs|].snd)
    ensures var w := tr[|evs|];
      Run(tr', evs') && tr + [w.(wire := {}, acks := {})] <= tr' && evs + [Lose(w.wire, w.acks)] <= evs'
    ensures var w := tr'[|evs'|];
      w.snd.sendBuf == [] && w.snd.sndUna == w.snd.sndNxt == w.rcv.rcvNxt && w.rcv.stream == w.written
  {
    var w := tr[|evs|];
    var w1 := w.(wire := {}, acks := {});
    assert w.wire - w.wire == {} && w.acks - w.acks == {};
    ExtendRun(tr, evs, Lose(w.wire, w.acks), w1);
    tr', evs' := DeliverAll(tr + [w1], evs + [Lose(w.wire, w.acks)]);
    RunInv(tr', evs', |evs'|);
    NothingLeft(tr'[|evs'|]);
  }

  // ---------------------------------------------------------------------
  // Fair runs
  // ---------------------------------------------------------------------

  /** Nothing that was acknowledged, taken or written is forgotten. */
  ghost predicate Forward(w: World, w': World) {
    && w'.base == w.base && w.log <= w'.log && w.written <= w'.written
    && w.snd.sndUna <= w'.snd.sndUna && w.rcv.rcvNxt <= w'.rcv.rcvNxt
  }

  lemma StepForward(w: World, ev: Event, w': World)
    requires Inv(w) && Step(w, ev, w')
    ensures Forward(w, w')
    ensures ev.DeliverAck? && ev.ack <= w.snd.sndNxt ==> ev.ack <= w'.snd.sndUna
  {
    match ev
    case Write(data) => WriteEffect(w.snd, data);
    case Close => CloseEffect(w.snd);
    case TimerScan => ScanEffect(w.snd);
    case DeliverAck(ack, rwnd) => ProcessAckEffect(w.snd, ack, rwnd);
    case DeliverSeg(g, readTo) => ProcessKeepsReceiver(w.base, w.log, w.rcv, w.rcvWnd, g);
    case _ =>
  }

  lemma NextForward(tr: seq<World>, evs: seq<Event>, k: nat)
    requires Steps(tr, evs) && Inv(tr[0]) && k < |evs|
    ensures Forward(tr[k], tr[k + 1])
    ensures evs[k].DeliverAck? && evs[k].ack <= tr[k].snd.sndNxt ==> evs[k].ack <= tr[k + 1].snd.sndUna
  {
    StepsInv(tr, evs, k);
    StepForward(tr[k], evs[k], tr[k + 1]);
  }

  lemma RunForward(tr: seq<World>, evs: seq<Event>, j: nat, k: nat)
    requires Steps(tr, evs) && Inv(tr[0]) && j <= k <= |evs|
    ensures Forward(tr[j], tr[k])
  {
    for i := j to k
      invariant Forward(tr[j], tr[i])
    {
      NextForward(tr, evs, i);
    }
  }

  ghost predicate Delivers(ev: Event, g: Seg) {
    ev.DeliverSeg? && ev.g == g
  }

  ghost predicate Returns(ev: Event, ack: nat) {
    ev.DeliverAck? && ev.ack == ack
  }

  /** A stretch of a run in which one copy of the segment that was the first
      unacknowledged one at its start arrives, and later the answer to it. */
  ghost predicate FairRound(tr: seq<World>, evs: seq<Event>, a: nat, b: nat)
    requires a <= b <= |evs| < |tr|
  {
    tr[a].snd.sendBuf != [] ==>
      exists i: nat, j: nat :: a <= i < j < b &&
        Delivers(evs[i], tr[a].snd.sendBuf[0]) && Returns(evs[j], tr[i + 1].rcv.rcvNxt)
  }

  /** n fair rounds one after the other, with anything between and within them. */
  ghost predicate FairRounds(tr: seq<World>, evs: seq<Event>, r: seq<nat>) {
    && |r| > 0 && |evs| < |tr|
    && (forall x: nat :: x < |r| ==> r[x] <= |evs|)
    && (forall x: nat :: 0 < x < |r| ==> r[x - 1] <= r[x] && FairRound(tr, evs, r[x - 1], r[x]))
  }

  lemma HeadArrives(tr: seq<World>, evs: seq<Event>, a: nat, i: nat)
    requires Steps(tr, evs) && Inv(tr[0]) && a <= i < |evs|
    requires tr[a].snd.sendBuf != [] && Delivers(evs[i], tr[a].snd.sendBuf[0])
    ensures tr[a].snd.sendBuf[0].SeqEnd() <= tr[i + 1].rcv.rcvNxt <= tr[i + 1].snd.sndNxt
  {
    StepsInv(tr, evs, a);
    StepsInv(tr, evs, i);
    StepsInv(tr, evs, i + 1);
    StreamIsPrefix(tr[i + 1]);
    RunForward(tr, evs, a, i);
    var x := AckedUpTo(tr[a].log, tr[a].snd);
    assert tr[a].log[x] == tr[i].log[x] && Entry(tr[a].base, tr[a].log, x);
    NextIsAnswered(tr[i], x);
    assert Step(tr[i], evs[i], tr[i + 1]);
  }

  lemma SentBefore(tr: seq<World>, evs: seq<Event>, i: nat, j: nat)
    requires Steps(tr, evs) && Inv(tr[0]) && i <= j <= |evs|
    ensures tr[i].snd.sndNxt <= tr[j].snd.sndNxt
  {
    StepsInv(tr, evs, i);
    StepsInv(tr, evs, j);
    RunForward(tr, evs, i, j);
    PosOfPrefix(tr[i].base, tr[i].log, tr[j].log, |tr[i].log|);
    SamePos(tr[j].base, tr[j].log, |tr[i].log|, |tr[j].log|);
  }

  lemma PosOfPrefix(base: nat, log: seq<Seg>, log': seq<Seg>, k: nat)
    requires log <= log' && k <= |log|
    ensures Pos(base, log, k) == Pos(base, log', k)
  {
  }

  lemma RoundDelivers(tr: seq<World>, evs: seq<Event>, a: nat, b: nat) returns (i: nat, j: nat)
    requires a <= b <= |evs| < |tr| && FairRound(tr, evs, a, b) && tr[a].snd.sendBuf != []
    ensures a <= i < j < b
    ensures Delivers(evs[i], tr[a].snd.sendBuf[0]) && Returns(evs[j], tr[i + 1].rcv.rcvNxt)
  {
    i, j :| a <= i < j < b && Delivers(evs[i], tr[a].snd.sendBuf[0]) && Returns(evs[j], tr[i + 1].rcv.rcvNxt);
  }

  /** A fair round acknowledges the segment it started with. */
  lemma RoundAcknowledges(tr: seq<World>, evs: seq<Event>, a: nat, b: nat)
    requires Steps(tr, evs) && Inv(tr[0]) && a <= b <= |evs| && FairRound(tr, evs, a, b)
    requires tr[a].snd.sendBuf != []
    ensures tr[a].snd.sendBuf[0].SeqEnd() <= tr[b].snd.sndUna
  {
    var i, j := RoundDelivers(tr, evs, a, b);
    HeadArrives(tr, evs, a, i);
    SentBefore(tr, evs, i + 1, j);
    NextForward(tr, evs, j);
    RunForward(tr, evs, j + 1, b);
  }

  lemma PastNext(w: World, log: seq<Seg>, x: nat, una: nat)
    requires Inv(w) && log <= w.log && x < |log| && Pos(w.base, log, x) <= w.snd.sndUna
    requires if w.snd.sendBuf == [] then w.snd.sndUna <= una else w.snd.sendBuf[0].SeqEnd() <= una
    ensures Pos(w.base, log, x + 1) <= una
  {
    var y := AckedUpTo(w.log, w.snd);
    PosOfPrefix(w.base, log, w.log, x);
    PosOfPrefix(w.base, log, w.log, x + 1);
    SamePos(w.base, w.log, y, x);
    if w.snd.sendBuf == [] {
      SamePos(w.base, w.log, x + 1, y);
    } else {
      assert w.snd.sendBuf[0] == w.log[y];
      SamePos(w.base, w.log, x + 1, y + 1);
    }
  }

  /** A round brings sndUna past one more segment of an earlier log. */
  lemma RoundAdvances(tr: seq<World>, evs: seq<Event>, a: nat, b: nat, log: seq<Seg>, x: nat)
    requires Steps(tr, evs) && Inv(tr[0]) && a <= b <= |evs| && FairRound(tr, evs, a, b)
    requires log <= tr[a].log && x < |log| && Pos(tr[a].base, log, x) <= tr[a].snd.sndUna
    ensures Pos(tr[a].base, log, x + 1) <= tr[b].snd.sndUna
  {
    StepsInv(tr, evs, a);
    RunForward(tr, evs, a, b);
    if tr[a].snd.sendBuf != [] {
      RoundAcknowledges(tr, evs, a, b);
    }
    PastNext(tr[a], log, x, tr[b].snd.sndUna);
  }

  lemma {:induction false} RoundsAdvance(tr: seq<World>, evs: seq<Event>, r: seq<nat>, n: nat, x: nat)
    requires Steps(tr, evs) && Inv(tr[0]) && FairRounds(tr, evs, r) && n < |r|
    requires var w := tr[r[0]]; x + n <= |w.log| && Pos(w.base, w.log, x) <= w.snd.sndUna
    ensures r[0] <= r[n] && Pos(tr[r[0]].base, tr[r[0]].log, x + n) <= tr[r[n]].snd.sndUna
  {
    if n > 0 {
      RoundsAdvance(tr, evs, r, n - 1, x);
      RunForward(tr, evs, r[0], r[n - 1]);
      RoundAdvances(tr, evs, r[n - 1], r[n], tr[r[0]].log, x + n - 1);
    }
  }

  /** Fair runs deliver: after as many fair rounds as segments were unacknowledged,
      everything that was written when they began has arrived and has been
      acknowledged, whatever else was written, lost, repeated, reordered or timed
      out meanwhile. */
  lemma FairRunsDeliver(tr: seq<World>, evs: seq<Event>, r: seq<nat>)
    requires Steps(tr, evs) && Inv(tr[0]) && FairRounds(tr, evs, r)
    requires |r| - 1 >= |tr[r[0]].snd.sendBuf|
    ensures var w, w' := tr[r[0]], tr[r[|r| - 1]];
      w.snd.sndNxt <= w'.snd.sndUna <= w'.rcv.rcvNxt && w.written <= w'.rcv.stream
  {
    var w := tr[r[0]];
    var n := |w.snd.sendBuf|;
    StepsInv(tr, evs, r[0]);
    RoundsAdvance(tr, evs, r, n, AckedUpTo(w.log, w.snd));
    RoundsOrdered(tr, evs, r, n, |r| - 1);
    RunForward(tr, evs, r[n], r[|r| - 1]);
    RunForward(tr, evs, r[0], r[|r| - 1]);
    StepsInv(tr, evs, r[|r| - 1]);
    ArrivedWhole(w, tr[r[|r| - 1]]);
  }

  lemma {:induction false} RoundsOrdered(tr: seq<World>, evs: seq<Event>, r: seq<nat>, i: nat, j: nat)
    requires FairRounds(tr, evs, r) && i <= j < |r|
    ensures r[i] <= r[j]
  {
    if i < j {
      RoundsOrdered(tr, evs, r, i, j - 1);
    }
  }

  lemma ArrivedWhole(w: World, w': World)
    requires Inv(w) && Inv(w') && Forward(w, w') && w.snd.sndNxt <= w'.snd.sndUna
    ensures w.written <= w'.rcv.stream
  {
    StreamIsPrefix(w');
    BytesNumbered(w.base, w.log, |w.log|);
  }

  // ---------------------------------------------------------------------
  // Writers
  // ---------------------------------------------------------------------

  function Join(segs: seq<Seg>): seq<byte> {
    if segs == [] then [] else segs[0].data + Join(segs[1..])
  }

  /** A whole call of tcp_sock_write is a run of write steps: it adds exactly the
      bytes it takes, in segments of at most one MSS that all go out. */
  lemma {:induction false} SockWriteIsRun(tr: seq<World>, evs: seq<Event>, data: seq<byte>)
    returns (tr': seq<World>, evs': seq<Event>)
    requires Run(tr, evs) && CanWrite(tr[|evs|].snd)
    ensures Run(tr', evs') && tr <= tr'
    ensures var r := WriteSome(tr[|evs|].snd, data); var w := tr'[|evs'|];
      && w.snd == r.0 && w.written == tr[|evs|].written + data[..r.2]
      && Join(r.1) == data[..r.2] && w.log == tr[|evs|].log + r.1 && w.win0 == tr[|evs|].win0
      && (r.2 < |data| ==> w.snd.sndWnd == 0)
    decreases |data|
  {
    var w := tr[|evs|];
    if data == [] || w.snd.sndWnd == 0 {
      tr', evs' := tr, evs;
      assert w.written + [] == w.written && w.log + [] == w.log;
    } else {
      var n := Min(|data|, TCP_MSS);
      var c := WriteChunk(w.snd, data[..n]);
      var w1 := w.(snd := c.0, wire := w.wire + {c.1}, log := w.log + [c.1], written := w.written + data[..n]);
      ExtendRun(tr, evs, Event.Write(data[..n]), w1);
      tr', evs' := SockWriteIsRun(tr + [w1], evs + [Event.Write(data[..n])], data[n..]);
      var rest := WriteSome(c.0, data[n..]);
      TakeSplit(w.written, data, n, rest.2);
      JoinCons(w.log, c.1, rest.1);
    }
  }

  /** The segments of a write call are as long as possible: one MSS each, and the
      rest in the last. */
  lemma {:induction false} SockWriteSegments(s: Sender, data: seq<byte>, i: nat)
    requires i < |WriteSome(s, data).1|
    ensures |WriteSome(s, data).1[i].data| == Min(TCP_MSS, |data| - i * TCP_MSS)
    decreases i
  {
    if i > 0 {
      var n := Min(|data|, TCP_MSS);
      SockWriteSegments(WriteChunk(s, data[..n]).0, data[n..], i - 1);
    }
  }

  lemma TakeSplit(written: seq<byte>, data: seq<byte>, n: nat, m: nat)
    requires n + m <= |data|
    ensures data[..n + m] == data[..n] + data[n..][..m]
    ensures (written + data[..n]) + data[n..][..m] == written + data[..n + m]
  {
  }

  lemma JoinCons(log: seq<Seg>, g: Seg, rest: seq<Seg>)
    ensures Join([g] + rest) == g.data + Join(rest)
    ensures (log + [g]) + rest == log + ([g] + rest)
  {
    assert ([g] + rest)[1..] == rest;
  }

  /** A writer finds the window open with nothing in flight exactly when the peer
      granted a whole segment in the handshake. */
  lemma IdleWindow(w: World)
    requires Reachable(w) && CanWrite(w.snd) && w.snd.sendBuf == []
    ensures w.snd.sndWnd > 0 <==> w.win0 >= TCP_MSS
  {
    ReachableInv(w);
    FlowIsConserved(w);
    SamePos(w.base, w.log, AckedUpTo(w.log, w.snd), |w.log|);
  }

  lemma SmallWindowIsClosed(w: World)
    requires Inv(w) && CanWrite(w.snd) && w.win0 < TCP_MSS
    ensures w.snd.sndWnd == 0
  {
    SamePos(w.base, w.log, AckedUpTo(w.log, w.snd), |w.log|);
    assert w.snd.advWnd <= w.win0;
  }

  /** Whatever happens, not a byte leaves a sender that was granted less than a
      whole segment: it counts its window in whole segments. */
  lemma {:induction false} SmallWindowBlocks(tr: seq<World>, evs: seq<Event>, k: nat)
    requires Run(tr, evs) && tr[0].win0 < TCP_MSS && k <= |evs|
    ensures tr[k].written == [] && tr[k].win0 == tr[0].win0
  {
    if k > 0 {
      SmallWindowBlocks(tr, evs, k - 1);
      RunInv(tr, evs, k - 1);
      BlockedStep(tr[k - 1], evs[k - 1], tr[k]);
    }
  }

  lemma BlockedStep(w: World, ev: Event, w': World)
    requires Inv(w) && Step(w, ev, w') && w.win0 < TCP_MSS
    ensures w'.written == w.written && w'.win0 == w.win0
  {
    if ev.Write? {
      SmallWindowIsClosed(w);
    }
  }

  /** The first write arms the timer afresh. */
  lemma {:induction false} WriteStartsTimer(s: Sender, data: seq<byte>)
    requires CanWrite(s) && (s.timer.armed ==> s.timer.kind == 1)
    ensures var r := WriteSome(s, data);
      r.0.state == s.state && (r.2 > 0 || s.timer.armed ==> r.0.timer.armed && r.0.timer.kind == 1)
    decreases |data|
  {
    if data != [] && s.sndWnd > 0 {
      var n := Min(|data|, TCP_MSS);
      WriteStartsTimer(WriteChunk(s, data[..n]).0, data[n..]);
    }
  }

  /** With nothing in flight a write call takes something. */
  lemma IdleWrites(tr: seq<World>, evs: seq<Event>, data: seq<byte>)
    returns (tr': seq<World>, evs': seq<Event>, n: nat)
    requires Run(tr, evs) && CanWrite(tr[|evs|].snd) && tr[|evs|].snd.sendBuf == [] && data != []
    requires tr[|evs|].win0 >= TCP_MSS && Inv(tr[|evs|])
    ensures Run(tr', evs') && tr <= tr' && 0 < n <= |data|
    ensures var w, w' := tr[|evs|], tr'[|evs'|];
      CanWrite(w'.snd) && CanRetry(w'.snd) && w'.win0 == w.win0 && w'.written == w.written + data[..n]
  {
    var w := tr[|evs|];
    IdleWindow(w);
    tr', evs' := SockWriteIsRun(tr, evs, data);
    n := WriteSome(w.snd, data).2;
    WriteStartsTimer(w.snd, data);
  }

  /** Once all that was written before is acknowledged, some of the data is written. */
  lemma WritesSome(tr: seq<World>, evs: seq<Event>, data: seq<byte>)
    returns (tr': seq<World>, evs': seq<Event>, n: nat)
    requires Run(tr, evs) && CanWrite(tr[|evs|].snd) && CanRetry(tr[|evs|].snd) && data != []
    requires tr[|evs|].win0 >= TCP_MSS
    ensures Run(tr', evs') && tr <= tr' && 0 < n <= |data|
    ensures var w, w' := tr[|evs|], tr'[|evs'|];
      CanWrite(w'.snd) && CanRetry(w'.snd) && w'.win0 == w.win0 && w'.written == w.written + data[..n]
  {
    var tr1, evs1 := DeliverAll(tr, evs);
    RunInv(tr1, evs1, |evs1|);
    tr', evs', n := IdleWrites(tr1, evs1, data);
  }

  lemma DeliversRest(tr: seq<World>, evs: seq<Event>) returns (tr': seq<World>, evs': seq<Event>)
    requires Run(tr, evs) && CanRetry(tr[|evs|].snd)
    ensures Run(tr', evs') && tr <= tr'
    ensures var w' := tr'[|evs'|];
      w'.written == tr[|evs|].written && w'.rcv.stream == w'.written && w'.snd.sendBuf == []
  {
    tr', evs' := DeliverAll(tr, evs);
    RunInv(tr', evs', |evs'|);
    NothingLeft(tr'[|evs'|]);
  }

  /** With a window of a whole segment any data can be written and delivered. */
  lemma {:induction false} AnyDataCanBeDelivered(tr: seq<World>, evs: seq<Event>, data: seq<byte>)
    returns (tr': seq<World>, evs': seq<Event>)
    requires Run(tr, evs) && CanWrite(tr[|evs|].snd) && CanRetry(tr[|evs|].snd) && tr[|evs|].win0 >= TCP_MSS
    ensures Run(tr', evs') && tr <= tr'
    ensures var w' := tr'[|evs'|];
      w'.written == tr[|evs|].written + data && w'.rcv.stream == w'.written && w'.snd.sendBuf == []
    decreases |data|
  {
    var written := tr[|evs|].written;
    if data == [] {
      tr', evs' := DeliversRest(tr, evs);
      assert written + [] == written;
    } else {
      var tr1, evs1, n := WritesSome(tr, evs, data);
      tr', evs' := AnyDataCanBeDelivered(tr1, evs1, data[n..]);
      Rejoin(written, data, n);
    }
  }

  lemma Rejoin(written: seq<byte>, data: seq<byte>, n: nat)
    requires n <= |data|
    ensures (written + data[..n]) + data[n..] == written + data
  {
  }

  /** The data can still be written and delivered in some continuation. */
  ghost predicate CanGetThrough(tr: seq<World>, w: World, data: seq<byte>) {
    exists tr': seq<World>, evs': seq<Event> ::
      && Run(tr', evs') && tr <= tr'
      && tr'[|evs'|].written == w.written + data && tr'[|evs'|].rcv.stream == tr'[|evs'|].written
  }

  /** While a timeout is left, a writer gets through exactly when the window of
      the handshake was a whole segment; otherwise it waits for ever. */
  lemma WriterGetsThrough(tr: seq<World>, evs: seq<Event>, data: seq<byte>)
    requires Run(tr, evs) && CanWrite(tr[|evs|].snd) && CanRetry(tr[|evs|].snd) && data != []
    ensures CanGetThrough(tr, tr[|evs|], data) <==> tr[|evs|].win0 >= TCP_MSS
  {
    if tr[|evs|].win0 >= TCP_MSS {
      var tr', evs' := AnyDataCanBeDelivered(tr, evs, data);
    } else if CanGetThrough(tr, tr[|evs|], data) {
      var tr': seq<World>, evs': seq<Event> :|
        Run(tr', evs') && tr <= tr' && tr'[|evs'|].written == tr[|evs|].written + data;
      WindowStays(tr', evs', |evs|);
      SmallWindowBlocks(tr', evs', |evs'|);
      assert false;
    }
  }

  lemma {:induction false} WindowStays(tr: seq<World>, evs: seq<Event>, k: nat)
    requires Run(tr, evs) && k <= |evs|
    ensures tr[k].win0 == tr[0].win0
  {
    if k > 0 {
      WindowStays(tr, evs, k - 1);
      assert Step(tr[k - 1], evs[k - 1], tr[k]);
    }
  }
}
