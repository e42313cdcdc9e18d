/** What every run of a connection guarantees. */
module TcpDelivery {
  import opened Common
  import opened TcpSegments
  import opened TcpReceiver
  import opened TcpSender
  import opened TcpControl
  import opened TcpStream

  // ---------------------------------------------------------------------
  // The byte stream
  // ---------------------------------------------------------------------

  lemma {:induction false} BytesPrefix(log: seq<Seg>, n: nat, m: nat)
    requires n <= m <= |log|
    ensures Bytes(log, n) <= Bytes(log, m)
  {
    if n < m {
      BytesPrefix(log, n, m - 1);
    }
  }

  /** What the application has been given so far, and what waits in the buffer. */
  function Given(w: World): seq<byte>
    requires w.read <= |w.rcv.stream|
  {
    w.rcv.stream[..w.read]
  }

  function Buffered(w: World): seq<byte>
    requires w.read <= |w.rcv.stream|
  {
    w.rcv.stream[w.read..]
  }

  lemma StreamIsPrefix(w: World)
    requires Inv(w)
    ensures w.base <= w.rcv.rcvNxt <= w.snd.sndNxt
    ensures w.rcv.stream == w.written[..Min(w.rcv.rcvNxt - w.base, |w.written|)]
  {
    var n: nat :| TakenUpTo(w.base, w.log, w.rcv, n);
    StreamLength(w.base, w.log, w.rcv);
    BytesPrefix(w.log, n, |w.log|);
    SamePos(w.base, w.log, n, |w.log|);
  }

  lemma SplitStream(s: seq<byte>, n: nat)
    requires n <= |s|
    ensures s[..n] + s[n..] == s
  {
  }

  /** The bytes returned by reads followed by those in the ring are exactly the
      written bytes numbered below rcvNxt: no gap, repeat or reorder. */
  lemma StreamIntegrity(w: World)
    requires Reachable(w)
    ensures w.read <= |w.rcv.stream| && w.base <= w.rcv.rcvNxt
    ensures Given(w) + Buffered(w) == w.written[..Min(w.rcv.rcvNxt - w.base, |w.written|)]
    ensures |Buffered(w)| <= TCP_DEFAULT_WINDOW
    ensures w.rcv.rcvNxt <= w.snd.sndNxt
  {
    ReachableInv(w);
    StreamIsPrefix(w);
    SplitStream(w.rcv.stream, w.read);
  }

  /** A read reports the end of the stream only when the peer has closed and
      every byte it wrote has been read. */
  lemma EndOfStreamIsComplete(w: World)
    requires Reachable(w) && w.rcv.eof && w.read == |w.rcv.stream|
    ensures Given(w) == w.written && HasFin(w.log) && !CanWrite(w.snd)
  {
    ReachableInv(w);
    assert w.rcv.stream[..w.read] == w.rcv.stream;
  }

  // ---------------------------------------------------------------------
  // The send buffer
  // ---------------------------------------------------------------------

  lemma SegmentIsVerbatim(base: nat, log: seq<Seg>, k: nat)
    requires LogOk(base, log) && k < |log|
    ensures base <= log[k].start && log[k].start - base + |log[k].data| <= |Bytes(log, |log|)|
    ensures log[k].data == Bytes(log, |log|)[log[k].start - base..log[k].start - base + |log[k].data|]
  {
    assert Entry(base, log, k);
    BytesNumbered(base, log, k);
    BytesPrefix(log, k, k + 1);
    BytesPrefix(log, k + 1, |log|);
    assert Bytes(log, k + 1) == Bytes(log, k) + log[k].data;
  }

  /** The i-th entry of sendBuf follows on the one before it and carries the
      written bytes of its numbers. */
  predicate Verbatim(w: World, i: nat)
    requires i < |w.snd.sendBuf|
  {
    var g := w.snd.sendBuf[i];
    && g.start == (if i == 0 then w.snd.sndUna else w.snd.sendBuf[i - 1].SeqEnd())
    && w.base <= g.start && g.start - w.base + |g.data| <= |w.written|
    && g.data == w.written[g.start - w.base..g.start - w.base + |g.data|]
  }

  lemma BufferedVerbatim(w: World, i: nat)
    requires Inv(w) && i < |w.snd.sendBuf|
    ensures Verbatim(w, i)
  {
    var a := AckedUpTo(w.log, w.snd);
    assert w.snd.sendBuf[i] == w.log[a + i];
    assert Entry(w.base, w.log, a + i);
    SegmentIsVerbatim(w.base, w.log, a + i);
  }

  /** sendBuf is a contiguous run of verbatim copies from the highest ack
      processed up to sndNxt; everything freed lies below the receiver's rcvNxt. */
  lemma SendBufferIsComplete(w: World)
    requires Reachable(w)
    ensures forall i: nat :: i < |w.snd.sendBuf| ==> Verbatim(w, i)
    ensures w.snd.sndNxt == if w.snd.sendBuf == [] then w.snd.sndUna else w.snd.sendBuf[|w.snd.sendBuf| - 1].SeqEnd()
    ensures w.snd.sndUna <= w.rcv.rcvNxt
  {
    ReachableInv(w);
    forall i: nat | i < |w.snd.sendBuf| ensures Verbatim(w, i) {
      BufferedVerbatim(w, i);
    }
  }

  // ---------------------------------------------------------------------
  // The out-of-order list
  // ---------------------------------------------------------------------

  /** The list is strictly sorted, lies above rcvNxt, and holds nothing but
      sent segments and pure acknowledgments. */
  lemma OutOfOrderListIsSorted(w: World)
    requires Reachable(w)
    ensures Sorted(w.rcv.ofo)
    ensures forall i: nat :: i < |w.rcv.ofo| ==>
      w.rcv.ofo[i].start > w.rcv.rcvNxt && (w.rcv.ofo[i] in w.log || IsPureAck(w.rcv.ofo[i]))
    ensures Drain(w.rcv) == w.rcv
  {
    ReachableInv(w);
  }

  lemma {:induction false} InsertContains(ofo: seq<Seg>, g: Seg)
    ensures g in Insert(ofo, g)
  {
    if ofo != [] {
      InsertContains(ofo[1..], g);
    }
  }

  lemma InsertedLater(ofo: seq<Seg>, g: Seg, x: nat)
    requires g.start > x && forall i: nat :: i < |ofo| ==> ofo[i].start > x
    ensures Insert(ofo, g) != [] && Insert(ofo, g)[0].start > x
  {
  }

  /** Acknowledgments take places in the list as well: a sent segment beyond rcvNxt
      is in the list after its delivery exactly when it was there before, or it
      starts inside the window and its number was not taken. */
  lemma StoredUnlessPending(w: World, g: Seg)
    requires Reachable(w) && g in w.log && w.rcv.rcvNxt < g.start
    ensures g in Process(w.rcv, w.rcvWnd, g).ofo <==>
      g in w.rcv.ofo || (g.start < w.rcv.rcvNxt + w.rcvWnd && !Pending(w.rcv.ofo, g.start))
  {
    ReachableInv(w);
    if !Pending(w.rcv.ofo, g.start) {
      InsertContains(w.rcv.ofo, g);
      InsertedLater(w.rcv.ofo, g, w.rcv.rcvNxt);
    }
  }

  /** The advertised window is the room in the ring, and what is stored out of
      order lies inside it. */
  lemma ReceiveWindowIsRoom(w: World)
    requires Reachable(w)
    ensures w.read <= |w.rcv.stream| && w.rcvWnd + |Buffered(w)| == TCP_DEFAULT_WINDOW
    ensures forall i: nat :: i < |w.rcv.ofo| ==> w.rcv.ofo[i].start < w.rcv.rcvNxt + w.rcvWnd
  {
    ReachableInv(w);
  }

  lemma RightEdgeStep(w: World, ev: Event, w': World)
    requires Inv(w) && Step(w, ev, w')
    ensures RightEdge(w) <= RightEdge(w')
  {
    if ev.DeliverSeg? {
      ProcessKeepsReceiver(w.base, w.log, w.rcv, w.rcvWnd, ev.g);
      SegKeepsWindow(w, ev.g, w');
    }
  }

  lemma NextRightEdge(tr: seq<World>, evs: seq<Event>, k: nat)
    requires Steps(tr, evs) && Inv(tr[0]) && k < |evs|
    ensures RightEdge(tr[k]) <= RightEdge(tr[k + 1])
  {
    StepsInv(tr, evs, k);
    RightEdgeStep(tr[k], evs[k], tr[k + 1]);
  }

  /** Through any steps of both ends and the network the right edge of the receive
      window never moves back. */
  lemma RightEdgeNeverMovesBack(tr: seq<World>, evs: seq<Event>, j: nat, k: nat)
    requires Steps(tr, evs) && Inv(tr[0]) && j <= k <= |evs|
    ensures RightEdge(tr[j]) <= RightEdge(tr[k])
  {
    for i := j to k
      invariant RightEdge(tr[j]) <= RightEdge(tr[i])
    {
      NextRightEdge(tr, evs, i);
    }
  }

  /** Everything that carries data or a FIN is acknowledged; an acknowledgment is,
      exactly when it carries neither the next number expected nor one already
      stored. What is not acknowledged changes nothing. */
  lemma AcksAreNotAcked(w: World, g: Seg)
    requires Reachable(w) && (IsPureAck(g) ==> g.flag.Plain?)
    ensures Answered(w.rcv, w.rcvWnd, g) <==>
      g.data != [] || g.flag == Fin || (g.start != w.rcv.rcvNxt && !Pending(w.rcv.ofo, g.start))
    ensures !Answered(w.rcv, w.rcvWnd, g) ==> Process(w.rcv, w.rcvWnd, g) == w.rcv
  {
    ReachableInv(w);
  }

  // ---------------------------------------------------------------------
  // Windows, timer, fast retransmit
  // ---------------------------------------------------------------------

  /** adv_wnd and the bytes in flight add up to the window learned in the
      handshake until a FIN is sent, and to one more afterwards. The 16-bit
      field falls short of that exactly when the FIN of a connection with a
      65535-byte window has been acknowledged with nothing left in flight. */
  lemma FlowIsConserved(w: World)
    requires Reachable(w)
    ensures w.snd.sndUna <= w.snd.sndNxt
    ensures w.snd.sndNxt - w.snd.sndUna <= w.win0 + FinBefore(w.log, |w.log|)
    ensures w.snd.advWnd + (w.snd.sndNxt - w.snd.sndUna) == w.win0 + FinBefore(w.log, |w.log|)
      <==> !(HasFin(w.log) && w.snd.sndUna == w.snd.sndNxt && w.win0 == U16 - 1)
    ensures w.snd.sndWnd == Min(w.snd.advWnd / TCP_MSS, w.snd.cwnd)
  {
    ReachableInv(w);
    SamePos(w.base, w.log, AckedUpTo(w.log, w.snd), |w.log|);
  }

  lemma FreshWorld(base: nat) returns (w: World)
    requires base > 0
    ensures Init(w) && w.base == base && w.win0 == U16 - 1
    ensures w.snd == Opened(Opening(base - 1, SynSent), base - 1, U16 - 1)
  {
    var s := Opening(base - 1, SynSent);
    assert s == Scans(s, 0) && Unanswered(base - 1, SynSent, s);
    HandshakeOpens(base - 1, U16 - 1, s);
    w := World(ActiveOpen(s, base - 1, U16 - 1), Receiver(base, [], [], false), TCP_DEFAULT_WINDOW, 0,
               {}, {}, [], [], base, U16 - 1);
    assert AnsweredOpen(base - 1, U16 - 1, s, w.snd);
  }

  lemma ExtendRun(tr: seq<World>, evs: seq<Event>, ev: Event, w': World)
    requires Run(tr, evs) && Step(tr[|evs|], ev, w')
    ensures Run(tr + [w'], evs + [ev])
  {
    var tr', evs' := tr + [w'], evs + [ev];
    forall k: nat | k < |evs'| ensures Step(tr'[k], evs'[k], tr'[k + 1]) {
      if k < |evs| {
        assert Step(tr[k], evs[k], tr[k + 1]);
      }
    }
  }

  lemma InitReachable(w: World)
    requires Init(w)
    ensures Reachable(w)
  {
    var evs: seq<Event> := [];
    assert Run([w], evs) && [w][|evs|] == w;
  }

  lemma StepReachable(w: World, ev: Event, w': World)
    requires Reachable(w) && Step(w, ev, w')
    ensures Reachable(w')
  {
    var tr, evs :| Run(tr, evs) && tr[|evs|] == w;
    ExtendRun(tr, evs, ev, w');
    assert (tr + [w'])[|evs + [ev]|] == w';
  }

  /** A fresh connection closes. */
  lemma FreshClosed(base: nat, w: World) returns (w': World)
    requires base > 0 && w.snd == Opened(Opening(base - 1, SynSent), base - 1, U16 - 1) && w.wire == {} && w.log == []
    ensures Step(w, Close, w')
    ensures var fin := Seg(base, [], Fin);
      w' == w.(snd := w'.snd, wire := {fin}, log := [fin]) && Connected(w'.snd) && w'.snd.sendBuf == [fin]
    ensures w'.snd.sndUna == base && w'.snd.sndNxt == base + 1 && w'.snd.advWnd == U16 - 1
    ensures w'.snd.sndWnd == UsableWindow(w'.snd.advWnd, w'.snd.cwnd)
  {
    var fin := Seg(base, [], Fin);
    var c := SockClose(w.snd);
    assert c.1 == [fin] && ToSet(c.1) == {fin};
    w' := w.(snd := c.0, wire := {fin}, log := [fin]);
  }

  lemma FinDelivered(base: nat, w: World) returns (w': World)
    requires w.rcv == Receiver(base, [], [], false) && w.rcvWnd == TCP_DEFAULT_WINDOW && w.read == 0
    requires Seg(base, [], Fin) in w.wire
    ensures Step(w, DeliverSeg(Seg(base, [], Fin), 0), w')
    ensures w' == w.(rcv := w'.rcv, acks := w.acks + {base + 1})
  {
    w' := w.(rcv := Receiver(base + 1, [], [], true), acks := w.acks + {base + 1});
    assert Process(w.rcv, w.rcvWnd, Seg(base, [], Fin)) == w'.rcv;
  }

  lemma FinAckWraps(base: nat, w: World) returns (w': World)
    requires Connected(w.snd) && w.snd.sendBuf == [Seg(base, [], Fin)] && base + 1 in w.acks
    requires w.snd.sndUna == base && w.snd.sndNxt == base + 1 && w.snd.advWnd == U16 - 1
    requires w.snd.sndWnd == UsableWindow(w.snd.advWnd, w.snd.cwnd)
    ensures Step(w, DeliverAck(base + 1, 0), w')
    ensures w'.snd.sndUna == w'.snd.sndNxt && w'.snd.advWnd == 0 && w'.win0 == w.win0 && w'.log == w.log
  {
    ProcessAckEffect(w.snd, base + 1, 0);
    var r := ProcessAck(w.snd, base + 1, 0);
    w' := w.(snd := r.0, wire := w.wire + ToSet(r.1));
  }

  /** The exception is reached: a connection with the largest window that closes
      at once ends with adv_wnd at 0 when its FIN is acknowledged. */
  lemma AdvWndWraps(base: nat) returns (w: World)
    requires base > 0
    ensures Reachable(w) && w.win0 == U16 - 1 && HasFin(w.log)
    ensures w.snd.sndUna == w.snd.sndNxt && w.snd.advWnd == 0
  {
    var w0 := FreshWorld(base);
    var fin := Seg(base, [], Fin);
    var w1 := FreshClosed(base, w0);
    var w2 := FinDelivered(base, w1);
    w := FinAckWraps(base, w2);
    InitReachable(w0);
    StepReachable(w0, Close, w1);
    StepReachable(w1, DeliverSeg(fin, 0), w2);
    StepReachable(w2, DeliverAck(base + 1, 0), w);
  }

  /** No written chunk takes adv_wnd below zero. */
  lemma WriteFitsWindow(w: World, data: seq<byte>)
    requires Reachable(w) && w.snd.sndWnd > 0 && |data| <= TCP_MSS
    ensures |data| <= w.snd.advWnd && WriteChunk(w.snd, data).0.advWnd == w.snd.advWnd - |data|
  {
    ReachableInv(w);
    ChunkFits(w.snd, data);
  }

  lemma TimerArmedIffUnacked(w: World)
    requires Reachable(w) && Connected(w.snd)
    ensures w.snd.timer.armed <==> w.snd.sendBuf != []
    ensures w.snd.timer.armed <==> w.snd.sndUna < w.snd.sndNxt
  {
    ReachableInv(w);
    SamePos(w.base, w.log, AckedUpTo(w.log, w.snd), |w.log|);
  }

  /** An ack that advances restarts the back-off from the beginning as long as
      something is left; the last one stops the timer; any other ack leaves it
      running as it was. */
  lemma ProgressRestartsTimer(w: World, ack: nat, rwnd: nat)
    requires Reachable(w) && Connected(w.snd) && ack in w.acks
    ensures var s' := ProcessAck(w.snd, ack, rwnd).0;
      if ack <= w.snd.sndUna then s'.timer == w.snd.timer
      else if ack < w.snd.sndNxt then s'.timer == Start(1)
      else !s'.timer.armed
  {
    ReachableInv(w);
    var k: nat :| k <= |w.log| && ack == Pos(w.base, w.log, k);
    PruneAt(w, k);
    AckKeepsSender(w.base, w.log, w.win0, w.snd, k, rwnd);
    TimerAfterAck(w.snd, ack, rwnd);
    if ack >= w.snd.sndNxt {
      SamePos(w.base, w.log, k, |w.log|);
    }
  }

  lemma UpdateLeavesBuffer(s: Sender, ack: nat, rwnd: nat)
    ensures var s' := UpdateWindowSafe(s, ack, rwnd).0;
      s'.state == s.state && s'.sendBuf == s.sendBuf && s'.timer == s.timer
  {
  }

  lemma BufferSetsTimer(s: Sender, ack: nat)
    requires Connected(s)
    ensures var s' := AckSendBuf(s, ack).0; var rest := Prune(s.sendBuf, ack);
      && s'.sendBuf == rest
      && s'.timer == if rest == [] then s.timer.(armed := false)
                     else if |rest| < |s.sendBuf| then Timer(true, 1, RETRANS_INITIAL) else s.timer
  {
  }

  lemma TimerAfterAck(s: Sender, ack: nat, rwnd: nat)
    requires Connected(s)
    ensures var s' := ProcessAck(s, ack, rwnd).0; var rest := Prune(s.sendBuf, ack);
      && s'.sendBuf == rest
      && s'.timer == if rest == [] then s.timer.(armed := false)
                     else if |rest| < |s.sendBuf| then Timer(true, 1, RETRANS_INITIAL) else s.timer
  {
    UpdateLeavesBuffer(s, ack, rwnd);
    BufferSetsTimer(UpdateWindowSafe(s, ack, rwnd).0, ack);
  }

  /** No ack that arrives advances. */
  predicate NoProgress(w: World, ev: Event) {
    ev.DeliverAck? ==> ev.ack <= w.snd.sndUna
  }

  function ScanCount(evs: seq<Event>, k: nat): nat
    requires k <= |evs|
  {
    if k == 0 then 0 else ScanCount(evs, k - 1) + if evs[k - 1].TimerScan? then 1 else 0
  }

  /** What the timer resends in the first k steps. */
  function TimerOutput(tr: seq<World>, evs: seq<Event>, k: nat): seq<Seg>
    requires k <= |evs| < |tr|
  {
    if k == 0 then []
    else TimerOutput(tr, evs, k - 1) + if evs[k - 1].TimerScan? then Scan(tr[k - 1].snd).1 else []
  }

  /** Something is unacknowledged, and the timer is armed as long as the
      connection is up. */
  predicate Waiting(s: Sender, head: Seg) {
    s.sendBuf != [] && s.sendBuf[0] == head && (Connected(s) || s.state == Closed) && (Connected(s) <==> s.timer.armed)
  }

  lemma NoProgressAck(w: World, ack: nat, rwnd: nat)
    requires Inv(w) && Connected(w.snd) && ack in w.acks && ack <= w.snd.sndUna
    ensures var s' := ProcessAck(w.snd, ack, rwnd).0;
      s'.state == w.snd.state && s'.sendBuf == w.snd.sendBuf && (w.snd.sendBuf != [] ==> s'.timer == w.snd.timer)
  {
    var k: nat :| k <= |w.log| && ack == Pos(w.base, w.log, k);
    PruneAt(w, k);
    PruneShrinks(w.snd.sendBuf, ack);
    AckKeepsSender(w.base, w.log, w.win0, w.snd, k, rwnd);
    TimerAfterAck(w.snd, ack, rwnd);
  }

  /** Writes, closes, deliveries, losses and acks without progress leave the timer
      and the first segment alone; only scans move it. */
  lemma TimerStep(w: World, ev: Event, w': World, head: Seg)
    requires Inv(w) && Step(w, ev, w') && NoProgress(w, ev) && Waiting(w.snd, head)
    ensures Waiting(w'.snd, head)
    ensures if ev.TimerScan?
            then Connected(w.snd) && w'.snd.timer == Tick(w.snd.timer).0
                 && Scan(w.snd).1 == if Tick(w.snd.timer).1 == Resend then [head] else []
            else w'.snd.timer == w.snd.timer
  {
    match ev
    case DeliverAck(ack, rwnd) => NoProgressAck(w, ack, rwnd);
    case TimerScan => ScanFollowsTimer(w.snd);
    case _ =>
  }

  /** One step of the run: the scan that is the n-th since the timer stood at t. */
  lemma CountedTimerStep(w: World, ev: Event, w': World, head: Seg, t: Timer, n: nat)
    requires Inv(w) && Step(w, ev, w') && NoProgress(w, ev) && Waiting(w.snd, head) && w.snd.timer == Ticks(t, n)
    ensures Waiting(w'.snd, head)
    ensures var m := if ev.TimerScan? then n + 1 else n;
      && w'.snd.timer == Ticks(t, m)
      && Copies(head, Resends(t, m)) == Copies(head, Resends(t, n)) + if ev.TimerScan? then Scan(w.snd).1 else []
  {
    TimerStep(w, ev, w', head);
  }

  lemma NextFollowsTimer(tr: seq<World>, evs: seq<Event>, k: nat, head: Seg, t: Timer, n: nat)
    requires Steps(tr, evs) && Inv(tr[0]) && k < |evs| && NoProgress(tr[k], evs[k])
    requires Waiting(tr[k].snd, head) && tr[k].snd.timer == Ticks(t, n)
    ensures Waiting(tr[k + 1].snd, head)
    ensures var m := if evs[k].TimerScan? then n + 1 else n;
      && tr[k + 1].snd.timer == Ticks(t, m)
      && Copies(head, Resends(t, m)) ==
           Copies(head, Resends(t, n)) + if evs[k].TimerScan? then Scan(tr[k].snd).1 else []
  {
    StepsInv(tr, evs, k);
    CountedTimerStep(tr[k], evs[k], tr[k + 1], head, t, n);
  }

  lemma {:induction false} RunFollowsTimer(tr: seq<World>, evs: seq<Event>, k: nat, head: Seg)
    requires Steps(tr, evs) && Inv(tr[0]) && k <= |evs| && Waiting(tr[0].snd, head)
    requires forall j: nat :: j < k ==> NoProgress(tr[j], evs[j])
    ensures Waiting(tr[k].snd, head)
    ensures tr[k].snd.timer == Ticks(tr[0].snd.timer, ScanCount(evs, k))
    ensures TimerOutput(tr, evs, k) == Copies(head, Resends(tr[0].snd.timer, ScanCount(evs, k)))
  {
    if k > 0 {
      RunFollowsTimer(tr, evs, k - 1, head);
      NextFollowsTimer(tr, evs, k - 1, head, tr[0].snd.timer, ScanCount(evs, k - 1));
    }
  }

  lemma {:induction false} ScansAreBounded(tr: seq<World>, evs: seq<Event>, k: nat, head: Seg)
    requires Steps(tr, evs) && Inv(tr[0]) && k <= |evs|
    requires Waiting(tr[0].snd, head) && tr[0].snd.timer == Start(1)
    requires forall j: nat :: j < k ==> NoProgress(tr[j], evs[j])
    ensures ScanCount(evs, k) <= 10220
  {
    if k > 0 {
      ScansAreBounded(tr, evs, k - 1, head);
      RunFollowsTimer(tr, evs, k - 1, head);
      FreshTimerLasts(ScanCount(evs, k - 1));
      assert Step(tr[k - 1], evs[k - 1], tr[k]);
    }
  }

  /** From a freshly armed timer on, through any steps of either end and of the
      network in which no ack advances: the connection is up for exactly 10220
      scans, its first segment stays, and the timer has resent it 8 times when it
      closes. */
  lemma GivesUpAfter10220Scans(tr: seq<World>, evs: seq<Event>, k: nat)
    requires Steps(tr, evs) && Inv(tr[0]) && k <= |evs| && Connected(tr[0].snd) && tr[0].snd.timer == Start(1)
    requires forall j: nat :: j < k ==> NoProgress(tr[j], evs[j])
    ensures tr[0].snd.sendBuf != [] && tr[k].snd.sendBuf != [] && tr[k].snd.sendBuf[0] == tr[0].snd.sendBuf[0]
    ensures ScanCount(evs, k) <= 10220
    ensures Connected(tr[k].snd) <==> ScanCount(evs, k) < 10220
    ensures ScanCount(evs, k) == 10220 ==>
      tr[k].snd.state == Closed && TimerOutput(tr, evs, k) == Copies(tr[0].snd.sendBuf[0], 8)
  {
    var head := tr[0].snd.sendBuf[0];
    ScansAreBounded(tr, evs, k, head);
    RunFollowsTimer(tr, evs, k, head);
    FreshTimerLasts(ScanCount(evs, k));
  }

  /** One of the three modes, at all times. */
  lemma CongestionModes(w: World)
    requires Reachable(w)
    ensures 1 <= w.snd.cwnd
    ensures Open(w.snd) || Reducing(w.snd) || Recovering(w.snd)
    ensures Recovering(w.snd) ==> w.snd.recoveryPoint <= w.snd.sndNxt
  {
    ReachableInv(w);
  }

  /** In recovery an ack that advances but falls short of the recovery point
      resends the segment that starts where it points; one at or beyond the point
      ends the recovery; any other ack resends nothing and is only counted. The
      window stays as it is throughout. */
  lemma PartialAckResendsHole(w: World, ack: nat, rwnd: nat)
    requires Reachable(w) && Connected(w.snd) && Recovering(w.snd) && ack in w.acks
    ensures var r := ProcessAck(w.snd, ack, rwnd);
      && SameGrowth(r.0, w.snd)
      && if ack <= w.snd.sndUna then r.1 == [] && Recovering(r.0) && r.0.tempCwnd == w.snd.tempCwnd + 1
         else if ack < w.snd.recoveryPoint then
           && |r.1| == 1 && r.1[0].start == ack && r.1[0] in w.log
           && Recovering(r.0) && r.0.tempCwnd == w.snd.tempCwnd
         else r.1 == [] && Open(r.0) && r.0.tempCwnd == 0
  {
    ReachableInv(w);
    var s := w.snd;
    var k: nat :| k <= |w.log| && ack == Pos(w.base, w.log, k);
    PruneAt(w, k);
    SamePos(w.base, w.log, k, |w.log|);
    RecoveringUpdate(s, ack, rwnd);
    RecoveringAck(UpdateWindowSafe(s, ack, rwnd).0, ack);
    AckBufferEffect(UpdateWindowSafe(s, ack, rwnd).0, ack);
  }

  /** Pruning for an ack at position k drops something exactly when the ack
      advances, and leaves the segment that starts at the ack in front. */
  lemma PruneAt(w: World, k: nat)
    requires Inv(w) && k <= |w.log|
    ensures var ack := Pos(w.base, w.log, k); var rest := Prune(w.snd.sendBuf, ack);
      && (|rest| < |w.snd.sendBuf| <==> w.snd.sndUna < ack)
      && (w.snd.sndUna < ack < w.snd.sndNxt ==> rest != [] && rest[0].start == ack && rest[0] in w.log)
  {
    var a := AckedUpTo(w.log, w.snd);
    SamePos(w.base, w.log, k, a);
    SamePos(w.base, w.log, k, |w.log|);
    PruneLog(w.base, w.log, a, k);
    if a < k {
      assert Prune(w.snd.sendBuf, Pos(w.base, w.log, k)) == w.log[k..];
      assert k < |w.log| ==> Entry(w.base, w.log, k);
    }
  }

  lemma RecoveringUpdate(s: Sender, ack: nat, rwnd: nat)
    requires Connected(s) && Recovering(s)
    ensures var r := UpdateWindowSafe(s, ack, rwnd);
      && r.1 == [] && Recovering(r.0) && r.0.recoveryPoint == s.recoveryPoint && r.0.sendBuf == s.sendBuf
      && SameGrowth(r.0, s) && r.0.tempCwnd == s.tempCwnd
  {
  }

  lemma RecoveringAck(s: Sender, ack: nat)
    requires Recovering(s)
    ensures var r := AckSendBuf(s, ack); var rest := Prune(s.sendBuf, ack);
      if |rest| >= |s.sendBuf| then r.1 == [] && Recovering(r.0) && r.0.tempCwnd == s.tempCwnd + 1
      else if ack < s.recoveryPoint then r.1 == Head(rest) && Recovering(r.0) && r.0.tempCwnd == s.tempCwnd
      else r.1 == [] && Open(r.0) && r.0.tempCwnd == 0
  {
  }

  lemma UpdateResends(s: Sender, ack: nat, rwnd: nat)
    requires Connected(s)
    ensures UpdateWindow(s, ack, rwnd).1 ==
      if Open(s) && ack == s.duack && s.dupacks + 1 >= DUPACK_LIMIT then Head(s.sendBuf) else []
  {
  }

  /** In open mode nothing else is resent. */
  lemma OpenResends(s: Sender, ack: nat, rwnd: nat)
    requires Connected(s) && Open(s) && s.cwnd >= 1 && AckInWindow(s, ack)
    ensures ProcessAck(s, ack, rwnd).1 == UpdateWindow(s, ack, rwnd).1
  {
    OpenUpdate(s, ack, rwnd);
    AckBufferEffect(UpdateWindow(s, ack, rwnd).0, ack);
  }

  /** Updating the window resends a segment exactly when three equal acks were
      counted before with something unacknowledged, and then the one that starts
      at the ack number; in open mode that is all an ack resends. */
  lemma FastRetransmitStartsAtAck(w: World, ack: nat, rwnd: nat)
    requires Inv(w) && Connected(w.snd) && ack in w.acks && w.snd.sndUna <= ack <= w.snd.sndNxt
    ensures var out := UpdateWindow(w.snd, ack, rwnd).1;
      && (out != [] <==> Open(w.snd) && ack == w.snd.duack && w.snd.dupacks == DUPACK_LIMIT - 1 && ack < w.snd.sndNxt)
      && (out != [] ==> |out| == 1 && out[0].start == ack && out[0] in w.log)
      && (Open(w.snd) ==> ProcessAck(w.snd, ack, rwnd).1 == out)
  {
    var k: nat :| k <= |w.log| && ack == Pos(w.base, w.log, k);
    SamePos(w.base, w.log, 0, k);
    SamePos(w.base, w.log, AckedUpTo(w.log, w.snd), |w.log|);
    UpdateResends(w.snd, ack, rwnd);
    if w.snd.sendBuf != [] {
      assert w.snd.sendBuf[0] == w.log[AckedUpTo(w.log, w.snd)];
      assert Entry(w.base, w.log, AckedUpTo(w.log, w.snd));
    }
    if Open(w.snd) {
      OpenResends(w.snd, ack, rwnd);
    }
  }

  predicate IsWindowAck(w: World, ev: Event) {
    ev.DeliverAck? && w.snd.sndUna <= ev.ack <= w.snd.sndNxt
  }

  /** Every ack in the window carries this number, and the timer stays quiet. */
  predicate OnlyAck(w: World, ev: Event, ack: nat) {
    && (IsWindowAck(w, ev) ==> ev.ack == ack)
    && (ev.TimerScan? ==> Tick(w.snd.timer).1 == Quiet)
  }

  function WindowAckCount(tr: seq<World>, evs: seq<Event>, k: nat): nat
    requires k <= |evs| < |tr|
  {
    if k == 0 then 0 else WindowAckCount(tr, evs, k - 1) + if IsWindowAck(tr[k - 1], evs[k - 1]) then 1 else 0
  }

  /** What acks resend in the first k steps. */
  function AckOutput(tr: seq<World>, evs: seq<Event>, k: nat): seq<Seg>
    requires k <= |evs| < |tr|
  {
    if k == 0 then []
    else
      AckOutput(tr, evs, k - 1) +
      match evs[k - 1]
      case DeliverAck(ack, rwnd) => ProcessAck(tr[k - 1].snd, ack, rwnd).1
      case _ => []
  }

  /** n acks of this number have been counted. */
  predicate Counted(s: Sender, ack: nat, n: nat) {
    Connected(s) && Open(s) && if n == 0 then s.duack != ack else s.duack == ack && s.dupacks == n
  }

  lemma CountedAck(w: World, ack: nat, rwnd: nat, n: nat, a: nat)
    requires Inv(w) && Counted(w.snd, ack, n) && a in w.acks && (AckInWindow(w.snd, a) ==> a == ack && n < 3)
    ensures var r := ProcessAck(w.snd, a, rwnd);
      r.1 == [] && Counted(r.0, ack, if AckInWindow(w.snd, a) then n + 1 else n)
  {
    var k: nat :| k <= |w.log| && a == Pos(w.base, w.log, k);
    SamePos(w.base, w.log, 0, k);
    if AckInWindow(w.snd, a) {
      OneMoreDuplicate(w.snd, a, rwnd);
    } else {
      AckBufferEffect(w.snd, a);
    }
  }

  lemma QuietScan(s: Sender)
    requires TimerOk(s) && Connected(s) && Tick(s.timer).1 == Quiet
    ensures Scan(s).0 == s.(timer := Scan(s).0.timer)
  {
  }

  lemma CountedStep(w: World, ev: Event, w': World, ack: nat, n: nat)
    requires Inv(w) && Step(w, ev, w') && OnlyAck(w, ev, ack) && Counted(w.snd, ack, n)
    requires IsWindowAck(w, ev) ==> n < 3
    ensures Counted(w'.snd, ack, if IsWindowAck(w, ev) then n + 1 else n)
    ensures ev.DeliverAck? ==> ProcessAck(w.snd, ev.ack, ev.rwnd).1 == []
  {
    match ev
    case DeliverAck(a, rwnd) => CountedAck(w, ack, rwnd, n, a);
    case TimerScan => QuietScan(w.snd);
    case _ =>
  }

  lemma {:induction false} EqualAcksAreCounted(tr: seq<World>, evs: seq<Event>, k: nat, ack: nat)
    requires Steps(tr, evs) && Inv(tr[0]) && k <= |evs| && Counted(tr[0].snd, ack, 0)
    requires forall j: nat :: j < k ==> OnlyAck(tr[j], evs[j], ack)
    requires WindowAckCount(tr, evs, k) <= 3
    ensures Counted(tr[k].snd, ack, WindowAckCount(tr, evs, k)) && AckOutput(tr, evs, k) == []
  {
    if k > 0 {
      EqualAcksAreCounted(tr, evs, k - 1, ack);
      StepsInv(tr, evs, k - 1);
      CountedStep(tr[k - 1], evs[k - 1], tr[k], ack, WindowAckCount(tr, evs, k - 1));
    }
  }

  /** Of four equal acks in a row, with any writes, losses, deliveries and acks
      outside the window in between, the first three resend nothing; the fourth
      resends the segment that starts at the ack number, if there is one, and
      starts a reduction from the window it finds, grown by this ack. */
  lemma FourthEqualAckResends(tr: seq<World>, evs: seq<Event>, k: nat, ack: nat, rwnd: nat)
    requires Steps(tr, evs) && Inv(tr[0]) && k <= |evs|
    requires Connected(tr[0].snd) && Open(tr[0].snd) && tr[0].snd.duack != ack
    requires forall j: nat :: j < k ==> OnlyAck(tr[j], evs[j], ack)
    requires WindowAckCount(tr, evs, k) == 3 && ack in tr[k].acks
    requires tr[k].snd.sndUna <= ack <= tr[k].snd.sndNxt
    ensures AckOutput(tr, evs, k) == []
    ensures var r := ProcessAck(tr[k].snd, ack, rwnd);
      && (if ack < tr[k].snd.sndNxt then |r.1| == 1 && r.1[0].start == ack && r.1[0] in tr[k].log else r.1 == [])
      && r.0.cwnd == r.0.frpacks == Grown(tr[k].snd) && r.0.ssthresh == Grown(tr[k].snd) / 2
      && ReducingFrom(r.0, Grown(tr[k].snd))
  {
    EqualAcksAreCounted(tr, evs, k, ack);
    StepsInv(tr, evs, k);
    var w := tr[k];
    var i: nat :| i <= |w.log| && ack == Pos(w.base, w.log, i);
    SamePos(w.base, w.log, 0, i);
    FastRetransmitStartsAtAck(w, ack, rwnd);
    FourthAck(w.snd, ack, rwnd);
  }

  // ---------------------------------------------------------------------
  // An acknowledgment in the way
  // ---------------------------------------------------------------------

  /** One byte is written. */
  lemma WritesByte(w: World, data: seq<byte>) returns (w': World)
    requires Reachable(w) && CanWrite(w.snd) && w.snd.sndWnd > 0 && |data| == 1
    ensures Step(w, Event.Write(data), w') && Reachable(w')
    ensures var g := Seg(w.snd.sndNxt, data, Plain);
      w' == w.(snd := w'.snd, wire := w.wire + {g}, log := w.log + [g], written := w.written + data)
    ensures w'.snd.state == w.snd.state && w'.snd.sndNxt == w.snd.sndNxt + 1 && w'.snd.cwnd == w.snd.cwnd
    ensures w'.snd.advWnd == w.snd.advWnd - 1 && w'.snd.sndWnd == UsableWindow(w'.snd.advWnd, w'.snd.cwnd)
  {
    WriteFitsWindow(w, data);
    WriteEffect(w.snd, data);
    var r := WriteChunk(w.snd, data);
    w' := w.(snd := r.0, wire := w.wire + {r.1}, log := w.log + [r.1], written := w.written + data);
    StepReachable(w, Event.Write(data), w');
  }

  lemma SendsAck(w: World) returns (w': World)
    requires Reachable(w) && Connected(w.snd)
    ensures Reachable(w') && w' == w.(wire := w.wire + {Seg(w.snd.sndNxt, [], Plain)})
  {
    w' := w.(wire := w.wire + {Seg(w.snd.sndNxt, [], Plain)});
    StepReachable(w, SendAck, w');
  }

  lemma AckIsStored(w: World, g: Seg) returns (w': World)
    requires Reachable(w) && g in w.wire && IsPureAck(g) && g.flag.Plain?
    requires w.rcv.ofo == [] && w.rcv.rcvNxt < g.start < w.rcv.rcvNxt + w.rcvWnd
    ensures Reachable(w') && w' == w.(rcv := w.rcv.(ofo := [g]), acks := w.acks + {w.rcv.rcvNxt})
  {
    ReachableInv(w);
    assert Process(w.rcv, w.rcvWnd, g) == w.rcv.(ofo := [g]);
    w' := w.(rcv := w.rcv.(ofo := [g]), acks := w.acks + {w.rcv.rcvNxt});
    StepReachable(w, DeliverSeg(g, w.read), w');
  }

  /** Two bytes are written with an acknowledgment between them; the acknowledgment
      overtakes both, and then the second byte is refused, although it is the
      first copy of it to arrive. */
  lemma AckTakesPlace(base: nat) returns (w: World, g: Seg)
    requires base > 0
    ensures Reachable(w) && g in w.log && g in w.wire && g.data != []
    ensures w.rcv.rcvNxt < g.start && InWindow(w.rcv.rcvNxt, w.rcvWnd, g)
    ensures Process(w.rcv, w.rcvWnd, g) == w.rcv && g !in w.rcv.ofo
  {
    var w0 := FreshWorld(base);
    InitReachable(w0);
    var w1 := WritesByte(w0, [0]);
    var w2 := SendsAck(w1);
    var w3 := WritesByte(w2, [0]);
    g := Seg(base + 1, [0], Plain);
    w := AckIsStored(w3, Seg(base + 1, [], Plain));
    assert w.rcv.ofo[0].start == g.start;
  }
}
