/** One direction of a connection: a sender and a receiver joined by a network
  that may lose, repeat and reorder.

  wire and acks hold what is on the network; a delivery takes any element and
  leaves it there, a loss removes any elements for good. The other direction of
  traffic only shows as acknowledgments that carry rcvNxt (SendAck, EmitAck) and
  as the peer's close (PeerFin). log, written, base and win0 are history.
*/
module TcpStream {
  import opened Common
  import opened TcpSegments
  import opened TcpReceiver
  import opened TcpSender
  import opened TcpControl

  datatype World = World(
    snd: Sender, rcv: Receiver, rcvWnd: nat, read: nat,
    wire: set<Seg>, acks: set<nat>,
    log: seq<Seg>, written: seq<byte>, base: nat, win0: nat)

  datatype Event =
    | Write(data: seq<byte>)
    | Close
    | SendAck
    | TimerScan
    | DeliverAck(ack: nat, rwnd: nat)
    | DeliverSeg(g: Seg, readTo: nat)
    | Read(len: nat)
    | EmitAck
    | PeerFin
    | Lose(segs: set<Seg>, goneAcks: set<nat>)

  /** The SYN (or SYN|ACK, in state SynRecv) is out and the timer armed. */
  function Opening(iss: nat, state: SockState): Sender {
    var s := SendControl(Fresh(iss, state), Syn).0;
    s.(timer := SetTimer(s.timer, 1))
  }

  /** Still unanswered after some scans, with or without retransmissions. */
  ghost predicate Unanswered(iss: nat, state: SockState, s: Sender) {
    s.state == state && exists n: nat :: s == Scans(Opening(iss, state), n)
  }

  /** The answer to an active open. */
  function ActiveOpen(s: Sender, iss: nat, rwnd: nat): Sender {
    AckSendBuf(UpdateWindowSafe(s, iss + 1, rwnd).0.(state := Established), iss + 1).0
  }

  /** The answer to a passive open. */
  function PassiveOpen(s: Sender, iss: nat, rwnd: nat): Sender {
    AckSendBuf(UpdateWindowSafe(s, iss + 1, rwnd).0, iss + 1).0.(state := Established)
  }

  function Opened(s: Sender, iss: nat, rwnd: nat): Sender {
    Sender(Established, iss + 1, iss + 1, rwnd, UsableWindow(rwnd, 2), [], 2, if s.timer.kind == 1 then U32MAX else 2,
           0, 0, 0, 0, 0, -1, s.timer.(armed := false))
  }

  /** Nothing but the timer and, after the first timeout, ssthresh has changed. */
  predicate JustOpening(iss: nat, state: SockState, s: Sender) {
    && s == Opening(iss, state).(timer := s.timer, ssthresh := s.ssthresh)
    && s.timer.armed && 1 <= s.timer.kind
    && s.ssthresh == if s.timer.kind == 1 then U32MAX else 2
  }

  lemma {:induction false} OpeningScans(iss: nat, state: SockState, n: nat)
    requires state == SynSent || state == SynRecv
    ensures var s := Scans(Opening(iss, state), n);
      JustOpening(iss, state, s) || (s.state == Closed && !s.timer.armed)
  {
    if n > 0 {
      OpeningScans(iss, state, n - 1);
    }
  }

  /** However often the SYN had to be repeated, an open ends with nothing in
      flight, the timer off, the peer's window, and cwnd 2. */
  lemma HandshakeOpens(iss: nat, rwnd: nat, s: Sender)
    requires rwnd < U16 && Unanswered(iss, SynSent, s)
    ensures ActiveOpen(s, iss, rwnd) == Opened(s, iss, rwnd)
  {
    var n: nat :| s == Scans(Opening(iss, SynSent), n);
    OpeningScans(iss, SynSent, n);
    SynIsPruned(iss);
  }

  lemma PassiveHandshakeOpens(iss: nat, rwnd: nat, s: Sender)
    requires rwnd < U16 && Unanswered(iss, SynRecv, s)
    ensures PassiveOpen(s, iss, rwnd) == Opened(s, iss, rwnd)
  {
    var n: nat :| s == Scans(Opening(iss, SynRecv), n);
    OpeningScans(iss, SynRecv, n);
    SynIsPruned(iss);
  }

  lemma SynIsPruned(iss: nat)
    ensures Opening(iss, SynSent).sendBuf == Opening(iss, SynRecv).sendBuf == [Seg(iss, [], Syn)]
    ensures Prune([Seg(iss, [], Syn)], iss + 1) == []
  {
  }

  /** e is what an open in state s becomes when it is answered. */
  ghost predicate AnsweredOpen(iss: nat, rwnd: nat, s: Sender, e: Sender) {
    || (Unanswered(iss, SynSent, s) && e == ActiveOpen(s, iss, rwnd))
    || (Unanswered(iss, SynRecv, s) && e == PassiveOpen(s, iss, rwnd))
  }

  ghost predicate JustOpened(iss: nat, rwnd: nat, e: Sender) {
    exists s :: AnsweredOpen(iss, rwnd, s, e)
  }

  ghost predicate Init(w: World) {
    && w.base > 0 && w.win0 < U16
    && JustOpened(w.base - 1, w.win0, w.snd)
    && w.rcv == Receiver(w.base, [], [], false)
    && w.rcvWnd == TCP_DEFAULT_WINDOW && w.read == 0
    && w.wire == {} && w.acks == {} && w.log == [] && w.written == []
  }

  function ToSet(s: seq<Seg>): set<Seg> {
    set g | g in s
  }

  /** What the receive buffer has room for once readTo bytes have been read. */
  predicate Fits(r: Receiver, readTo: nat) {
    readTo <= |r.stream| <= readTo + TCP_DEFAULT_WINDOW
  }

  function FreeSpace(r: Receiver, readTo: nat): nat
    requires Fits(r, readTo)
  {
    readTo + TCP_DEFAULT_WINDOW - |r.stream|
  }

  ghost predicate Step(w: World, ev: Event, w': World) {
    match ev
    case Write(data) =>
      && CanWrite(w.snd) && w.snd.sndWnd > 0 && 0 < |data| <= TCP_MSS
      && var r := WriteChunk(w.snd, data);
         w' == w.(snd := r.0, wire := w.wire + {r.1}, log := w.log + [r.1], written := w.written + data)
    case Close =>
      && CanWrite(w.snd)
      && var r := SockClose(w.snd);
         w' == w.(snd := r.0, wire := w.wire + ToSet(r.1), log := w.log + r.1)
    case SendAck =>
      && Connected(w.snd)
      && var r := SendControl(w.snd, Plain);
         w' == w.(snd := r.0, wire := w.wire + {r.1})
    case TimerScan =>
      && Connected(w.snd)
      && var r := Scan(w.snd);
         w' == w.(snd := r.0, wire := w.wire + ToSet(r.1))
    case DeliverAck(ack, rwnd) =>
      && Connected(w.snd) && ack in w.acks
      && var r := ProcessAck(w.snd, ack, rwnd);
         w' == w.(snd := r.0, wire := w.wire + ToSet(r.1))
    case DeliverSeg(g, readTo) =>
      && g in w.wire
      && var r := Process(w.rcv, w.rcvWnd, g);
         && w.read <= readTo && Fits(r, readTo)
         && (if Taken(w.rcv, w.rcvWnd, g)
             then w' == w.(rcv := r, read := readTo, rcvWnd := FreeSpace(r, readTo), acks := w.acks + {r.rcvNxt})
             else readTo == w.read
                  && w' == w.(acks := w.acks + (if Answered(w.rcv, w.rcvWnd, g) then {r.rcvNxt} else {})))
    case Read(len) =>
      && 0 < len <= |w.rcv.stream| - w.read
      && Fits(w.rcv, w.read + len)
      && w' == w.(read := w.read + len, rcvWnd := FreeSpace(w.rcv, w.read + len))
    case EmitAck =>
      w' == w.(acks := w.acks + {w.rcv.rcvNxt})
    case PeerFin =>
      && w.snd.state == Established
      && w' == w.(snd := w.snd.(state := CloseWait))
    case Lose(segs, goneAcks) =>
      w' == w.(wire := w.wire - segs, acks := w.acks - goneAcks)
  }

  /** A stretch of steps from any state on. */
  ghost predicate Steps(tr: seq<World>, evs: seq<Event>) {
    |tr| == |evs| + 1 && forall k: nat :: k < |evs| ==> Step(tr[k], evs[k], tr[k + 1])
  }

  ghost predicate Run(tr: seq<World>, evs: seq<Event>) {
    Steps(tr, evs) && Init(tr[0])
  }

  ghost predicate Reachable(w: World) {
    exists tr: seq<World>, evs: seq<Event> :: Run(tr, evs) && tr[|evs|] == w
  }

  // ---------------------------------------------------------------------
  // The log: one segmentation for every copy of a byte
  // ---------------------------------------------------------------------

  /** The sequence number at which the i-th logged segment starts. */
  function Pos(base: nat, log: seq<Seg>, i: nat): nat
    requires i <= |log|
  {
    if i == 0 then base else log[i - 1].SeqEnd()
  }

  function Bytes(log: seq<Seg>, n: nat): seq<byte>
    requires n <= |log|
  {
    if n == 0 then [] else Bytes(log, n - 1) + log[n - 1].data
  }

  predicate HasFin(log: seq<Seg>) {
    log != [] && log[|log| - 1].flag == Fin
  }

  /** The i-th segment starts where the one before it ended; only the last may be a FIN. */
  predicate Entry(base: nat, log: seq<Seg>, i: nat)
    requires i < |log|
  {
    && log[i].start == Pos(base, log, i)
    && (if log[i].flag == Fin then log[i].data == [] && i == |log| - 1 else log[i].flag == Plain && log[i].data != [])
  }

  ghost predicate LogOk(base: nat, log: seq<Seg>) {
    forall i: nat :: i < |log| ==> Entry(base, log, i)
  }

  lemma {:induction false} PosIncreases(base: nat, log: seq<Seg>, i: nat, j: nat)
    requires LogOk(base, log) && i < j <= |log|
    ensures Pos(base, log, i) < Pos(base, log, j)
  {
    assert Entry(base, log, j - 1);
    if i < j - 1 {
      PosIncreases(base, log, i, j - 1);
    }
  }

  ghost predicate IsPos(base: nat, log: seq<Seg>, x: nat) {
    exists k: nat :: k <= |log| && x == Pos(base, log, k)
  }

  /** A logged segment, or a pure acknowledgment between two logged segments. */
  ghost predicate FromLog(base: nat, log: seq<Seg>, g: Seg) {
    g in log || (g.data == [] && g.flag == Plain && IsPos(base, log, g.start))
  }

  lemma LogExtends(base: nat, log: seq<Seg>, g: Seg)
    requires LogOk(base, log) && !HasFin(log) && g.start == Pos(base, log, |log|)
    requires if g.flag == Fin then g.data == [] else g.flag == Plain && g.data != []
    ensures LogOk(base, log + [g])
    ensures forall k: nat :: k <= |log| ==> Pos(base, log + [g], k) == Pos(base, log, k)
  {
    forall i: nat | i < |log| + 1 ensures Entry(base, log + [g], i) {
      if i < |log| {
        assert Entry(base, log, i) && Entry(base, log, |log| - 1);
      }
    }
  }

  lemma {:induction false} BytesExtends(log: seq<Seg>, g: Seg, n: nat)
    requires n <= |log|
    ensures Bytes(log + [g], n) == Bytes(log, n)
  {
    if n > 0 {
      BytesExtends(log, g, n - 1);
    }
  }

  lemma FromLogExtends(base: nat, log: seq<Seg>, l: Seg, g: Seg)
    requires FromLog(base, log, g)
    ensures FromLog(base, log + [l], g)
  {
    if g !in log {
      var k: nat :| k <= |log| && g.start == Pos(base, log, k);
      assert Pos(base, log + [l], k) == Pos(base, log, k);
    }
  }

  function FinBefore(log: seq<Seg>, n: nat): nat {
    if n == |log| && HasFin(log) then 1 else 0
  }

  lemma {:induction false} BytesNumbered(base: nat, log: seq<Seg>, n: nat)
    requires LogOk(base, log) && n <= |log|
    ensures |Bytes(log, n)| == Pos(base, log, n) - base - FinBefore(log, n)
  {
    if n > 0 {
      BytesNumbered(base, log, n - 1);
      assert Entry(base, log, n - 1);
    }
  }

  // ---------------------------------------------------------------------
  // The receiver
  // ---------------------------------------------------------------------

  ghost predicate Sorted(ofo: seq<Seg>) {
    forall i: nat, j: nat :: i < j < |ofo| ==> ofo[i].start < ofo[j].start
  }

  /** The receiver has taken exactly the first n logged segments. */
  ghost predicate TakenUpTo(base: nat, log: seq<Seg>, r: Receiver, n: nat) {
    && n <= |log|
    && r.rcvNxt == Pos(base, log, n)
    && r.stream == Bytes(log, n)
    && (r.eof <==> n == |log| && HasFin(log))
  }

  ghost predicate OfoOk(base: nat, log: seq<Seg>, ofo: seq<Seg>) {
    Sorted(ofo) && forall i: nat :: i < |ofo| ==> FromLog(base, log, ofo[i])
  }

  ghost predicate ReceiverOk(base: nat, log: seq<Seg>, r: Receiver) {
    && (exists n: nat :: TakenUpTo(base, log, r, n))
    && OfoOk(base, log, r.ofo)
    && (forall i: nat :: i < |r.ofo| ==> r.ofo[i].start > r.rcvNxt)
  }

  lemma StartIsPos(base: nat, log: seq<Seg>, g: Seg) returns (k: nat)
    requires LogOk(base, log) && FromLog(base, log, g)
    ensures k <= |log| && g.start == Pos(base, log, k)
    ensures g in log ==> k < |log| && g == log[k]
  {
    if g in log {
      k :| k < |log| && g == log[k];
      assert Entry(base, log, k);
    } else {
      k :| k <= |log| && g.start == Pos(base, log, k);
    }
  }

  lemma SamePos(base: nat, log: seq<Seg>, i: nat, j: nat)
    requires LogOk(base, log) && i <= |log| && j <= |log|
    ensures Pos(base, log, i) == Pos(base, log, j) <==> i == j
    ensures Pos(base, log, i) < Pos(base, log, j) <==> i < j
  {
    if i < j {
      PosIncreases(base, log, i, j);
    } else if j < i {
      PosIncreases(base, log, j, i);
    }
  }

  /** Accepting a segment that starts at rcvNxt takes one more logged segment,
      or nothing when it is a pure acknowledgment. */
  lemma AcceptTakes(base: nat, log: seq<Seg>, r: Receiver, n: nat, g: Seg) returns (n': nat)
    requires LogOk(base, log) && TakenUpTo(base, log, r, n)
    requires FromLog(base, log, g) && g.start == r.rcvNxt
    ensures TakenUpTo(base, log, Accept(r, g), n')
    ensures if g in log then n' == n + 1 else n' == n
  {
    var k := StartIsPos(base, log, g);
    SamePos(base, log, k, n);
    n' := if g in log then n + 1 else n;
    assert g in log ==> Entry(base, log, n);
  }

  /** An entry stored beyond position n starts at n + 1 or later. */
  lemma BeyondNext(base: nat, log: seq<Seg>, g: Seg, n: nat)
    requires LogOk(base, log) && FromLog(base, log, g) && n < |log| && g.start > Pos(base, log, n)
    ensures g.start >= Pos(base, log, n + 1)
  {
    var k := StartIsPos(base, log, g);
    SamePos(base, log, n, k);
    SamePos(base, log, k, n + 1);
  }

  lemma {:induction false} DrainTakes(base: nat, log: seq<Seg>, r: Receiver, n: nat)
    requires LogOk(base, log) && TakenUpTo(base, log, r, n) && OfoOk(base, log, r.ofo)
    requires forall i: nat :: i < |r.ofo| ==> r.ofo[i].start >= r.rcvNxt
    ensures ReceiverOk(base, log, Drain(r)) && Drain(r).rcvNxt >= r.rcvNxt
    decreases |r.ofo|
  {
    if r.ofo != [] && r.ofo[0].start == r.rcvNxt {
      var g, rest := r.ofo[0], r.ofo[1..];
      var r1 := r.(ofo := rest);
      var n' := AcceptTakes(base, log, r1, n, g);
      var r2 := Accept(r1, g);
      forall i: nat | i < |rest| ensures FromLog(base, log, rest[i]) && rest[i].start >= r2.rcvNxt {
        assert FromLog(base, log, r.ofo[i + 1]) && r.ofo[0].start < r.ofo[i + 1].start;
        if g in log {
          BeyondNext(base, log, rest[i], n);
        }
      }
      DrainTakes(base, log, r2, n');
    }
  }

  lemma {:induction false} InsertKeepsOfo(base: nat, log: seq<Seg>, ofo: seq<Seg>, g: Seg)
    requires OfoOk(base, log, ofo) && FromLog(base, log, g) && !Pending(ofo, g.start)
    ensures OfoOk(base, log, Insert(ofo, g))
    ensures forall i: nat :: i < |Insert(ofo, g)| ==> Insert(ofo, g)[i] == g || Insert(ofo, g)[i] in ofo
  {
    if ofo != [] && ofo[0].start <= g.start {
      var rest := ofo[1..];
      forall i: nat | i < |rest| ensures FromLog(base, log, rest[i]) && rest[i].start != g.start {
        assert rest[i] == ofo[i + 1];
      }
      InsertKeepsOfo(base, log, rest, g);
      var tail := Insert(rest, g);
      forall i: nat | i < |tail| ensures ofo[0].start < tail[i].start {
        if tail[i] != g {
          var j: nat :| j < |rest| && rest[j] == tail[i];
          assert rest[j] == ofo[j + 1];
        }
      }
    }
  }

  lemma {:induction false} DrainOnlyRemoves(r: Receiver)
    ensures forall x :: x in Drain(r).ofo ==> x in r.ofo
    decreases |r.ofo|
  {
    if r.ofo != [] && r.ofo[0].start == r.rcvNxt {
      DrainOnlyRemoves(Accept(r.(ofo := r.ofo[1..]), r.ofo[0]));
    }
  }

  lemma ProcessStoresOnly(r: Receiver, rcvWnd: nat, g: Seg)
    ensures forall x :: x in Process(r, rcvWnd, g).ofo ==> x in r.ofo || (x == g && Taken(r, rcvWnd, g))
  {
    if Taken(r, rcvWnd, g) {
      if r.rcvNxt == g.start {
        DrainOnlyRemoves(Accept(r, g));
      } else {
        InsertContains(r.ofo, g);
        DrainOnlyRemoves(r.(ofo := Insert(r.ofo, g)));
      }
    }
  }

  /** rcvNxt runs ahead of the bytes received by base, and by one more after a FIN. */
  lemma StreamLength(base: nat, log: seq<Seg>, r: Receiver)
    requires LogOk(base, log) && ReceiverOk(base, log, r)
    ensures r.rcvNxt == base + |r.stream| + if r.eof then 1 else 0
  {
    var n: nat :| TakenUpTo(base, log, r, n);
    BytesNumbered(base, log, n);
  }

  lemma EofStays(base: nat, log: seq<Seg>, r: Receiver, r': Receiver)
    requires LogOk(base, log) && ReceiverOk(base, log, r) && ReceiverOk(base, log, r') && r'.rcvNxt >= r.rcvNxt
    ensures r.eof ==> r'.eof
  {
    var n: nat :| TakenUpTo(base, log, r, n);
    var n': nat :| TakenUpTo(base, log, r', n');
    SamePos(base, log, n', n);
  }

  /** Whatever arrives, the receiver keeps a prefix of the log and a sorted list
      of later segments, and answers with a number it has reached. */
  lemma ProcessKeepsReceiver(base: nat, log: seq<Seg>, r: Receiver, rcvWnd: nat, g: Seg)
    requires LogOk(base, log) && ReceiverOk(base, log, r) && FromLog(base, log, g)
    ensures ReceiverOk(base, log, Process(r, rcvWnd, g))
    ensures Process(r, rcvWnd, g).rcvNxt >= r.rcvNxt
  {
    if Taken(r, rcvWnd, g) {
      var n: nat :| TakenUpTo(base, log, r, n);
      if r.rcvNxt == g.start {
        var n' := AcceptTakes(base, log, r, n, g);
        forall i: nat | i < |r.ofo| ensures r.ofo[i].start >= g.SeqEnd() {
          BeyondNext(base, log, r.ofo[i], n);
        }
        DrainTakes(base, log, Accept(r, g), n');
      } else {
        var k := StartIsPos(base, log, g);
        if g in log {
          SamePos(base, log, k + 1, n);
          SamePos(base, log, k, n);
        }
        InsertKeepsOfo(base, log, r.ofo, g);
        DrainTakes(base, log, r.(ofo := Insert(r.ofo, g)), n);
      }
    }
  }

  // ---------------------------------------------------------------------
  // The sender
  // ---------------------------------------------------------------------

  /** The number of logged segments that have been acknowledged. */
  function AckedUpTo(log: seq<Seg>, s: Sender): nat
    requires |s.sendBuf| <= |log|
  {
    |log| - |s.sendBuf|
  }

  /** sendBuf is the rest of the log from the highest ack processed on. */
  ghost predicate BufferOk(base: nat, log: seq<Seg>, s: Sender) {
    && |s.sendBuf| <= |log|
    && s.sendBuf == log[AckedUpTo(log, s)..]
    && s.sndUna == Pos(base, log, AckedUpTo(log, s))
    && s.sndNxt == Pos(base, log, |log|)
  }

  /** The window the peer granted in the handshake, less what is in flight. A FIN
      in flight takes no window; after its acknowledgment the sum is one higher. */
  function TrueWindow(win0: nat, log: seq<Seg>, s: Sender): int {
    win0 + (if HasFin(log) then 1 else 0) - (s.sndNxt - s.sndUna)
  }

  /** Flow conservation; the field is 16 bits wide. */
  ghost predicate FlowOk(win0: nat, log: seq<Seg>, s: Sender) {
    && win0 < U16
    && TrueWindow(win0, log, s) >= 0
    && s.advWnd == TrueWindow(win0, log, s) % U16
    && s.sndWnd == UsableWindow(s.advWnd, s.cwnd)
  }

  ghost predicate TimerOk(s: Sender) {
    Connected(s) ==> (s.timer.armed <==> s.sendBuf != [])
  }

  ghost predicate SenderOk(base: nat, log: seq<Seg>, win0: nat, s: Sender) {
    && base > 0
    && BufferOk(base, log, s)
    && FlowOk(win0, log, s)
    && TimerOk(s)
    && CongestionOk(s)
    && (CanWrite(s) ==> !HasFin(log))
  }

  lemma {:induction false} PruneLog(base: nat, log: seq<Seg>, i: nat, k: nat)
    requires LogOk(base, log) && i <= |log| && k <= |log|
    ensures Prune(log[i..], Pos(base, log, k)) == log[if i < k then k else i..]
    decreases |log| - i
  {
    if i < |log| {
      var rest := Prune(log[i + 1..], Pos(base, log, k));
      assert log[i..][1..] == log[i + 1..];
      SamePos(base, log, k, i + 1);
      PruneLog(base, log, i + 1, k);
      assert [] + rest == rest;
      assert [log[i]] + log[i + 1..] == log[i..];
    }
  }

  /** What processing an ack does, apart from congestion control. */
  predicate AckEffect(s: Sender, ack: nat, s': Sender) {
    && s'.state == s.state && s'.sndNxt == s.sndNxt
    && s'.sndUna == (if AckInWindow(s, ack) then ack else s.sndUna)
    && s'.advWnd == (if AckInWindow(s, ack) then (s.advWnd + (ack - s.sndUna)) % U16 else s.advWnd)
    && s'.sndWnd == UsableWindow(s'.advWnd, s'.cwnd)
    && s'.sendBuf == Prune(s.sendBuf, ack)
    && s'.timer.armed == (s'.sendBuf != [] && (|s'.sendBuf| < |s.sendBuf| || s.timer.armed))
  }

  lemma UpdateEffect(s: Sender, ack: nat, rwnd: nat)
    requires Connected(s) && s.sndWnd == UsableWindow(s.advWnd, s.cwnd)
    ensures var r := UpdateWindowSafe(s, ack, rwnd);
      && r.0.state == s.state && r.0.sndNxt == s.sndNxt && r.0.sendBuf == s.sendBuf && r.0.timer == s.timer
      && r.0.sndUna == (if AckInWindow(s, ack) then ack else s.sndUna)
      && r.0.advWnd == (if AckInWindow(s, ack) then (s.advWnd + (ack - s.sndUna)) % U16 else s.advWnd)
      && r.0.sndWnd == UsableWindow(r.0.advWnd, r.0.cwnd)
      && (r.1 == [] || r.1 == Head(s.sendBuf))
  {
  }

  lemma AckBufEffect(s: Sender, ack: nat)
    requires s.sndWnd == UsableWindow(s.advWnd, s.cwnd)
    ensures var r := AckSendBuf(s, ack);
      && r.0.state == s.state && r.0.sndNxt == s.sndNxt && r.0.sndUna == s.sndUna && r.0.advWnd == s.advWnd
      && r.0.sendBuf == Prune(s.sendBuf, ack) && r.0.sndWnd == UsableWindow(r.0.advWnd, r.0.cwnd)
      && r.0.timer.armed == (r.0.sendBuf != [] && (|r.0.sendBuf| < |s.sendBuf| || s.timer.armed))
      && (r.1 == [] || r.1 == Head(Prune(s.sendBuf, ack)))
  {
  }

  lemma {:induction false} PruneShrinks(buf: seq<Seg>, ack: nat)
    ensures |Prune(buf, ack)| <= |buf|
    ensures |Prune(buf, ack)| == |buf| ==> Prune(buf, ack) == buf
    ensures forall g :: g in Prune(buf, ack) ==> g in buf
  {
    if buf != [] {
      PruneShrinks(buf[1..], ack);
      assert buf == [buf[0]] + buf[1..];
    }
  }

  lemma ProcessAckEffect(s: Sender, ack: nat, rwnd: nat)
    requires Connected(s) && s.sndWnd == UsableWindow(s.advWnd, s.cwnd)
    ensures AckEffect(s, ack, ProcessAck(s, ack, rwnd).0)
    ensures forall g :: g in ProcessAck(s, ack, rwnd).1 ==> g in s.sendBuf
  {
    UpdateEffect(s, ack, rwnd);
    AckBufEffect(UpdateWindowSafe(s, ack, rwnd).0, ack);
    PruneShrinks(s.sendBuf, ack);
  }

  lemma AckKeepsBuffer(base: nat, log: seq<Seg>, s: Sender, k: nat, s': Sender)
    requires LogOk(base, log) && BufferOk(base, log, s) && k <= |log|
    requires s'.sndNxt == s.sndNxt && s'.sendBuf == Prune(s.sendBuf, Pos(base, log, k))
    requires s'.sndUna == if AckInWindow(s, Pos(base, log, k)) then Pos(base, log, k) else s.sndUna
    ensures BufferOk(base, log, s') && AckedUpTo(log, s') == Max(k, AckedUpTo(log, s))
  {
    var i := AckedUpTo(log, s);
    PruneLog(base, log, i, k);
    SamePos(base, log, i, k);
    SamePos(base, log, k, |log|);
    if i < k {
      assert s'.sendBuf == log[k..] && AckedUpTo(log, s') == k;
    } else {
      assert s'.sendBuf == log[i..] && AckedUpTo(log, s') == i;
    }
  }

  lemma AckKeepsFlow(win0: nat, log: seq<Seg>, s: Sender, ack: nat, s': Sender)
    requires FlowOk(win0, log, s) && AckEffect(s, ack, s') && s.sndUna <= s.sndNxt
    ensures FlowOk(win0, log, s')
  {
  }

  lemma AckKeepsSender(base: nat, log: seq<Seg>, win0: nat, s: Sender, k: nat, rwnd: nat)
    requires LogOk(base, log) && Connected(s) && SenderOk(base, log, win0, s) && k <= |log|
    ensures var r := ProcessAck(s, Pos(base, log, k), rwnd);
      && SenderOk(base, log, win0, r.0)
      && AckedUpTo(log, r.0) == Max(k, AckedUpTo(log, s))
      && r.0.state == s.state
      && (forall g :: g in r.1 ==> g in log)
  {
    var ack := Pos(base, log, k);
    var s' := ProcessAck(s, ack, rwnd).0;
    ProcessAckEffect(s, ack, rwnd);
    SamePos(base, log, 0, k);
    SamePos(base, log, AckedUpTo(log, s), |log|);
    AckKeepsBuffer(base, log, s, k, s');
    AckKeepsFlow(win0, log, s, ack, s');
    PruneShrinks(s.sendBuf, ack);
    AckKeepsCongestion(s, ack, rwnd);
    assert forall g :: g in s.sendBuf ==> g in log;
  }

  lemma SendKeepsBuffer(base: nat, log: seq<Seg>, s: Sender, s': Sender, g: Seg)
    requires LogOk(base, log) && BufferOk(base, log, s) && !HasFin(log)
    requires if g.flag == Fin then g.data == [] else g.flag == Plain && g.data != []
    requires g.start == s.sndNxt && s'.sndNxt == g.SeqEnd() && s'.sendBuf == s.sendBuf + [g] && s'.sndUna == s.sndUna
    ensures LogOk(base, log + [g]) && BufferOk(base, log + [g], s')
  {
    LogExtends(base, log, g);
    var i := AckedUpTo(log, s);
    assert (log + [g])[i..] == log[i..] + [g];
  }

  lemma ChunkFits(s: Sender, data: seq<byte>)
    requires s.sndWnd == UsableWindow(s.advWnd, s.cwnd) && s.advWnd < U16 && s.sndWnd > 0 && |data| <= TCP_MSS
    ensures |data| <= s.advWnd && WriteChunk(s, data).0.advWnd == s.advWnd - |data|
  {
    assert s.advWnd / TCP_MSS > 0;
  }

  lemma WriteEffect(s: Sender, data: seq<byte>)
    ensures var r := WriteChunk(s, data);
      && r.1 == Seg(s.sndNxt, data, Plain)
      && r.0 == s.(advWnd := r.0.advWnd, sndWnd := UsableWindow(r.0.advWnd, s.cwnd), sndNxt := s.sndNxt + |data|,
                   sendBuf := s.sendBuf + [r.1], timer := r.0.timer)
      && r.0.timer == if s.timer.armed then s.timer else Start(1)
  {
  }

  /** What a write takes off the window it adds to the bytes in flight. */
  lemma SendKeepsFlow(win0: nat, log: seq<Seg>, g: Seg, s: Sender, s': Sender)
    requires FlowOk(win0, log, s) && !HasFin(log) && g.flag == Plain && s.sndUna <= s.sndNxt
    requires |g.data| <= s.advWnd && s'.advWnd == s.advWnd - |g.data| && s'.sndWnd == UsableWindow(s'.advWnd, s'.cwnd)
    requires s'.sndUna == s.sndUna && s'.sndNxt == s.sndNxt + |g.data|
    ensures FlowOk(win0, log + [g], s')
  {
    assert s.advWnd == TrueWindow(win0, log, s);
    assert s'.advWnd == TrueWindow(win0, log + [g], s');
  }

  lemma WriteKeepsSender(base: nat, log: seq<Seg>, win0: nat, s: Sender, data: seq<byte>)
    requires LogOk(base, log) && SenderOk(base, log, win0, s) && CanWrite(s)
    requires s.sndWnd > 0 && 0 < |data| <= TCP_MSS
    ensures var r := WriteChunk(s, data);
      LogOk(base, log + [r.1]) && SenderOk(base, log + [r.1], win0, r.0) && |data| <= s.advWnd
  {
    var r := WriteChunk(s, data);
    WriteEffect(s, data);
    ChunkFits(s, data);
    SendKeepsBuffer(base, log, s, r.0, r.1);
    SamePos(base, log, AckedUpTo(log, s), |log|);
    SendKeepsFlow(win0, log, r.1, s, r.0);
    BufferKeepsCongestion(s, r.0);
  }

  /** Closing sends one FIN, and none when one has been sent or the sock is not open. */
  lemma CloseEffect(s: Sender)
    ensures var r := SockClose(s);
      if !CanWrite(s) then r == (s, [])
      else
        && r.1 == [Seg(s.sndNxt, [], Fin)]
        && r.0 == s.(state := if s.state == Established then FinWait else LastAck, sndNxt := s.sndNxt + 1,
                     sendBuf := s.sendBuf + r.1, timer := r.0.timer)
        && r.0.timer == if s.timer.armed then s.timer else Start(1)
  {
  }

  /** A FIN takes a number but no window. */
  lemma FinKeepsFlow(win0: nat, log: seq<Seg>, g: Seg, s: Sender, s': Sender)
    requires FlowOk(win0, log, s) && !HasFin(log) && g.flag == Fin
    requires s'.sndUna == s.sndUna && s'.sndNxt == s.sndNxt + 1 && s'.advWnd == s.advWnd
    requires s'.sndWnd == s.sndWnd && s'.cwnd == s.cwnd
    ensures FlowOk(win0, log + [g], s')
  {
    assert TrueWindow(win0, log + [g], s') == TrueWindow(win0, log, s);
  }

  lemma CloseKeepsSender(base: nat, log: seq<Seg>, win0: nat, s: Sender)
    requires LogOk(base, log) && SenderOk(base, log, win0, s) && CanWrite(s)
    ensures var r := SockClose(s);
      |r.1| == 1 && LogOk(base, log + r.1) && SenderOk(base, log + r.1, win0, r.0) && HasFin(log + r.1)
  {
    var r := SockClose(s);
    CloseEffect(s);
    SendKeepsBuffer(base, log, s, r.0, r.1[0]);
    FinKeepsFlow(win0, log, r.1[0], s, r.0);
    BufferKeepsCongestion(s, r.0);
  }

  lemma ScanEffect(s: Sender)
    requires s.sndWnd == UsableWindow(s.advWnd, s.cwnd)
    ensures var r := Scan(s);
      && r.0.sndUna == s.sndUna && r.0.sndNxt == s.sndNxt && r.0.advWnd == s.advWnd && r.0.sendBuf == s.sendBuf
      && r.0.sndWnd == UsableWindow(r.0.advWnd, r.0.cwnd)
      && (r.0.state == Closed || (r.0.state == s.state && r.0.timer.armed == s.timer.armed))
      && (r.1 == [] || r.1 == Head(s.sendBuf))
  {
  }

  lemma ScanKeepsSender(base: nat, log: seq<Seg>, win0: nat, s: Sender)
    requires SenderOk(base, log, win0, s) && Connected(s)
    ensures SenderOk(base, log, win0, Scan(s).0)
    ensures forall g :: g in Scan(s).1 ==> g in log
  {
    ScanEffect(s);
    ScanKeepsCongestion(s);
    StaysOk(base, log, win0, s, Scan(s).0);
    assert forall g :: g in s.sendBuf ==> g in log;
  }

  lemma SameFlow(win0: nat, log: seq<Seg>, s: Sender, s': Sender)
    requires FlowOk(win0, log, s) && s'.sndUna == s.sndUna && s'.sndNxt == s.sndNxt && s'.advWnd == s.advWnd
    requires s'.sndWnd == UsableWindow(s'.advWnd, s'.cwnd)
    ensures FlowOk(win0, log, s')
  {
    assert TrueWindow(win0, log, s') == TrueWindow(win0, log, s);
  }

  /** What a scan may do to a sender. */
  lemma StaysOk(base: nat, log: seq<Seg>, win0: nat, s: Sender, s': Sender)
    requires SenderOk(base, log, win0, s) && CongestionOk(s')
    requires s'.sndUna == s.sndUna && s'.sndNxt == s.sndNxt && s'.advWnd == s.advWnd && s'.sendBuf == s.sendBuf
    requires s'.sndWnd == UsableWindow(s'.advWnd, s'.cwnd)
    requires s'.state == Closed || (s'.state == s.state && s'.timer.armed == s.timer.armed)
    ensures SenderOk(base, log, win0, s')
  {
    SameFlow(win0, log, s, s');
    assert AckedUpTo(log, s') == AckedUpTo(log, s);
  }

  // ---------------------------------------------------------------------
  // The invariant
  // ---------------------------------------------------------------------

  ghost predicate NetworkOk(w: World) {
    && (forall g :: g in w.wire ==> FromLog(w.base, w.log, g))
    && (forall a :: a in w.acks ==> a <= w.rcv.rcvNxt && IsPos(w.base, w.log, a))
  }

  /** rcvWnd is the room in the ring, and nothing is stored beyond it. */
  ghost predicate WindowOk(w: World) {
    && Fits(w.rcv, w.read)
    && w.rcvWnd == FreeSpace(w.rcv, w.read)
    && (forall i: nat :: i < |w.rcv.ofo| ==> w.rcv.ofo[i].start < w.rcv.rcvNxt + w.rcvWnd)
  }

  ghost predicate Inv(w: World) {
    && LogOk(w.base, w.log)
    && w.written == Bytes(w.log, |w.log|)
    && SenderOk(w.base, w.log, w.win0, w.snd)
    && ReceiverOk(w.base, w.log, w.rcv)
    && w.snd.sndUna <= w.rcv.rcvNxt
    && WindowOk(w)
    && NetworkOk(w)
  }

  lemma OpenedOk(base: nat, win0: nat, s: Sender)
    requires base > 0 && win0 < U16
    ensures SenderOk(base, [], win0, Opened(s, base - 1, win0))
  {
  }

  lemma AnsweredOpenOk(base: nat, win0: nat, s: Sender, e: Sender)
    requires base > 0 && win0 < U16 && AnsweredOpen(base - 1, win0, s, e)
    ensures SenderOk(base, [], win0, e) && e.sndUna == base
  {
    assert e == Opened(s, base - 1, win0) by {
      if s.state == SynSent {
        HandshakeOpens(base - 1, win0, s);
      } else {
        PassiveHandshakeOpens(base - 1, win0, s);
      }
    }
    OpenedOk(base, win0, s);
  }

  lemma JustOpenedOk(base: nat, win0: nat, e: Sender)
    requires base > 0 && win0 < U16 && JustOpened(base - 1, win0, e)
    ensures SenderOk(base, [], win0, e) && e.sndUna == base
  {
    var s :| AnsweredOpen(base - 1, win0, s, e);
    AnsweredOpenOk(base, win0, s, e);
  }

  lemma InitInv(w: World)
    requires Init(w)
    ensures Inv(w)
  {
    JustOpenedOk(w.base, w.win0, w.snd);
    assert TakenUpTo(w.base, w.log, w.rcv, 0);
  }

  /** Adding a segment to the log keeps what the other parts rely on. */
  lemma LogGrows(w: World, g: Seg)
    requires Inv(w) && !HasFin(w.log) && g.start == w.snd.sndNxt
    requires if g.flag == Fin then g.data == [] else g.flag == Plain && g.data != []
    ensures ReceiverOk(w.base, w.log + [g], w.rcv)
    ensures forall x :: x in w.wire ==> FromLog(w.base, w.log + [g], x)
    ensures forall a :: a in w.acks ==> IsPos(w.base, w.log + [g], a)
    ensures Bytes(w.log + [g], |w.log| + 1) == w.written + g.data
  {
    LogExtends(w.base, w.log, g);
    var n: nat :| TakenUpTo(w.base, w.log, w.rcv, n);
    BytesExtends(w.log, g, n);
    BytesExtends(w.log, g, |w.log|);
    assert TakenUpTo(w.base, w.log + [g], w.rcv, n);
    forall x | x in w.wire || x in w.rcv.ofo ensures FromLog(w.base, w.log + [g], x) {
      if x in w.rcv.ofo {
        var i: nat :| i < |w.rcv.ofo| && w.rcv.ofo[i] == x;
        assert FromLog(w.base, w.log, x);
      }
      FromLogExtends(w.base, w.log, g, x);
    }
    forall a | a in w.acks ensures IsPos(w.base, w.log + [g], a) {
      var k: nat :| k <= |w.log| && a == Pos(w.base, w.log, k);
      assert Pos(w.base, w.log + [g], k) == a;
    }
  }

  /** A new segment g leaves. */
  lemma SendKeepsInv(w: World, g: Seg, w': World)
    requires Inv(w) && !HasFin(w.log) && g.start == w.snd.sndNxt
    requires if g.flag == Fin then g.data == [] else g.flag == Plain && g.data != []
    requires w' == w.(snd := w'.snd, wire := w.wire + {g}, log := w.log + [g], written := w.written + g.data)
    requires LogOk(w.base, w'.log) && SenderOk(w.base, w'.log, w.win0, w'.snd) && w'.snd.sndUna == w.snd.sndUna
    ensures Inv(w')
  {
    LogGrows(w, g);
  }

  lemma WriteKeepsInv(w: World, data: seq<byte>, w': World)
    requires Inv(w) && Step(w, Event.Write(data), w')
    ensures Inv(w')
  {
    WriteKeepsSender(w.base, w.log, w.win0, w.snd, data);
    SendKeepsInv(w, WriteChunk(w.snd, data).1, w');
  }

  lemma CloseStep(w: World, w': World) returns (g: Seg)
    requires Step(w, Close, w')
    ensures g == Seg(w.snd.sndNxt, [], Fin) && SockClose(w.snd) == (w'.snd, [g])
    ensures w' == w.(snd := w'.snd, wire := w.wire + {g}, log := w.log + [g], written := w.written + g.data)
  {
    CloseEffect(w.snd);
    g := Seg(w.snd.sndNxt, [], Fin);
    assert ToSet([g]) == {g} && w.written + [] == w.written;
  }

  lemma CloseKeepsInv(w: World, w': World)
    requires Inv(w) && Step(w, Close, w')
    ensures Inv(w')
  {
    var g := CloseStep(w, w');
    CloseKeepsSender(w.base, w.log, w.win0, w.snd);
    CloseEffect(w.snd);
    SendKeepsInv(w, g, w');
  }

  lemma AckKeepsInv(w: World, ack: nat, rwnd: nat, w': World)
    requires Inv(w) && Step(w, DeliverAck(ack, rwnd), w')
    ensures Inv(w')
  {
    var k: nat :| k <= |w.log| && ack == Pos(w.base, w.log, k);
    AckKeepsSender(w.base, w.log, w.win0, w.snd, k, rwnd);
  }

  lemma ScanKeepsInv(w: World, w': World)
    requires Inv(w) && Step(w, TimerScan, w')
    ensures Inv(w')
  {
    ScanKeepsSender(w.base, w.log, w.win0, w.snd);
  }

  lemma SegKeepsInv(w: World, g: Seg, readTo: nat, w': World)
    requires Inv(w) && Step(w, DeliverSeg(g, readTo), w')
    ensures Inv(w')
  {
    ProcessKeepsReceiver(w.base, w.log, w.rcv, w.rcvWnd, g);
    SegKeepsWindow(w, g, w');
    var n: nat :| TakenUpTo(w.base, w.log, w'.rcv, n);
    assert IsPos(w.base, w.log, w'.rcv.rcvNxt);
  }

  /** The first number beyond the advertised window. */
  function RightEdge(w: World): nat {
    w.rcv.rcvNxt + w.rcvWnd
  }

  /** An arriving segment never moves the right edge back, and nothing is stored
      beyond it. */
  lemma SegKeepsWindow(w: World, g: Seg, w': World)
    requires Inv(w) && FromLog(w.base, w.log, g)
    requires w'.rcv == Process(w.rcv, w.rcvWnd, g) && w.read <= w'.read && Fits(w'.rcv, w'.read)
    requires ReceiverOk(w.base, w.log, w'.rcv) && w'.rcv.rcvNxt >= w.rcv.rcvNxt
    requires if Taken(w.rcv, w.rcvWnd, g) then w'.rcvWnd == FreeSpace(w'.rcv, w'.read)
             else w'.rcvWnd == w.rcvWnd && w'.read == w.read
    ensures WindowOk(w') && RightEdge(w) <= RightEdge(w')
  {
    StreamLength(w.base, w.log, w.rcv);
    StreamLength(w.base, w.log, w'.rcv);
    EofStays(w.base, w.log, w.rcv, w'.rcv);
    ProcessStoresOnly(w.rcv, w.rcvWnd, g);
    forall i: nat | i < |w'.rcv.ofo| ensures w'.rcv.ofo[i].start < w'.rcv.rcvNxt + w'.rcvWnd {
      var x := w'.rcv.ofo[i];
      assert x in w'.rcv.ofo && x.start > w'.rcv.rcvNxt;
      if x in w.rcv.ofo {
        var j: nat :| j < |w.rcv.ofo| && w.rcv.ofo[j] == x;
      }
    }
  }

  lemma StepKeepsInv(w: World, ev: Event, w': World)
    requires Inv(w) && Step(w, ev, w')
    ensures Inv(w')
  {
    match ev
    case Write(data) => WriteKeepsInv(w, data, w');
    case Close => CloseKeepsInv(w, w');
    case SendAck => assert IsPos(w.base, w.log, w.snd.sndNxt);
    case TimerScan => ScanKeepsInv(w, w');
    case DeliverAck(ack, rwnd) => AckKeepsInv(w, ack, rwnd, w');
    case DeliverSeg(g, readTo) => SegKeepsInv(w, g, readTo, w');
    case Read(len) =>
    case EmitAck =>
      var n: nat :| TakenUpTo(w.base, w.log, w.rcv, n);
      assert IsPos(w.base, w.log, w.rcv.rcvNxt);
    case PeerFin =>
    case Lose(segs, goneAcks) =>
  }

  lemma {:induction false} StepsInv(tr: seq<World>, evs: seq<Event>, k: nat)
    requires Steps(tr, evs) && Inv(tr[0]) && k <= |evs|
    ensures Inv(tr[k])
  {
    if k > 0 {
      StepsInv(tr, evs, k - 1);
      StepKeepsInv(tr[k - 1], evs[k - 1], tr[k]);
    }
  }

  lemma RunInv(tr: seq<World>, evs: seq<Event>, k: nat)
    requires Run(tr, evs) && k <= |evs|
    ensures Inv(tr[k])
  {
    InitInv(tr[0]);
    StepsInv(tr, evs, k);
  }

  lemma ReachableInv(w: World)
    requires Reachable(w)
    ensures Inv(w)
  {
    var tr: seq<World>, evs: seq<Event> :| Run(tr, evs) && tr[|evs|] == w;
    RunInv(tr, evs, |evs|);
  }
}
