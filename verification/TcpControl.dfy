/** Congestion control and the retransmission timer over runs of a sender. */
module TcpControl {
  import opened Common
  import opened TcpSegments
  import opened TcpSender

  // ---------------------------------------------------------------------
  // The three congestion modes
  // ---------------------------------------------------------------------

  predicate Open(s: Sender) {
    s.recoveryPoint == 0 && s.frpacks == -1
  }

  /** Fast retransmit happened at window w; w - frpacks acks came since. */
  predicate ReducingFrom(s: Sender, w: nat) {
    && s.recoveryPoint == 0 && 1 <= s.frpacks <= w
    && s.ssthresh == w / 2
    && s.cwnd == w - w / 2 + s.frpacks / 2
  }

  /** ssthresh fixes the window the reduction started from up to its parity. */
  predicate Reducing(s: Sender) {
    ReducingFrom(s, 2 * s.ssthresh) || ReducingFrom(s, 2 * s.ssthresh + 1)
  }

  predicate Recovering(s: Sender) {
    s.recoveryPoint > 0 && s.frpacks == -1
  }

  /** duack is the last ack in a row, or nothing; three repetitions at most are pending. */
  predicate CongestionOk(s: Sender) {
    && 1 <= s.cwnd
    && (Open(s) || Reducing(s) || Recovering(s))
    && (s.duack == 0 || s.duack == s.sndUna)
    && s.dupacks < DUPACK_LIMIT
    && s.recoveryPoint <= s.sndNxt
    && (!Open(s) ==> s.duack == 0)
  }

  /** The states in which the application may still write. */
  predicate CanWrite(s: Sender) {
    s.state == Established || s.state == CloseWait
  }

  predicate Connected(s: Sender) {
    CanWrite(s) || s.state == FinWait || s.state == LastAck
  }

  lemma ReducingWindow(s: Sender, w: nat)
    requires ReducingFrom(s, w)
    ensures Reducing(s)
  {
  }

  lemma HalfStep(f: nat)
    ensures (f + 1) / 2 == f / 2 + f % 2
  {
  }

  /** One ack in the window moves the reduction on by one, and ends it at half
      of the window it started from, rounded up. */
  lemma ReduceStep(s: Sender, w: nat)
    requires ReducingFrom(s, w) && s.sndNxt > 0
    ensures var s' := ReduceWindow(s);
      if s.frpacks > 1 then ReducingFrom(s', w) && s'.frpacks == s.frpacks - 1
      else Recovering(s') && s'.recoveryPoint == s.sndNxt && s'.cwnd == w - w / 2 && s'.ssthresh == w / 2
    ensures var s' := ReduceWindow(s);
      s' == s.(cwnd := s'.cwnd, frpacks := s'.frpacks, recoveryPoint := s'.recoveryPoint)
  {
    HalfStep(s.frpacks - 1);
  }

  lemma GrowthKeeps(s: Sender, ack: nat)
    requires Open(s) && 1 <= s.cwnd && s.dupacks < DUPACK_LIMIT && s.sndUna == ack
    ensures CongestionOk(Adjust(s, ack).0)
  {
    var r := Adjust(s, ack).0;
    if !Open(r) {
      assert ReducingFrom(r, r.cwnd);
      ReducingWindow(r, r.cwnd);
    }
  }

  lemma ReductionKeeps(s: Sender)
    requires Reducing(s) && s.duack == 0 && s.dupacks < DUPACK_LIMIT && s.sndNxt > 0
    ensures CongestionOk(ReduceWindow(s))
  {
    var w := if ReducingFrom(s, 2 * s.ssthresh) then 2 * s.ssthresh else 2 * s.ssthresh + 1;
    ReduceStep(s, w);
    if s.frpacks > 1 {
      ReducingWindow(ReduceWindow(s), w);
    }
  }

  lemma AdjustKeeps(s: Sender, ack: nat)
    requires CongestionOk(s.(duack := 0)) && (!Open(s) ==> s.duack == 0) && s.sndUna == ack && s.sndNxt > 0
    ensures CongestionOk(Adjust(s, ack).0)
  {
    if Reducing(s) {
      ReductionKeeps(s);
    } else if Open(s) {
      GrowthKeeps(s, ack);
    }
  }

  lemma BufferKeepsCongestion(s: Sender, s': Sender)
    requires CongestionOk(s)
    requires s'.sndUna == s.sndUna && s'.cwnd == s.cwnd && s'.ssthresh == s.ssthresh && s'.frpacks == s.frpacks
    requires s'.duack == s.duack && s'.dupacks == s.dupacks
    requires s'.sndNxt >= s.sndNxt && (s'.recoveryPoint == s.recoveryPoint || s'.recoveryPoint == 0)
    ensures CongestionOk(s')
  {
  }

  lemma UpdateAdjusts(s: Sender, ack: nat, rwnd: nat) returns (advWnd: nat)
    requires Connected(s)
    ensures UpdateWindow(s, ack, rwnd).0 == Refresh(Adjust(s.(sndUna := ack), ack).0.(advWnd := advWnd))
  {
    advWnd := (s.advWnd + (ack - s.sndUna)) % U16;
  }

  lemma UpdateKeepsCongestion(s: Sender, ack: nat, rwnd: nat)
    requires Connected(s) && CongestionOk(s) && AckInWindow(s, ack) && ack > 0
    ensures CongestionOk(UpdateWindow(s, ack, rwnd).0)
  {
    AdjustKeeps(s.(sndUna := ack), ack);
    var advWnd := UpdateAdjusts(s, ack, rwnd);
    BufferKeepsCongestion(Adjust(s.(sndUna := ack), ack).0, UpdateWindow(s, ack, rwnd).0);
  }

  /** Pruning touches the mode only by ending a recovery. */
  lemma AckBufferEffect(s: Sender, ack: nat)
    ensures var r := AckSendBuf(s, ack);
      && r.0.state == s.state && r.0.sndUna == s.sndUna && r.0.sndNxt == s.sndNxt && r.0.cwnd == s.cwnd
      && r.0.ssthresh == s.ssthresh && r.0.capacks == s.capacks && r.0.frpacks == s.frpacks
      && r.0.duack == s.duack && r.0.dupacks == s.dupacks
      && r.0.sendBuf == Prune(s.sendBuf, ack)
      && (r.0.recoveryPoint == s.recoveryPoint || r.0.recoveryPoint == 0)
      && (s.recoveryPoint == 0 ==> r.1 == [])
  {
  }

  /** Every ack processed by a connected sender keeps the modes. */
  lemma AckKeepsCongestion(s: Sender, ack: nat, rwnd: nat)
    requires Connected(s) && CongestionOk(s) && ack > 0
    ensures CongestionOk(ProcessAck(s, ack, rwnd).0)
  {
    var s1 := UpdateWindowSafe(s, ack, rwnd).0;
    if AckInWindow(s, ack) {
      UpdateKeepsCongestion(s, ack, rwnd);
    }
    AckBufferEffect(s1, ack);
    BufferKeepsCongestion(s1, AckSendBuf(s1, ack).0);
  }

  lemma ScanKeepsCongestion(s: Sender)
    requires CongestionOk(s)
    ensures CongestionOk(Scan(s).0)
  {
  }

  // ---------------------------------------------------------------------
  // A whole reduction phase
  // ---------------------------------------------------------------------

  /** What may happen to a sender between two timeouts. */
  datatype Input = Ack(ack: nat, rwnd: nat) | Write(data: seq<byte>) | Shut

  function Apply(s: Sender, i: Input): Sender {
    match i
    case Ack(ack, rwnd) => ProcessAck(s, ack, rwnd).0
    case Write(data) => WriteChunk(s, data).0
    case Shut => SockClose(s).0
  }

  function ApplyAll(s: Sender, ins: seq<Input>): Sender
    decreases |ins|
  {
    if ins == [] then s else ApplyAll(Apply(s, ins[0]), ins[1..])
  }

  /** The number of acks that fall into the window when they arrive. */
  function WindowAcks(s: Sender, ins: seq<Input>): nat
    decreases |ins|
  {
    if ins == [] then 0
    else (if ins[0].Ack? && s.sndUna <= ins[0].ack <= s.sndNxt then 1 else 0) + WindowAcks(Apply(s, ins[0]), ins[1..])
  }

  lemma ApplyReducing(s: Sender, w: nat, i: Input)
    requires Connected(s) && ReducingFrom(s, w) && s.sndNxt > 0
    requires s.frpacks > 1 || !(i.Ack? && AckInWindow(s, i.ack))
    ensures var s' := Apply(s, i);
      && Connected(s') && s'.sndNxt > 0 && ReducingFrom(s', w)
      && s'.frpacks == s.frpacks - WindowAcks(s, [i])
  {
    if i.Ack? && AckInWindow(s, i.ack) {
      ReduceStep(s.(advWnd := (s.advWnd + (i.ack - s.sndUna)) % U16, sndUna := i.ack), w);
    }
  }

  /** The phase goes on through any writes and stale acks, counting exactly the
      acks in the window. */
  lemma {:induction false} ReducingRun(s: Sender, w: nat, ins: seq<Input>)
    requires Connected(s) && ReducingFrom(s, w) && s.sndNxt > 0 && WindowAcks(s, ins) < s.frpacks
    ensures var s' := ApplyAll(s, ins);
      && Connected(s') && s'.sndNxt > 0 && ReducingFrom(s', w)
      && s'.frpacks == s.frpacks - WindowAcks(s, ins)
    decreases |ins|
  {
    if ins != [] {
      ApplyReducing(s, w, ins[0]);
      assert WindowAcks(s, [ins[0]]) == if ins[0].Ack? && AckInWindow(s, ins[0].ack) then 1 else 0;
      ReducingRun(Apply(s, ins[0]), w, ins[1..]);
    }
  }

  /** A fast retransmit at window w is followed by exactly w acks in the window
      before the phase ends, with the window at w / 2 rounded up. */
  lemma ReductionTakesWindowAcks(s: Sender, w: nat, ins: seq<Input>, ack: nat, rwnd: nat)
    requires Connected(s) && ReducingFrom(s, w) && s.frpacks == w && s.cwnd == w && s.sndNxt > 0
    requires WindowAcks(s, ins) == w - 1 && AckInWindow(ApplyAll(s, ins), ack)
    ensures var e := UpdateWindow(ApplyAll(s, ins), ack, rwnd).0;
      && Recovering(e) && e.recoveryPoint == e.sndNxt
      && e.cwnd == (w + 1) / 2 && e.ssthresh == w / 2
  {
    ReducingRun(s, w, ins);
    var m := ApplyAll(s, ins);
    ReduceStep(m.(advWnd := (m.advWnd + (ack - m.sndUna)) % U16, sndUna := ack), w);
  }

  // ---------------------------------------------------------------------
  // Fast retransmit
  // ---------------------------------------------------------------------

  predicate SameGrowth(a: Sender, b: Sender) {
    a.cwnd == b.cwnd && a.capacks == b.capacks && a.ssthresh == b.ssthresh
  }

  /** What updating the window does in open mode: it grows, whatever the number,
      and a reduction starts from the grown window. */
  lemma OpenUpdate(s: Sender, ack: nat, rwnd: nat)
    requires Connected(s) && Open(s) && s.cwnd >= 1
    ensures var r := UpdateWindow(s, ack, rwnd);
      && r.0.state == s.state && r.0.sndUna == ack && r.0.sndNxt == s.sndNxt && r.0.sendBuf == s.sendBuf
      && r.0.cwnd == GrowWindow(s).cwnd >= 1 && r.0.capacks == GrowWindow(s).capacks
      && r.0.recoveryPoint == 0 && r.0.tempCwnd == s.tempCwnd && r.0.timer == s.timer
      && if ack == s.duack && s.dupacks + 1 >= DUPACK_LIMIT
         then
           && r.1 == Head(s.sendBuf) && r.0.duack == 0 && r.0.dupacks == 0
           && r.0.frpacks == r.0.cwnd && r.0.ssthresh == r.0.cwnd / 2
         else
           && r.1 == [] && Open(r.0) && r.0.duack == ack && r.0.dupacks == (if ack == s.duack then s.dupacks + 1 else 1)
           && SameGrowth(r.0, GrowWindow(s))
  {
  }

  /** One more equal ack in open mode, when fewer than three were counted. */
  lemma OneMoreDuplicate(s: Sender, ack: nat, rwnd: nat)
    requires Connected(s) && Open(s) && CongestionOk(s) && AckInWindow(s, ack) && ack > 0
    requires ack != s.duack || s.dupacks + 1 < DUPACK_LIMIT
    ensures var r := ProcessAck(s, ack, rwnd);
      && r.1 == []
      && Connected(r.0) && Open(r.0) && CongestionOk(r.0) && AckInWindow(r.0, ack) && SameGrowth(r.0, GrowWindow(s))
      && r.0.duack == ack && r.0.dupacks == (if ack == s.duack then s.dupacks + 1 else 1)
      && r.0.sendBuf == Prune(s.sendBuf, ack)
  {
    OpenUpdate(s, ack, rwnd);
    AckBufferEffect(UpdateWindow(s, ack, rwnd).0, ack);
    AckKeepsCongestion(s, ack, rwnd);
  }

  /** The window after one more ack in open mode. */
  function Grown(s: Sender): nat {
    if s.cwnd < s.ssthresh || s.capacks + 1 >= s.cwnd then s.cwnd + 1 else s.cwnd
  }

  /** The fourth equal ack resends the first segment and starts a reduction from
      the window it has grown to, which does not forget the acks counted for the
      next growth unless they completed it. */
  lemma FourthAck(s: Sender, ack: nat, rwnd: nat)
    requires Connected(s) && Open(s) && CongestionOk(s) && AckInWindow(s, ack) && ack > 0
    requires ack == s.duack && s.dupacks == DUPACK_LIMIT - 1
    ensures var r := ProcessAck(s, ack, rwnd);
      && r.1 == Head(s.sendBuf) && ReducingFrom(r.0, Grown(s))
      && r.0.cwnd == r.0.frpacks == Grown(s) && r.0.ssthresh == Grown(s) / 2
      && r.0.duack == 0 && r.0.dupacks == 0
      && r.0.capacks ==
           (if s.cwnd < s.ssthresh then s.capacks else if s.capacks + 1 >= s.cwnd then 0 else s.capacks + 1)
  {
    OpenUpdate(s, ack, rwnd);
    AckBufferEffect(UpdateWindow(s, ack, rwnd).0, ack);
    assert Head(s.sendBuf) + [] == Head(s.sendBuf);
  }

  // ---------------------------------------------------------------------
  // Slow start and congestion avoidance
  // ---------------------------------------------------------------------

  function Grow(s: Sender, n: nat): Sender {
    if n == 0 then s else GrowWindow(Grow(s, n - 1))
  }

  /** Below ssthresh every ack adds one. */
  lemma {:induction false} SlowStart(s: Sender, n: nat)
    requires s.cwnd + n <= s.ssthresh
    ensures Grow(s, n) == s.(cwnd := s.cwnd + n)
  {
    if n > 0 {
      SlowStart(s, n - 1);
    }
  }

  /** At or above ssthresh the acks counted already and n more add one as soon as
      they are as many as the window is wide, and with the next ack if they are
      more, as they may be after a reduction. */
  lemma {:induction false} CongestionAvoidance(s: Sender, n: nat)
    requires s.ssthresh <= s.cwnd && n <= Max(s.cwnd - s.capacks, 1)
    ensures Grow(s, n) ==
      if n < Max(s.cwnd - s.capacks, 1) then s.(capacks := s.capacks + n) else s.(cwnd := s.cwnd + 1, capacks := 0)
  {
    if n > 0 {
      CongestionAvoidance(s, n - 1);
    }
  }

  lemma NewAckGrows(s: Sender, ack: nat, rwnd: nat)
    requires Connected(s) && Open(s) && CongestionOk(s) && s.sndUna < ack <= s.sndNxt
    ensures var e := ProcessAck(s, ack, rwnd).0;
      && Connected(e) && Open(e) && CongestionOk(e) && SameGrowth(e, GrowWindow(s))
      && e.sndUna == ack && e.sndNxt == s.sndNxt
  {
    OpenUpdate(s, ack, rwnd);
    AckBufferEffect(UpdateWindow(s, ack, rwnd).0, ack);
    AckKeepsCongestion(s, ack, rwnd);
  }

  /** No ack repeats the number acknowledged last. */
  predicate NoRepeats(s: Sender, ins: seq<Input>)
    decreases |ins|
  {
    ins == [] || ((ins[0].Ack? ==> 0 < ins[0].ack != s.sndUna) && NoRepeats(Apply(s, ins[0]), ins[1..]))
  }

  lemma ApplyOpen(s: Sender, i: Input)
    requires Connected(s) && Open(s) && CongestionOk(s) && (i.Ack? ==> 0 < i.ack != s.sndUna)
    ensures var s' := Apply(s, i);
      && Connected(s') && Open(s') && CongestionOk(s')
      && SameGrowth(s', if i.Ack? && AckInWindow(s, i.ack) then GrowWindow(s) else s)
  {
    if i.Ack? {
      if AckInWindow(s, i.ack) {
        NewAckGrows(s, i.ack, i.rwnd);
      } else {
        AckBufferEffect(s, i.ack);
        AckKeepsCongestion(s, i.ack, i.rwnd);
      }
    }
  }

  lemma {:induction false} GrowFrom(a: Sender, b: Sender, m: nat, n: nat)
    requires SameGrowth(a, Grow(b, m))
    ensures SameGrowth(Grow(a, n), Grow(b, m + n))
  {
    if n > 0 {
      GrowFrom(a, b, m, n - 1);
    }
  }

  /** In open mode, through any writes, the window grows by exactly the acks that
      advance it. */
  lemma {:induction false} OpenRun(s: Sender, ins: seq<Input>)
    requires Connected(s) && Open(s) && CongestionOk(s) && NoRepeats(s, ins)
    ensures Open(ApplyAll(s, ins)) && SameGrowth(ApplyAll(s, ins), Grow(s, WindowAcks(s, ins)))
    decreases |ins|
  {
    if ins != [] {
      var s1, rest := Apply(s, ins[0]), ins[1..];
      var m: nat := if ins[0].Ack? && AckInWindow(s, ins[0].ack) then 1 else 0;
      ApplyOpen(s, ins[0]);
      OpenRun(s1, rest);
      assert Grow(s, 1) == GrowWindow(Grow(s, 0));
      GrowFrom(s1, s, m, WindowAcks(s1, rest));
    }
  }

  /** A timeout resends the first segment and starts over at one segment; it
      takes one advancing ack less than half of the old window, but two at least,
      to be back at that half. */
  lemma TimeoutThenSlowStart(s: Sender, ins: seq<Input>)
    requires Connected(s) && CongestionOk(s) && s.timer.armed && s.sendBuf != []
    requires s.timer.timeout <= SCAN_INTERVAL && s.timer.kind < LAST_TIMER_TYPE
    requires NoRepeats(Scan(s).0, ins) && WindowAcks(Scan(s).0, ins) == Max(s.cwnd / 2, 2) - 1
    ensures Scan(s).1 == [s.sendBuf[0]] && Scan(s).0.cwnd == 1
    ensures ApplyAll(Scan(s).0, ins).cwnd == Max(s.cwnd / 2, 2) == ApplyAll(Scan(s).0, ins).ssthresh
  {
    var s1 := Scan(s).0;
    TimeoutOpens(s);
    OpenRun(s1, ins);
    SlowStart(s1, WindowAcks(s1, ins));
  }

  lemma TimeoutOpens(s: Sender)
    requires Connected(s) && CongestionOk(s) && s.timer.armed && s.sendBuf != []
    requires s.timer.timeout <= SCAN_INTERVAL && s.timer.kind < LAST_TIMER_TYPE
    ensures var r := Scan(s);
      && r.1 == [s.sendBuf[0]] && Connected(r.0) && Open(r.0) && CongestionOk(r.0)
      && r.0.cwnd == 1 && r.0.ssthresh == Max(s.cwnd / 2, 2)
      && r.0.capacks == 0 && r.0.duack == 0 && r.0.dupacks == 0 && r.0.tempCwnd == 0
      && r.0.sndUna == s.sndUna && r.0.sndNxt == s.sndNxt && r.0.advWnd == s.advWnd
      && r.0.sndWnd == UsableWindow(s.advWnd, 1)
  {
  }

  // ---------------------------------------------------------------------
  // The retransmission timer
  // ---------------------------------------------------------------------

  datatype Alarm = Quiet | Resend | GiveUp

  /** What a scan does to the timer while something is unacknowledged. */
  function Tick(t: Timer): (Timer, Alarm) {
    if !t.armed then (t, Quiet)
    else if t.timeout > SCAN_INTERVAL then (t.(timeout := t.timeout - SCAN_INTERVAL), Quiet)
    else if t.kind < LAST_TIMER_TYPE then (Timer(true, t.kind + 1, RETRANS_INITIAL * Pow2(t.kind)), Resend)
    else (t.(armed := false, timeout := t.timeout - SCAN_INTERVAL), GiveUp)
  }

  lemma ScanFollowsTimer(s: Sender)
    requires s.sendBuf != [] && (Connected(s) <==> s.timer.armed)
    ensures var r := Scan(s); var a := Tick(s.timer);
      && r.0.timer == a.0 && r.0.sendBuf == s.sendBuf && (Connected(r.0) <==> a.0.armed)
      && r.1 == (if a.1 == Resend then [s.sendBuf[0]] else [])
      && (a.1 == GiveUp ==> r.0.state == Closed) && (a.1 != GiveUp ==> r.0.state == s.state)
  {
  }

  /** A scan closes the sock exactly when an armed timer runs out and the last
      period is over or nothing is left to resend; it touches an idle timer's sock
      in no way. */
  lemma ScanCloses(s: Sender)
    ensures var r := Scan(s);
      && (r.0.state != s.state ==> r.0.state == Closed)
      && (s.state != Closed ==>
          (r.0.state == Closed <==>
             s.timer.armed && s.timer.timeout <= SCAN_INTERVAL && (s.timer.kind >= LAST_TIMER_TYPE || s.sendBuf == [])))
      && (r.0.state != s.state ==> r.1 == [] && !r.0.timer.armed)
      && (!s.timer.armed ==> r == (s, []))
  {
  }

  /** n scans in a row, with no ack in between. */
  function Scans(s: Sender, n: nat): Sender {
    if n == 0 then s else Scan(Scans(s, n - 1)).0
  }

  function Ticks(t: Timer, n: nat): Timer {
    if n == 0 then t else Tick(Ticks(t, n - 1)).0
  }

  function Resends(t: Timer, n: nat): nat {
    if n == 0 then 0 else Resends(t, n - 1) + if Tick(Ticks(t, n - 1)).1 == Resend then 1 else 0
  }

  function Copies(g: Seg, n: nat): seq<Seg> {
    if n == 0 then [] else Copies(g, n - 1) + [g]
  }

  lemma {:induction false} TicksAdd(t: Timer, m: nat, n: nat)
    ensures Ticks(t, m + n) == Ticks(Ticks(t, m), n)
    ensures Resends(t, m + n) == Resends(t, m) + Resends(Ticks(t, m), n)
  {
    if n > 0 {
      TicksAdd(t, m, n - 1);
    }
  }

  /** The scans a timer of type k runs for: 20 of them, doubled k - 1 times. */
  function Period(k: nat): (p: nat)
    requires k > 0
    ensures p > 0 && p * SCAN_INTERVAL == RETRANS_INITIAL * Pow2(k - 1)
  {
    20 * Pow2(k - 1)
  }

  /** Scans from the start of type k until the connection is given up. */
  function Remaining(k: nat): nat
    requires 1 <= k <= LAST_TIMER_TYPE + 1
    decreases LAST_TIMER_TYPE + 1 - k
  {
    if k > LAST_TIMER_TYPE then 0 else Period(k) + Remaining(k + 1)
  }

  lemma {:induction false} RemainingClosed(k: nat)
    requires 1 <= k <= LAST_TIMER_TYPE + 1
    ensures Remaining(k) == 20 * (Pow2(LAST_TIMER_TYPE) - Pow2(k - 1))
    decreases LAST_TIMER_TYPE + 1 - k
  {
    if k <= LAST_TIMER_TYPE {
      RemainingClosed(k + 1);
    }
  }

  function Start(k: nat): Timer
    requires k > 0
  {
    Timer(true, k, Period(k) * SCAN_INTERVAL)
  }

  /** While a period lasts nothing but the timeout moves. */
  lemma {:induction false} WithinPeriod(k: nat, n: nat)
    requires 1 <= k <= LAST_TIMER_TYPE && n < Period(k)
    ensures Ticks(Start(k), n) == Timer(true, k, (Period(k) - n) * SCAN_INTERVAL) && Resends(Start(k), n) == 0
  {
    if n > 0 {
      WithinPeriod(k, n - 1);
    }
  }

  /** The last scan of a period resends and doubles the timeout, or gives up. */
  lemma PeriodEnds(k: nat)
    requires 1 <= k <= LAST_TIMER_TYPE
    ensures var e := Ticks(Start(k), Period(k));
      if k < LAST_TIMER_TYPE then e == Start(k + 1) && Resends(Start(k), Period(k)) == 1
      else !e.armed && Resends(Start(k), Period(k)) == 0
  {
    WithinPeriod(k, Period(k) - 1);
  }

  lemma PeriodThenNext(k: nat, n: nat)
    requires 1 <= k < LAST_TIMER_TYPE
    ensures Ticks(Start(k), Period(k) + n) == Ticks(Start(k + 1), n)
    ensures Resends(Start(k), Period(k) + n) == 1 + Resends(Start(k + 1), n)
  {
    PeriodEnds(k);
    TicksAdd(Start(k), Period(k), n);
  }

  /** From the start of type k the timer is armed for exactly Remaining(k) scans
      and resends once for every period but the last. */
  lemma {:induction false} BackOffRun(k: nat, n: nat)
    requires 1 <= k <= LAST_TIMER_TYPE && n <= Remaining(k)
    ensures Ticks(Start(k), n).armed <==> n < Remaining(k)
    ensures n == Remaining(k) ==> Resends(Start(k), n) == LAST_TIMER_TYPE - k
    decreases LAST_TIMER_TYPE - k
  {
    if n < Period(k) {
      WithinPeriod(k, n);
    } else if k < LAST_TIMER_TYPE {
      BackOffRun(k + 1, n - Period(k));
      PeriodThenNext(k, n - Period(k));
    } else {
      PeriodEnds(k);
    }
  }

  /** A freshly armed timer: 10220 scans, 8 of which resend. */
  lemma FreshTimerLasts(n: nat)
    requires n <= 10220
    ensures Ticks(Start(1), n).armed <==> n < 10220
    ensures n == 10220 ==> Resends(Start(1), n) == 8
  {
    assert Pow2(0) == 1 && Pow2(3) == 8 && Pow2(6) == 64 && Pow2(9) == 512;
    RemainingClosed(1);
    BackOffRun(1, n);
  }
}
