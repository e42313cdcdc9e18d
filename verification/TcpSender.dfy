/** The sending side of a connection: windows, congestion control, the buffer of
    unacknowledged segments and the retransmission timer (lab12/12-tcp_stack:
    tcp_in.c, tcp_out.c, tcp_sock.c, tcp_timer.c).

  The functions describe each operation on the value of a sender; class
  TcpSender is the in-place form, proved against them.
*/
module TcpSender {
  import opened Common
  import opened TcpSegments

  const U32MAX: nat := 4294967295
  const SCAN_INTERVAL: nat := 10000
  const RETRANS_INITIAL: nat := 200000
  const DUPACK_LIMIT: nat := 4
  const LAST_TIMER_TYPE: nat := 9

  /** FinWait is TCP_FIN_WAIT_1, and stands for the states that follow it. */
  datatype SockState = SynSent | SynRecv | Established | CloseWait | FinWait | LastAck | Closed

  /** armed: enabled and in the timer list. kind is the source's type field. */
  datatype Timer = Timer(armed: bool, kind: nat, timeout: int)

  datatype Sender = Sender(
    state: SockState, sndUna: nat, sndNxt: nat, advWnd: nat, sndWnd: nat, sendBuf: seq<Seg>,
    cwnd: nat, ssthresh: nat, recoveryPoint: nat, duack: nat, dupacks: nat,
    tempCwnd: nat, capacks: nat, frpacks: int, timer: Timer)

  /** A new sock with initial sequence number iss, before anything is sent. */
  function Fresh(iss: nat, state: SockState): Sender {
    Sender(state, iss, iss, 0, 0, [], 1, U32MAX, 0, 0, 0, 0, 0, -1, Timer(false, 0, 0))
  }

  function SetTimer(t: Timer, mode: nat): Timer {
    if !t.armed || mode == 0 then Timer(true, 1, RETRANS_INITIAL) else t
  }

  function UsableWindow(advWnd: nat, cwnd: nat): nat {
    Min(advWnd / TCP_MSS, cwnd)
  }

  function Head(buf: seq<Seg>): seq<Seg> {
    if buf == [] then [] else [buf[0]]
  }

  /** cwnd is unsigned: decrementing 0 wraps. */
  function Decrement(cwnd: nat): (r: nat)
    ensures cwnd <= U32MAX ==> r == (cwnd - 1) % 0x1_0000_0000
  {
    if cwnd == 0 then U32MAX else cwnd - 1
  }

  /** Slow start below ssthresh, otherwise one step per window of acks. */
  function GrowWindow(s: Sender): Sender {
    if s.cwnd < s.ssthresh then s.(cwnd := s.cwnd + 1)
    else if s.capacks + 1 >= s.cwnd then s.(cwnd := s.cwnd + 1, capacks := 0)
    else s.(capacks := s.capacks + 1)
  }

  /** The fourth ack in a row with the same number triggers a fast retransmit. */
  function CountDuplicate(s: Sender, ack: nat): (Sender, seq<Seg>) {
    if ack != s.duack then (s.(duack := ack, dupacks := 1), [])
    else if s.dupacks + 1 >= DUPACK_LIMIT then
      (s.(ssthresh := s.cwnd / 2, duack := 0, dupacks := 0, frpacks := s.cwnd), Head(s.sendBuf))
    else (s.(dupacks := s.dupacks + 1), [])
  }

  function ReduceWindow(s: Sender): Sender {
    var f := s.frpacks - 1;
    var c := if f % 2 != 0 then Decrement(s.cwnd) else s.cwnd;
    if f == 0 then s.(frpacks := -1, cwnd := c, recoveryPoint := s.sndNxt)
    else s.(frpacks := f, cwnd := c)
  }

  function Refresh(s: Sender): Sender {
    s.(sndWnd := UsableWindow(s.advWnd, s.cwnd))
  }

  /** What the ack means to the congestion window: growth, reduction or nothing. */
  function Adjust(s: Sender, ack: nat): (Sender, seq<Seg>) {
    if s.recoveryPoint == 0 && s.frpacks == -1 then CountDuplicate(GrowWindow(s), ack)
    else if s.recoveryPoint == 0 then (ReduceWindow(s), [])
    else (s, [])
  }

  /** tcp_update_window: the new sender and the segments it resends. */
  function UpdateWindow(s: Sender, ack: nat, rwnd: nat): (Sender, seq<Seg>) {
    if s.state.SynRecv? || s.state.SynSent? then
      (Refresh(s.(sndUna := ack, advWnd := rwnd % U16, cwnd := s.cwnd + 1)), [])
    else
      var r := Adjust(s.(advWnd := (s.advWnd + (ack - s.sndUna)) % U16, sndUna := ack), ack);
      (Refresh(r.0), r.1)
  }

  predicate AckInWindow(s: Sender, ack: nat) {
    s.sndUna <= ack <= s.sndNxt
  }

  function UpdateWindowSafe(s: Sender, ack: nat, rwnd: nat): (Sender, seq<Seg>) {
    if AckInWindow(s, ack) then UpdateWindow(s, ack, rwnd) else (s, [])
  }

  /** The segments that an ack leaves unacknowledged. */
  function Prune(buf: seq<Seg>, ack: nat): seq<Seg> {
    if buf == [] then []
    else (if ack >= buf[0].SeqEnd() then [] else [buf[0]]) + Prune(buf[1..], ack)
  }

  function Recover(s: Sender, ack: nat, changed: bool): (Sender, seq<Seg>) {
    if s.recoveryPoint == 0 then (s, [])
    else if !changed then (Refresh(s.(tempCwnd := s.tempCwnd + 1)), [])
    else if ack < s.recoveryPoint then (s, Head(s.sendBuf))
    else (Refresh(s.(recoveryPoint := 0, tempCwnd := 0)), [])
  }

  /** tcp_ack_send_buf. */
  function AckSendBuf(s: Sender, ack: nat): (Sender, seq<Seg>) {
    var buf := Prune(s.sendBuf, ack);
    var changed := |buf| < |s.sendBuf|;
    var r := Recover(s.(sendBuf := buf), ack, changed);
    var timer :=
      if buf == [] then s.timer.(armed := false) else if changed then SetTimer(s.timer, 0) else s.timer;
    (r.0.(timer := timer), r.1)
  }

  /** What a connected sock does with the acknowledgment of a packet. */
  function ProcessAck(s: Sender, ack: nat, rwnd: nat): (Sender, seq<Seg>) {
    var a := UpdateWindowSafe(s, ack, rwnd);
    var b := AckSendBuf(a.0, ack);
    (b.0, a.1 + b.1)
  }

  function SendPacket(s: Sender, data: seq<byte>): (Sender, Seg) {
    var g := Seg(s.sndNxt, data, Plain);
    (s.(sndNxt := g.SeqEnd(), sendBuf := s.sendBuf + [g]), g)
  }

  function SendControl(s: Sender, flag: Flag): (Sender, Seg) {
    var g := Seg(s.sndNxt, [], flag);
    (if flag.Plain? then s else s.(sndNxt := g.SeqEnd(), sendBuf := s.sendBuf + [g]), g)
  }

  /** One round of the loop in tcp_sock_write, once the window is open. */
  function WriteChunk(s: Sender, data: seq<byte>): (Sender, Seg) {
    var r := SendPacket(Refresh(s.(advWnd := (s.advWnd - |data|) % U16)), data);
    (r.0.(timer := SetTimer(r.0.timer, 1)), r.1)
  }

  /** tcp_sock_write until the window closes: the new sender, what it sent, and
      how many bytes it took. */
  function WriteSome(s: Sender, data: seq<byte>): (r: (Sender, seq<Seg>, nat))
    ensures r.2 <= |data|
    decreases |data|
  {
    if data == [] || s.sndWnd == 0 then (s, [], 0)
    else
      var n := Min(|data|, TCP_MSS);
      var c := WriteChunk(s, data[..n]);
      var rest := WriteSome(c.0, data[n..]);
      (rest.0, [c.1] + rest.1, n + rest.2)
  }

  function SockClose(s: Sender): (Sender, seq<Seg>) {
    if s.state != Established && s.state != CloseWait then (s, [])
    else
      var r := SendControl(s.(state := if s.state == Established then FinWait else LastAck), Fin);
      (r.0.(timer := SetTimer(r.0.timer, 1)), [r.1])
  }

  /** The state a retransmission timeout leaves behind. */
  function Timeout(s: Sender): Sender {
    Refresh(s.(timer := Timer(true, s.timer.kind + 1, RETRANS_INITIAL * Pow2(s.timer.kind)),
               recoveryPoint := 0, duack := 0, dupacks := 0,
               ssthresh := if s.cwnd / 2 < 2 then 2 else s.cwnd / 2,
               cwnd := 1, tempCwnd := 0, capacks := 0, frpacks := -1))
  }

  /** One pass of tcp_scan_timer_list over the retransmission timer. */
  function Scan(s: Sender): (Sender, seq<Seg>) {
    if !s.timer.armed then (s, [])
    else
      var t := s.timer.timeout - SCAN_INTERVAL;
      if t > 0 then (s.(timer := s.timer.(timeout := t)), [])
      else if s.timer.kind < LAST_TIMER_TYPE && s.sendBuf != [] then (Timeout(s), Head(s.sendBuf))
      else (s.(state := Closed, timer := s.timer.(armed := false, timeout := t)), [])
  }

  // ---------------------------------------------------------------------
  // The sender, updated in place
  // ---------------------------------------------------------------------

  class TcpSender {
    var state: SockState
    var sndUna: nat
    var sndNxt: nat
    var advWnd: nat
    var sndWnd: nat
    var sendBuf: seq<Seg>
    var cwnd: nat
    var ssthresh: nat
    var recoveryPoint: nat
    var duack: nat
    var dupacks: nat
    var tempCwnd: nat
    var capacks: nat
    var frpacks: int
    var timer: Timer

    function View(): Sender
      reads this
    {
      Sender(state, sndUna, sndNxt, advWnd, sndWnd, sendBuf, cwnd, ssthresh,
             recoveryPoint, duack, dupacks, tempCwnd, capacks, frpacks, timer)
    }

    constructor (iss: nat, state0: SockState)
      ensures View() == Fresh(iss, state0)
    {
      state, sndUna, sndNxt, advWnd, sndWnd, sendBuf := state0, iss, iss, 0, 0, [];
      cwnd, ssthresh, recoveryPoint, duack, dupacks := 1, U32MAX, 0, 0, 0;
      tempCwnd, capacks, frpacks, timer := 0, 0, -1, Timer(false, 0, 0);
    }

    method SetRetransTimer(mode: nat)
      modifies this`timer
      ensures View() == old(View()).(timer := SetTimer(old(timer), mode))
    {
      if !timer.armed {
        timer := Timer(true, 1, RETRANS_INITIAL);
      } else if mode == 0 {
        timer := timer.(kind := 1, timeout := RETRANS_INITIAL);
      }
    }

    method UnsetRetransTimer()
      modifies this`timer
      ensures View() == old(View()).(timer := old(timer).(armed := false))
    {
      if timer.armed {
        timer := timer.(armed := false);
      }
    }

    method ResendHead() returns (out: seq<Seg>)
      ensures out == Head(sendBuf)
    {
      out := [];
      if |sendBuf| > 0 {
        out := [sendBuf[0]];
      }
    }

    method GrowCwnd()
      modifies this`cwnd, this`capacks
      ensures View() == GrowWindow(old(View()))
    {
      if cwnd < ssthresh {
        cwnd := cwnd + 1;
      } else {
        capacks := capacks + 1;
        if capacks >= cwnd {
          cwnd := cwnd + 1;
          capacks := 0;
        }
      }
    }

    method CountDuplicateAck(ack: nat) returns (out: seq<Seg>)
      modifies this`duack, this`dupacks, this`ssthresh, this`frpacks
      ensures (View(), out) == CountDuplicate(old(View()), ack)
    {
      out := [];
      if ack == duack {
        dupacks := dupacks + 1;
        if dupacks >= DUPACK_LIMIT {
          out := ResendHead();
          ssthresh := cwnd / 2;
          duack := 0;
          dupacks := 0;
          frpacks := cwnd;
        }
      } else {
        duack := ack;
        dupacks := 1;
      }
    }

    method ReduceCwnd()
      modifies this`cwnd, this`frpacks, this`recoveryPoint
      ensures View() == ReduceWindow(old(View()))
    {
      frpacks := frpacks - 1;
      if frpacks % 2 != 0 {
        cwnd := Decrement(cwnd);
      }
      if frpacks == 0 {
        frpacks := -1;
        recoveryPoint := sndNxt;
      }
    }

    method UpdateWindowOf(ack: nat, rwnd: nat) returns (out: seq<Seg>)
      modifies this
      ensures (View(), out) == UpdateWindow(old(View()), ack, rwnd)
    {
      out := [];
      if state == SynRecv || state == SynSent {
        sndUna := ack;
        advWnd := rwnd % U16;
        cwnd := cwnd + 1;
        sndWnd := Min(advWnd / TCP_MSS, cwnd);
      } else {
        out := UpdateConnected(ack);
      }
    }

    method AdjustCwnd(ack: nat) returns (out: seq<Seg>)
      modifies this`cwnd, this`capacks, this`frpacks, this`recoveryPoint, this`duack, this`dupacks, this`ssthresh
      ensures (View(), out) == Adjust(old(View()), ack)
    {
      out := [];
      if recoveryPoint == 0 && frpacks == -1 {
        GrowCwnd();
        out := CountDuplicateAck(ack);
      } else if recoveryPoint == 0 {
        ReduceCwnd();
      }
    }

    /** The part for a connected sock. */
    method UpdateConnected(ack: nat) returns (out: seq<Seg>)
      requires state != SynRecv && state != SynSent
      modifies this
      ensures (View(), out) == UpdateWindow(old(View()), ack, 0)
    {
      advWnd := (advWnd + (ack - sndUna)) % U16;
      sndUna := ack;
      ghost var s1 := View();
      out := AdjustCwnd(ack);
      assert (View(), out) == Adjust(s1, ack);
      sndWnd := Min(advWnd / TCP_MSS, cwnd);
    }

    method UpdateWindowSafely(ack: nat, rwnd: nat) returns (out: seq<Seg>)
      modifies this
      ensures (View(), out) == UpdateWindowSafe(old(View()), ack, rwnd)
    {
      out := [];
      if sndUna <= ack && ack <= sndNxt {
        out := UpdateWindowOf(ack, rwnd);
      }
    }

    /** Walks the list and unlinks every segment the ack covers. */
    method PruneSendBuf(ack: nat) returns (changed: bool)
      modifies this`sendBuf
      ensures sendBuf == Prune(old(sendBuf), ack)
      ensures changed <==> |sendBuf| < |old(sendBuf)|
    {
      changed := false;
      var i := 0;
      while i < |sendBuf|
        invariant i <= |sendBuf| <= |old(sendBuf)|
        invariant changed <==> |sendBuf| < |old(sendBuf)|
        invariant sendBuf[..i] + Prune(sendBuf[i..], ack) == Prune(old(sendBuf), ack)
        decreases |sendBuf| - i
      {
        if ack >= sendBuf[i].SeqEnd() {
          assert sendBuf[i..][1..] == sendBuf[i + 1..];
          ghost var was := sendBuf;
          sendBuf := sendBuf[..i] + sendBuf[i + 1..];
          assert sendBuf[i..] == was[i + 1..] && sendBuf[..i] == was[..i];
          changed := true;
        } else {
          assert sendBuf[i..][1..] == sendBuf[i + 1..] && sendBuf[..i] + [sendBuf[i]] == sendBuf[..i + 1];
          i := i + 1;
        }
      }
      assert sendBuf[..i] == sendBuf;
    }

    method AckTheSendBuf(ack: nat) returns (out: seq<Seg>)
      modifies this
      ensures (View(), out) == AckSendBuf(old(View()), ack)
    {
      out := [];
      var changed := PruneSendBuf(ack);
      if recoveryPoint != 0 {
        if !changed {
          tempCwnd := tempCwnd + 1;
          sndWnd := Min(advWnd / TCP_MSS, cwnd);
        } else if ack < recoveryPoint {
          out := ResendHead();
        } else {
          recoveryPoint := 0;
          tempCwnd := 0;
          sndWnd := Min(advWnd / TCP_MSS, cwnd);
        }
      }
      if |sendBuf| == 0 {
        UnsetRetransTimer();
      } else if changed {
        SetRetransTimer(0);
      }
    }

    /** The last two calls of tcp_process for a connected sock. */
    method ProcessAckOf(ack: nat, rwnd: nat) returns (out: seq<Seg>)
      modifies this
      ensures (View(), out) == ProcessAck(old(View()), ack, rwnd)
    {
      out := UpdateWindowSafely(ack, rwnd);
      var more := AckTheSendBuf(ack);
      out := out + more;
    }

    method TransmitData(data: seq<byte>) returns (g: Seg)
      modifies this`sndNxt, this`sendBuf
      ensures (View(), g) == SendPacket(old(View()), data)
    {
      g := Seg(sndNxt, data, Plain);
      sndNxt := sndNxt + |data|;
      sendBuf := sendBuf + [g];
    }

    method TransmitControl(flag: Flag) returns (g: Seg)
      modifies this`sndNxt, this`sendBuf
      ensures (View(), g) == SendControl(old(View()), flag)
    {
      g := Seg(sndNxt, [], flag);
      if !flag.Plain? {
        sndNxt := sndNxt + 1;
        sendBuf := sendBuf + [g];
      }
    }

    method SendChunk(chunk: seq<byte>) returns (g: Seg)
      modifies this
      ensures (View(), g) == WriteChunk(old(View()), chunk)
    {
      advWnd := (advWnd - |chunk|) % U16;
      sndWnd := Min(advWnd / TCP_MSS, cwnd);
      g := TransmitData(chunk);
      SetRetransTimer(1);
    }

    /** Returns when everything is written or the window is closed; the source
        then sleeps and goes on with the rest. */
    method SockWrite(data: seq<byte>) returns (taken: nat, out: seq<Seg>)
      modifies this
      ensures (View(), out, taken) == WriteSome(old(View()), data)
      ensures taken < |data| ==> sndWnd == 0
    {
      var rest := data;
      out, taken := [], 0;
      assert var r := WriteSome(View(), rest); [] + r.1 == r.1 && rest == data[taken..];
      while |rest| > 0 && sndWnd > 0
        invariant taken <= |data| && rest == data[taken..]
        invariant var r := WriteSome(View(), rest);
          (r.0, out + r.1, taken + r.2) == WriteSome(old(View()), data)
        decreases |rest|
      {
        var wlen := Min(|rest|, TCP_MSS);
        ghost var r := WriteSome(View(), rest);
        var g := SendChunk(rest[..wlen]);
        assert r.1 == [g] + r.1[1..] && out + ([g] + r.1[1..]) == (out + [g]) + r.1[1..];
        out := out + [g];
        rest := rest[wlen..];
        taken := taken + wlen;
      }
      assert out + [] == out;
    }

    method Close() returns (out: seq<Seg>)
      modifies this
      ensures (View(), out) == SockClose(old(View()))
    {
      out := [];
      if state == Established || state == CloseWait {
        state := if state == Established then FinWait else LastAck;
        var g := TransmitControl(Fin);
        SetRetransTimer(1);
        out := [g];
      }
    }

    /** Doubles the timeout and starts congestion control over. */
    method BackOff()
      modifies this
      ensures View() == Timeout(old(View()))
    {
      timer := Timer(true, timer.kind + 1, RETRANS_INITIAL * Pow2(timer.kind));
      ResetCongestion();
      sndWnd := Min(advWnd / TCP_MSS, cwnd + tempCwnd);
    }

    method ResetCongestion()
      modifies this`recoveryPoint, this`duack, this`dupacks, this`ssthresh
      modifies this`cwnd, this`tempCwnd, this`capacks, this`frpacks
      ensures View() == old(View()).(recoveryPoint := 0, duack := 0, dupacks := 0,
                                     ssthresh := if old(cwnd) / 2 < 2 then 2 else old(cwnd) / 2,
                                     cwnd := 1, tempCwnd := 0, capacks := 0, frpacks := -1)
    {
      recoveryPoint := 0;
      duack := 0;
      dupacks := 0;
      ssthresh := if cwnd / 2 < 2 then 2 else cwnd / 2;
      cwnd := 1;
      tempCwnd := 0;
      capacks := 0;
      frpacks := -1;
    }

    method ScanTimer() returns (out: seq<Seg>)
      modifies this
      ensures (View(), out) == Scan(old(View()))
    {
      out := [];
      if timer.armed {
        timer := timer.(timeout := timer.timeout - SCAN_INTERVAL);
        if timer.timeout <= 0 {
          if timer.kind < LAST_TIMER_TYPE {
            if |sendBuf| == 0 {
              state := Closed;
              timer := timer.(armed := false);
            } else {
              out := ResendHead();
              BackOff();
            }
          } else {
            state := Closed;
            timer := timer.(armed := false);
          }
        }
      }
    }
  }
}
