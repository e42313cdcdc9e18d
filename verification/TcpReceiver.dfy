/** Segments, and the receiving side of a connection (lab12/12-tcp_stack/tcp_in.c).

  Sequence numbers are unbounded: module SeqNumbers shows what the 32-bit
  comparators make of them.
*/
module TcpSegments {
  import opened Common

  const TCP_MSS: nat := 1460
  const TCP_DEFAULT_WINDOW: nat := 65535

  datatype Flag = Plain | Syn | Fin

  datatype Seg = Seg(start: nat, data: seq<byte>, flag: Flag) {
    function SeqEnd(): nat {
      start + |data| + (if flag.Plain? then 0 else 1)
    }
  }

  /** A pure acknowledgment occupies no sequence number. */
  predicate IsPureAck(g: Seg) {
    g.data == [] && g.flag != Fin
  }
}

module TcpReceiver {
  import opened Common
  import opened TcpSegments
  import opened RingBuffers

  /** stream is every byte ever put into the receive buffer; eof is set once a
      FIN has been accepted (TCP_CLOSE_WAIT). */
  datatype Receiver = Receiver(rcvNxt: nat, ofo: seq<Seg>, stream: seq<byte>, eof: bool)

  predicate InWindow(rcvNxt: nat, rcvWnd: nat, g: Seg) {
    g.start < rcvNxt + Max(rcvWnd, 1) && rcvNxt <= g.SeqEnd()
  }

  predicate Pending(ofo: seq<Seg>, seq0: nat) {
    exists i: nat :: i < |ofo| && ofo[i].start == seq0
  }

  function Accept(r: Receiver, g: Seg): Receiver {
    r.(stream := r.stream + g.data, eof := r.eof || g.flag == Fin, rcvNxt := g.SeqEnd())
  }

  /** g goes before the first entry with a larger sequence number. */
  function Insert(ofo: seq<Seg>, g: Seg): seq<Seg> {
    if ofo == [] then [g]
    else if ofo[0].start > g.start then [g] + ofo
    else [ofo[0]] + Insert(ofo[1..], g)
  }

  /** Moves entries from the front of the out-of-order list while they fit. */
  function Drain(r: Receiver): Receiver
    decreases |r.ofo|
  {
    if r.ofo == [] || r.ofo[0].start != r.rcvNxt then r
    else Drain(Accept(r.(ofo := r.ofo[1..]), r.ofo[0]))
  }

  /** Old segments, and segments whose sequence number is already stored. */
  predicate IsDuplicate(r: Receiver, g: Seg) {
    g.SeqEnd() <= r.rcvNxt || Pending(r.ofo, g.start)
  }

  /** tcp_sock_recv on a segment that is not a duplicate. */
  function Take(r: Receiver, g: Seg): Receiver {
    if r.rcvNxt == g.start then Drain(Accept(r, g)) else Drain(r.(ofo := Insert(r.ofo, g)))
  }

  predicate Taken(r: Receiver, rcvWnd: nat, g: Seg) {
    InWindow(r.rcvNxt, rcvWnd, g) && !IsDuplicate(r, g)
  }

  function Process(r: Receiver, rcvWnd: nat, g: Seg): Receiver {
    if Taken(r, rcvWnd, g) then Take(r, g) else r
  }

  /** Whether an acknowledgment is sent. Only a duplicate pure acknowledgment
      inside the window stays unanswered. */
  predicate Answered(r: Receiver, rcvWnd: nat, g: Seg) {
    !InWindow(r.rcvNxt, rcvWnd, g) || !IsDuplicate(r, g) || !IsPureAck(g)
  }

  lemma InsertSkips(ofo: seq<Seg>, g: Seg, i: nat)
    requires i < |ofo| && ofo[i].start <= g.start
    ensures ofo[..i] + Insert(ofo[i..], g) == ofo[..i + 1] + Insert(ofo[i + 1..], g)
  {
  }

  lemma TakenFrom(given: seq<byte>, waiting: seq<byte>, n: nat)
    requires n <= |waiting|
    ensures (given + waiting[..n]) + waiting[n..] == given + waiting
  {
  }

  // ---------------------------------------------------------------------
  // The receiver, updated in place
  // ---------------------------------------------------------------------

  class TcpReceiver {
    var rcvNxt: nat
    var rcvWnd: nat
    var ofo: seq<Seg>
    var closeWait: bool
    const rcvBuf: RingBuffer
    ghost var delivered: seq<byte>  // what tcp_sock_read has returned so far

    ghost predicate Valid()
      reads this, rcvBuf
    {
      rcvBuf.Valid()
    }

    ghost function View(): Receiver
      requires Valid()
      reads this, rcvBuf, rcvBuf.buf
    {
      Receiver(rcvNxt, ofo, delivered + rcvBuf.Contents(), closeWait)
    }

    constructor (rcvNxt0: nat)
      ensures Valid() && fresh(rcvBuf) && fresh(rcvBuf.buf)
      ensures rcvBuf.Capacity() == TCP_DEFAULT_WINDOW
      ensures View() == Receiver(rcvNxt0, [], [], false) && rcvWnd == TCP_DEFAULT_WINDOW
    {
      rcvNxt, rcvWnd, ofo, closeWait, delivered := rcvNxt0, TCP_DEFAULT_WINDOW, [], false, [];
      rcvBuf := new RingBuffer(TCP_DEFAULT_WINDOW);
    }

    /** The application takes up to wanted bytes out of the ring. */
    method ReadSome(wanted: nat) returns (out: seq<byte>)
      requires Valid()
      modifies this`delivered, rcvBuf`head
      ensures Valid() && delivered == old(delivered) + out
      ensures out == old(rcvBuf.Contents())[..Min(|old(rcvBuf.Contents())|, wanted)]
      ensures rcvBuf.Contents() == old(rcvBuf.Contents())[|out|..]
      ensures View() == old(View())
    {
      var len;
      len, out := rcvBuf.Read(wanted);
      delivered := delivered + out;
      TakenFrom(old(delivered), old(rcvBuf.Contents()), len);
    }

    /** While the handler sleeps the application reads, in pieces of any size. */
    method WaitForSpace(n: nat)
      requires Valid() && n <= rcvBuf.Capacity()
      modifies this`delivered, rcvBuf`head
      ensures Valid() && rcvBuf.Free() >= n
      ensures View() == old(View())
    {
      while rcvBuf.Free() < n
        invariant Valid() && View() == old(View())
        decreases |rcvBuf.Contents()|
      {
        var wanted: nat :| wanted > 0;
        var out := ReadSome(wanted);
      }
    }

    method AcceptSegment(g: Seg)
      requires Valid() && |g.data| <= rcvBuf.Capacity()
      modifies this, rcvBuf, rcvBuf.buf
      ensures Valid() && View() == Accept(old(View()), g) && rcvWnd == old(rcvWnd)
    {
      if |g.data| > 0 {
        WaitForSpace(|g.data|);
        ghost var waiting := rcvBuf.Contents();
        rcvBuf.Write(g.data);
        assert delivered + (waiting + g.data) == (delivered + waiting) + g.data;
      } else {
        assert old(View()).stream + g.data == old(View()).stream;
      }
      if g.flag == Fin {
        closeWait := true;
      }
      rcvNxt := g.SeqEnd();
    }

    method InsertOutOfOrder(g: Seg)
      modifies this`ofo
      ensures ofo == Insert(old(ofo), g)
    {
      var i := 0;
      while i < |ofo| && ofo[i].start <= g.start
        invariant i <= |ofo| && ofo == old(ofo)
        invariant Insert(ofo, g) == ofo[..i] + Insert(ofo[i..], g)
      {
        InsertSkips(ofo, g, i);
        i := i + 1;
      }
      assert Insert(ofo[i..], g) == [g] + ofo[i..];
      assert ofo[..i] + ([g] + ofo[i..]) == ofo[..i] + [g] + ofo[i..];
      ofo := ofo[..i] + [g] + ofo[i..];
    }

    method DrainOutOfOrder()
      requires Valid() && forall x :: x in ofo ==> |x.data| <= rcvBuf.Capacity()
      modifies this, rcvBuf, rcvBuf.buf
      ensures Valid() && View() == Drain(old(View())) && rcvWnd == old(rcvWnd)
    {
      while |ofo| > 0 && ofo[0].start == rcvNxt
        invariant Valid() && Drain(View()) == Drain(old(View())) && rcvWnd == old(rcvWnd)
        invariant forall x :: x in ofo ==> |x.data| <= rcvBuf.Capacity()
        decreases |ofo|
      {
        var pend := ofo[0];
        ofo := ofo[1..];
        AcceptSegment(pend);
      }
    }

    /** is_tcp_seq_valid followed by tcp_sock_recv; acked says whether an
        acknowledgment with the new rcvNxt leaves. */
    method Receive(g: Seg) returns (acked: bool)
      requires Valid() && |g.data| <= rcvBuf.Capacity()
      requires forall x :: x in ofo ==> |x.data| <= rcvBuf.Capacity()
      modifies this, rcvBuf, rcvBuf.buf
      ensures Valid()
      ensures View() == Process(old(View()), old(rcvWnd), g)
      ensures acked == Answered(old(View()), old(rcvWnd), g)
      ensures rcvWnd == if Taken(old(View()), old(rcvWnd), g) then rcvBuf.Free() else old(rcvWnd)
    {
      if !(g.start < rcvNxt + Max(rcvWnd, 1) && rcvNxt <= g.SeqEnd()) {
        return true;
      }
      if g.SeqEnd() <= rcvNxt {
        return !(|g.data| == 0 && g.flag != Fin);
      }
      for i := 0 to |ofo|
        invariant forall k: nat :: k < i ==> ofo[k].start != g.start
      {
        if ofo[i].start == g.start {
          return !(|g.data| == 0 && g.flag != Fin);
        }
      }
      if rcvNxt == g.start {
        AcceptSegment(g);
      } else {
        InsertOutOfOrder(g);
        InsertContains(old(ofo), g);
      }
      DrainOutOfOrder();
      rcvWnd := rcvBuf.Free();
      acked := true;
    }

    /** Called when there is something to read or the peer has closed; otherwise
        the caller sleeps. */
    method SockRead(len: nat) returns (out: seq<byte>)
      requires Valid() && (!rcvBuf.IsEmpty() || closeWait)
      modifies this`delivered, this`rcvWnd, rcvBuf`head
      ensures Valid() && View() == old(View()) && delivered == old(delivered) + out
      ensures out == old(rcvBuf.Contents())[..Min(|old(rcvBuf.Contents())|, len)]
      ensures rcvWnd == if old(rcvBuf.IsEmpty()) then old(rcvWnd) else rcvBuf.Free()
    {
      if rcvBuf.IsEmpty() {
        assert delivered + [] == delivered;
        return [];
      }
      out := ReadSome(len);
      rcvWnd := rcvBuf.Free();
    }
  }

  lemma {:induction false} InsertContains(ofo: seq<Seg>, g: Seg)
    ensures forall x :: x in Insert(ofo, g) <==> x in ofo || x == g
  {
    if ofo != [] && ofo[0].start <= g.start {
      InsertContains(ofo[1..], g);
      assert ofo == [ofo[0]] + ofo[1..];
    }
  }
}
