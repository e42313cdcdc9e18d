/** The receive buffer of lab12/12-tcp_stack/include/ring_buffer.h: a byte queue
    in a circular array of which one cell always stays unused. */
module RingBuffers {
  import opened Common

  lemma ModOnce(x: nat, n: nat)
    requires 0 < n && x < 2 * n
    ensures x % n == if x < n then x else x - n
  {
  }

  /** The cell k places after cell i in a ring of n cells. */
  function Advance(i: nat, k: nat, n: nat): nat
    requires i < n && k <= n
  {
    if i + k < n then i + k else i + k - n
  }

  function Window(b: seq<byte>, head: nat, tail: nat): seq<byte>
    requires head < |b| && tail < |b|
  {
    if head <= tail then b[head..tail] else b[head..] + b[..tail]
  }

  function CopyOut(b: seq<byte>, head: nat, len: nat): seq<byte>
    requires head < |b| && len < |b|
  {
    if head + len > |b| then b[head..] + b[..head + len - |b|] else b[head..head + len]
  }

  lemma ReadWindow(b: seq<byte>, head: nat, tail: nat, len: nat)
    requires head < |b| && tail < |b| && len <= |Window(b, head, tail)|
    ensures len < |b| && CopyOut(b, head, len) == Window(b, head, tail)[..len]
    ensures Window(b, Advance(head, len, |b|), tail) == Window(b, head, tail)[len..]
  {
  }

  /** data laid out from cell tail on, over the end if need be. */
  function Stored(b: seq<byte>, tail: nat, data: seq<byte>): (b': seq<byte>)
    requires tail < |b| && |data| < |b|
    ensures |b'| == |b|
  {
    if tail + |data| > |b| then
      var right := |b| - tail;
      data[right..] + b[|data| - right..tail] + data[..right]
    else
      b[..tail] + data + b[tail + |data|..]
  }

  lemma WriteWindow(b: seq<byte>, b': seq<byte>, head: nat, tail: nat, data: seq<byte>)
    requires head < |b| == |b'| && tail < |b|
    requires |Window(b, head, tail)| + |data| < |b|
    requires b' == Stored(b, tail, data)
    ensures Window(b', head, Advance(tail, |data|, |b|)) == Window(b, head, tail) + data
  {
    var n, used := |b|, |Window(b, head, tail)|;
    var w' := Window(b', head, Advance(tail, |data|, n));
    assert |w'| == used + |data|;
    forall k: nat | k < |w'| ensures w'[k] == (Window(b, head, tail) + data)[k] {
      assert w'[k] == b'[Advance(head, k, n)];
    }
  }

  class RingBuffer {
    const size: nat
    const buf: array<byte>
    var head: nat
    var tail: nat

    ghost predicate Valid()
      reads this
    {
      0 < size == buf.Length && head < size && tail < size
    }

    /** The bytes waiting to be read, oldest first. */
    ghost function Contents(): seq<byte>
      requires Valid()
      reads this, buf
    {
      Window(buf[..], head, tail)
    }

    ghost function Capacity(): nat
      requires Valid()
      reads this
    {
      size - 1
    }

    constructor (capacity: nat)
      ensures Valid() && fresh(buf) && Contents() == [] && Capacity() == capacity
    {
      size := capacity + 1;
      buf := new byte[capacity + 1];
      head := 0;
      tail := 0;
    }

    function Used(): (n: nat)
      requires Valid()
      reads this, buf
      ensures n == |Contents()|
    {
      ModOnce(tail - head + size, size);
      (tail - head + size) % size
    }

    function Free(): (n: nat)
      requires Valid()
      reads this, buf
      ensures n + |Contents()| == Capacity()
    {
      ModOnce(tail - head + size, size);
      size - (tail - head + size) % size - 1
    }

    predicate IsEmpty()
      requires Valid()
      reads this, buf
      ensures IsEmpty() <==> Contents() == []
    {
      Used() == 0
    }

    predicate IsFull()
      requires Valid()
      reads this, buf
      ensures IsFull() <==> |Contents()| == Capacity()
    {
      Free() == 0
    }

    method Read(wanted: int) returns (len: int, out: seq<byte>)
      requires Valid()
      modifies this`head
      ensures Valid()
      ensures len == Min(|old(Contents())|, wanted)
      ensures if len <= 0 then out == [] && Contents() == old(Contents())
              else out == old(Contents())[..len] && Contents() == old(Contents())[len..]
    {
      len := Min(Used(), wanted);
      out := [];
      if len > 0 {
        ReadWindow(buf[..], head, tail, len);
        if head + len > size {
          var right := size - head;
          var left := len - right;
          out := buf[head..head + right] + buf[..left];
        } else {
          out := buf[head..head + len];
        }
        ModOnce(head + len, size);
        head := (head + len) % size;
      }
    }

    method Write(data: seq<byte>)
      requires Valid()
      requires |data| > 0 && Free() >= |data|
      modifies this`tail, buf
      ensures Valid()
      ensures Contents() == old(Contents()) + data
    {
      Store(data);
      ModOnce(tail + |data|, size);
      WriteWindow(old(buf[..]), buf[..], head, tail, data);
      tail := (tail + |data|) % size;
    }

    /** The copy, in two parts when it passes the end of the array. */
    method Store(data: seq<byte>)
      requires Valid() && |data| < size
      modifies buf
      ensures buf[..] == Stored(old(buf[..]), tail, data)
    {
      var len := |data|;
      if tail + len > size {
        var right := size - tail;
        var left := len - right;
        forall i | 0 <= i < right {
          buf[tail + i] := data[i];
        }
        forall i | 0 <= i < left {
          buf[i] := data[right + i];
        }
      } else {
        forall i | 0 <= i < len {
          buf[tail + i] := data[i];
        }
      }
    }
  }
}
