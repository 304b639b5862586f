/** The serial core's circular transmit buffer as the driver reads it: a
    page-sized byte array with a write index `head` (advanced by the tty
    layer) and a read index `tail` (advanced by the driver). */
module Xmit {
  import opened Words

  /** UART_XMIT_SIZE: one page on the ARM boards this driver runs on. */
  const XmitSize: nat := 4096

  datatype Queue = Queue(buf: seq<Byte>, head: nat, tail: nat)

  predicate Valid(q: Queue)
  {
    |q.buf| == XmitSize && q.head < XmitSize && q.tail < XmitSize
  }

  /** uart_circ_empty. */
  predicate Empty(q: Queue)
  {
    q.head == q.tail
  }

  /** uart_circ_chars_pending: (head - tail) masked with XmitSize - 1, which
      for a power-of-two size is the non-negative remainder. */
  function Pending(q: Queue): (n: nat)
    requires Valid(q)
    ensures n < XmitSize
    ensures n == 0 <==> Empty(q)
  {
    (q.head - q.tail) % XmitSize
  }

  /** The bytes waiting to be sent, oldest first. */
  function Contents(q: Queue): (s: seq<Byte>)
    requires Valid(q)
    ensures |s| == Pending(q)
  {
    seq(Pending(q), i requires 0 <= i < Pending(q) => q.buf[(q.tail + i) % XmitSize])
  }

  /** The read index after one byte: (tail + 1) masked with XmitSize - 1,
      which for a power-of-two size is the remainder. It wraps from the
      last slot to the first. */
  function NextTail(tail: nat): (t: nat)
    requires tail < XmitSize
    ensures t < XmitSize
    ensures t == if tail == XmitSize - 1 then 0 else tail + 1
  {
    (tail + 1) % XmitSize
  }

  datatype Popped = Popped(ch: Byte, rest: Queue)

  /** Takes the byte at the read index and advances it. */
  function Pop(q: Queue): (r: Popped)
    requires Valid(q) && !Empty(q)
    ensures Valid(r.rest)
    ensures r.rest.buf == q.buf && r.rest.head == q.head
    ensures [r.ch] + Contents(r.rest) == Contents(q)
  {
    var r := Popped(q.buf[q.tail], q.(tail := NextTail(q.tail)));
    PopContents(q);
    r
  }

  /** Advancing the read index removes exactly the oldest byte. */
  lemma PopContents(q: Queue)
    requires Valid(q) && !Empty(q)
    ensures var rest := q.(tail := NextTail(q.tail));
            Valid(rest) && Pending(rest) + 1 == Pending(q)
            && [q.buf[q.tail]] + Contents(rest) == Contents(q)
  {
    var rest := q.(tail := NextTail(q.tail));
    assert Pending(rest) + 1 == Pending(q);
    var a := [q.buf[q.tail]] + Contents(rest);
    var b := Contents(q);
    assert |a| == |b|;
    forall i | 0 <= i < |a|
      ensures a[i] == b[i]
    {
      if i > 0 {
        assert a[i] == q.buf[(rest.tail + (i - 1)) % XmitSize];
        assert (rest.tail + (i - 1)) % XmitSize == (q.tail + i) % XmitSize;
      }
    }
  }
}
