/** The 64-byte ring of `device/ioqueue.c`: one slot stays empty, so it holds 63 bytes. */
module Rings {
  type Byte = x: int | 0 <= x < 256

  const BUFSIZE: nat := 64

  datatype Ring = Ring(buf: seq<Byte>, head: nat, tail: nat) {
    predicate Valid() { |buf| == BUFSIZE && head < BUFSIZE && tail < BUFSIZE }
  }

  function NextPos(pos: nat): (r: nat)
    ensures r < BUFSIZE
  {
    (pos + 1) % BUFSIZE
  }

  predicate Full(r: Ring) { NextPos(r.head) == r.tail }

  predicate Empty(r: Ring) { r.head == r.tail }

  function Put(r: Ring, b: Byte): Ring
    requires r.Valid()
  {
    Ring(r.buf[r.head := b], NextPos(r.head), r.tail)
  }

  function Take(r: Ring): Ring
    requires r.Valid()
  {
    r.(tail := NextPos(r.tail))
  }

  function Count(r: Ring): nat
    requires r.Valid()
  {
    if r.tail <= r.head then r.head - r.tail else r.head + BUFSIZE - r.tail
  }

  /** The bytes waiting, oldest first. */
  function Contents(r: Ring): (s: seq<Byte>)
    requires r.Valid()
    ensures |s| == Count(r)
  {
    if r.tail <= r.head then r.buf[r.tail..r.head] else r.buf[r.tail..] + r.buf[..r.head]
  }

  lemma Wraps(pos: nat)
    requires pos < BUFSIZE
    ensures NextPos(pos) == if pos == BUFSIZE - 1 then 0 else pos + 1
  {
  }

  lemma PutAppends(r: Ring, b: Byte)
    requires r.Valid() && !Full(r)
    ensures Put(r, b).Valid() && Contents(Put(r, b)) == Contents(r) + [b]
  {
    Wraps(r.head);
    var p := Put(r, b);
    if r.tail <= r.head < BUFSIZE - 1 {
      assert p.buf[r.tail..r.head + 1] == r.buf[r.tail..r.head] + [b];
    } else if r.tail <= r.head {
      assert p.buf[r.tail..] + p.buf[..0] == r.buf[r.tail..r.head] + [b];
    } else {
      assert p.buf[r.tail..] == r.buf[r.tail..];
      assert p.buf[..r.head + 1] == r.buf[..r.head] + [b];
    }
  }

  lemma TakeDrops(r: Ring)
    requires r.Valid() && !Empty(r)
    ensures Take(r).Valid() && Contents(r) == [r.buf[r.tail]] + Contents(Take(r))
  {
    Wraps(r.tail);
  }

  /** The ring is a FIFO of capacity 63. */
  lemma RingIsFifo(r: Ring, b: Byte)
    requires r.Valid()
    ensures Count(r) <= 63 && (Full(r) <==> Count(r) == 63) && (Empty(r) <==> Count(r) == 0)
    ensures !Full(r) ==> Put(r, b).Valid() && Contents(Put(r, b)) == Contents(r) + [b]
    ensures !Empty(r) ==> Take(r).Valid() && Contents(r) == [r.buf[r.tail]] + Contents(Take(r))
  {
    Wraps(r.head);
    if !Full(r) { PutAppends(r, b); }
    if !Empty(r) { TakeDrops(r); }
  }

  /** The same ring edited in place. */
  class IoBuffer {
    const buf: array<Byte>
    var head: nat
    var tail: nat

    ghost predicate Valid()
      reads this
    {
      buf.Length == BUFSIZE && head < BUFSIZE && tail < BUFSIZE
    }

    ghost function View(): (r: Ring)
      requires Valid()
      reads this, buf
      ensures r.Valid()
    {
      Ring(buf[..], head, tail)
    }

    constructor ()
      ensures Valid() && Contents(View()) == [] && fresh(buf)
    {
      buf := new Byte[BUFSIZE];
      head := 0;
      tail := 0;
    }

    /** The tail of ioq_putchar, once the ring is not full. */
    method PutByte(b: Byte)
      requires Valid() && !Full(View())
      modifies this`head, buf
      ensures Valid() && View() == Put(old(View()), b) && Contents(View()) == old(Contents(View())) + [b]
    {
      RingIsFifo(View(), b);
      buf[head] := b;
      head := NextPos(head);
    }

    /** The tail of ioq_getchar, once the ring is not empty. */
    method TakeByte() returns (b: Byte)
      requires Valid() && !Empty(View())
      modifies this`tail
      ensures Valid() && View() == Take(old(View())) && old(Contents(View())) == [b] + Contents(View())
    {
      RingIsFifo(View(), 0);
      b := buf[tail];
      tail := NextPos(tail);
    }
  }
}
