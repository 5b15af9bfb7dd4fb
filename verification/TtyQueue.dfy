/** The ring buffers of the terminals (include/linux/tty.h). */
module TtyQueue {

  const TTY_BUF_SIZE := 1024

  /** A signed character. */
  newtype Char = x: int | -128 <= x < 128

  /** i & (TTY_BUF_SIZE - 1), for the indices that occur. */
  function Wrap(i: int): (r: int)
    requires -TTY_BUF_SIZE <= i < 2 * TTY_BUF_SIZE
    ensures 0 <= r < TTY_BUF_SIZE && r == i % TTY_BUF_SIZE
  {
    if i < 0 then i + TTY_BUF_SIZE else if i >= TTY_BUF_SIZE then i - TTY_BUF_SIZE else i
  }

  function Ring(buf: seq<Char>, head: nat, tail: nat): (s: seq<Char>)
    requires |buf| == TTY_BUF_SIZE && head < TTY_BUF_SIZE && tail < TTY_BUF_SIZE
  {
    if tail <= head then buf[tail..head] else buf[tail..] + buf[..head]
  }

  lemma RingFront(buf: seq<Char>, head: nat, tail: nat)
    requires |buf| == TTY_BUF_SIZE && head < TTY_BUF_SIZE && tail < TTY_BUF_SIZE && head != tail
    ensures Ring(buf, head, tail) == [buf[tail]] + Ring(buf, head, Wrap(tail + 1))
  {
  }

  lemma RingBack(buf: seq<Char>, head: nat, tail: nat)
    requires |buf| == TTY_BUF_SIZE && head < TTY_BUF_SIZE && tail < TTY_BUF_SIZE && head != tail
    ensures Ring(buf, head, tail) == Ring(buf, Wrap(head - 1), tail) + [buf[Wrap(head - 1)]]
  {
    if head == 0 {
      assert buf[tail..] == buf[tail..TTY_BUF_SIZE - 1] + [buf[TTY_BUF_SIZE - 1]];
    }
  }

  lemma RingMore(buf: seq<Char>, head: nat, tail: nat, c: Char)
    requires |buf| == TTY_BUF_SIZE && head < TTY_BUF_SIZE && tail < TTY_BUF_SIZE && Wrap(head + 1) != tail
    ensures Ring(buf[head := c], Wrap(head + 1), tail) == Ring(buf, head, tail) + [c]
  {
    var b := buf[head := c];
    if tail <= head {
      assert b[tail..head + 1] == buf[tail..head] + [c];
    } else {
      assert b[tail..] == buf[tail..] && b[..head + 1] == buf[..head] + [c];
    }
  }

  class Queue {
    const buf: array<Char>
    var head: nat
    var tail: nat

    ghost predicate Valid()
      reads this
    {
      buf.Length == TTY_BUF_SIZE && head < TTY_BUF_SIZE && tail < TTY_BUF_SIZE
    }

    ghost function Contents(): (s: seq<Char>)
      reads this, buf
      requires Valid()
      ensures |s| < TTY_BUF_SIZE
    {
      Ring(buf[..], head, tail)
    }

    constructor ()
      ensures Valid() && Contents() == [] && fresh(buf)
    {
      buf := new Char[TTY_BUF_SIZE](_ => 0);
      head, tail := 0, 0;
    }

    predicate Empty()
      reads this, buf
      requires Valid()
      ensures Empty() <==> Contents() == []
    {
      head == tail
    }

    function Left(): (n: nat)
      reads this, buf
      requires Valid()
      ensures n == TTY_BUF_SIZE - 1 - |Contents()|
    {
      Wrap(tail - head - 1)
    }

    /** GETCH */
    method Get() returns (c: Char)
      requires Valid() && Contents() != []
      modifies `tail
      ensures Valid() && old(Contents()) == [c] + Contents()
    {
      RingFront(buf[..], head, tail);
      c := buf[tail];
      tail := Wrap(tail + 1);
    }

    /** PUTCH */
    method Put(c: Char)
      requires Valid() && |Contents()| < TTY_BUF_SIZE - 1
      modifies `head, buf
      ensures Valid() && Contents() == old(Contents()) + [c]
    {
      RingMore(buf[..], head, tail, c);
      buf[head] := c;
      head := Wrap(head + 1);
    }

    /** LAST */
    method Last() returns (c: Char)
      requires Valid() && Contents() != []
      ensures c == Contents()[|Contents()| - 1]
    {
      RingBack(buf[..], head, tail);
      c := buf[Wrap(head - 1)];
    }

    /** DEC(head) */
    method DropLast()
      requires Valid() && Contents() != []
      modifies `head
      ensures Valid() && Contents() == old(Contents())[..|old(Contents())| - 1]
    {
      RingBack(buf[..], head, tail);
      head := Wrap(head - 1);
    }
  }
}
