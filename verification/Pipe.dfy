/** Pipes (fs/pipe.c): a page used as a ring buffer, with the two indices in the inode. Any number of
    processes hold its ends; each call moves its bytes in chunks, and before each chunk of one
    call, also when the process was woken for it, the others may move any number of theirs. */
module Pipe {

  const PAGE_SIZE := 4096

  newtype byte = x: int | 0 <= x < 256

  // ----- the ring -----

  /** i & (PAGE_SIZE - 1), for the indices that occur. */
  function Wrap(i: int): (r: nat)
    requires -PAGE_SIZE < i < 2 * PAGE_SIZE
    ensures r < PAGE_SIZE && r == i % PAGE_SIZE
  {
    if i < 0 then i + PAGE_SIZE else if i >= PAGE_SIZE then i - PAGE_SIZE else i
  }

  /** The bytes in the ring, the oldest first. */
  function Ring(page: seq<byte>, head: nat, tail: nat): (s: seq<byte>)
    requires |page| == PAGE_SIZE && head < PAGE_SIZE && tail < PAGE_SIZE
    ensures |s| == Wrap(head - tail)
  {
    if tail <= head then page[tail..head] else page[tail..] + page[..head]
  }

  /** The oldest n bytes are in one piece, up to the end of the page. */
  lemma RingTake(page: seq<byte>, head: nat, tail: nat, n: nat)
    requires |page| == PAGE_SIZE && head < PAGE_SIZE && tail < PAGE_SIZE
    requires n <= Wrap(head - tail) && tail + n <= PAGE_SIZE
    ensures Ring(page, head, tail)[..n] == page[tail..tail + n]
    ensures Ring(page, head, tail)[n..] == Ring(page, head, Wrap(tail + n))
  {
  }

  lemma MovedMore(a: seq<byte>, b: seq<byte>, c: seq<byte>)
    ensures a + b + c == a + (b + c)
  {
  }

  /** The page with `data` stored from i on. */
  function Patched(page: seq<byte>, i: nat, data: seq<byte>): (r: seq<byte>)
    requires i + |data| <= |page|
    ensures |r| == |page|
  {
    page[..i] + data + page[i + |data|..]
  }

  lemma PatchedMore(page: seq<byte>, i: nat, data: seq<byte>, n: nat)
    requires i + |data| <= |page| && n < |data|
    ensures Patched(page, i, data[..n])[i + n := data[n]] == Patched(page, i, data[..n + 1])
  {
  }

  lemma PatchedNone(page: seq<byte>, i: nat, data: seq<byte>)
    requires i + |data| <= |page|
    ensures Patched(page, i, data[..0]) == page && data[..|data|] == data
  {
  }

  /** New bytes behind the newest one. */
  lemma RingPut(page: seq<byte>, head: nat, tail: nat, data: seq<byte>)
    requires |page| == PAGE_SIZE && head < PAGE_SIZE && tail < PAGE_SIZE
    requires |data| <= PAGE_SIZE - 1 - Wrap(head - tail) && head + |data| <= PAGE_SIZE
    ensures Ring(Patched(page, head, data), Wrap(head + |data|), tail) == Ring(page, head, tail) + data
  {
    var page' := Patched(page, head, data);
    if tail <= head && head + |data| == PAGE_SIZE {
      assert page'[tail..] + page'[..0] == page[tail..head] + data;
    } else if tail <= head {
      assert page'[tail..head + |data|] == page[tail..head] + data;
    } else {
      assert page'[tail..] == page[tail..] && page'[..head + |data|] == page[..head] + data;
      MovedMore(page[tail..], page[..head], data);
    }
  }

  // ----- the pipe as a stream -----

  /** A chunk that process `who` put into the pipe or got from it. */
  datatype Chunk = Put(who: nat, data: seq<byte>) | Got(who: nat, data: seq<byte>)

  /** The bytes in the pipe, where the first of them lies in the page, and all chunks so far. */
  datatype Snapshot = Snapshot(tail: nat, text: seq<byte>, log: seq<Chunk>)

  type Stream = s: Snapshot | s.tail < PAGE_SIZE && |s.text| < PAGE_SIZE witness Snapshot(0, [], [])

  const Empty: Stream := Snapshot(0, [], [])

  function Min(a: nat, b: nat): nat {
    if a < b then a else b
  }

  /** The size of a chunk that is got at once by a reader that wants n bytes: what is there, up to the
      end of the page. */
  function TakeSize(s: Stream, n: nat): nat
  {
    Min(Min(PAGE_SIZE - s.tail, n), |s.text|)
  }

  /** And of one that is put: what there is room for, up to the end of the page. */
  function PutSize(s: Stream, n: nat): nat
  {
    Min(Min(PAGE_SIZE - Wrap(s.tail + |s.text|), n), PAGE_SIZE - 1 - |s.text|)
  }

  function Taken(s: Stream, who: nat, n: nat): Stream
  {
    var k := TakeSize(s, n);
    if k == 0 then s else Snapshot(Wrap(s.tail + k), s.text[k..], s.log + [Got(who, s.text[..k])])
  }

  function Given(s: Stream, who: nat, data: seq<byte>): Stream
  {
    var k := PutSize(s, |data|);
    if k == 0 then s else Snapshot(s.tail, s.text + data[..k], s.log + [Put(who, data[..k])])
  }

  /** What another process does meanwhile: one chunk. */
  datatype Act = Take(who: nat, n: nat) | Give(who: nat, data: seq<byte>)

  function Acted(s: Stream, a: Act): Stream
  {
    match a
    case Take(who, n) => Taken(s, who, n)
    case Give(who, data) => Given(s, who, data)
  }

  function ActedAll(s: Stream, acts: seq<Act>): Stream
  {
    if acts == [] then s else Acted(ActedAll(s, acts[..|acts| - 1]), acts[|acts| - 1])
  }

  /** The other processes, before the next turn of a call: all acts of the next list, one by one. */
  function Before(s: Stream, others: seq<seq<Act>>): Stream
  {
    if others == [] then s else ActedAll(s, others[0])
  }

  function Later(others: seq<seq<Act>>): seq<seq<Act>> {
    if others == [] then [] else others[1..]
  }

  /** A call in progress: the stream, the bytes it has moved, those it is still to move (for a reader
      only their number matters), the acts of the others before each turn to come, and whether it is over. */
  datatype Job = Job(s: Stream, moved: seq<byte>, want: nat, rest: seq<byte>, left: seq<seq<Act>>, over: bool)

  /** A turn of read_pipe. While the pipe is empty the reader waits for the others; if nothing of them is
      left, all writers are gone. */
  function ReadTurn(r: Job, who: nat): Job {
    if r.over then r
    else if r.want == 0 then r.(over := true)
    else
      var s1, more := Before(r.s, r.left), Later(r.left);
      if s1.text == [] then r.(s := s1, left := more, over := more == [])
      else
        var k := TakeSize(s1, r.want);
        r.(s := Taken(s1, who, r.want), moved := r.moved + s1.text[..k], want := r.want - k, left := more)
  }

  /** A turn of write_pipe, the other way round. */
  function WriteTurn(r: Job, who: nat): Job {
    if r.over then r
    else if r.rest == [] then r.(over := true)
    else
      var s1, more := Before(r.s, r.left), Later(r.left);
      if |s1.text| == PAGE_SIZE - 1 then r.(s := s1, left := more, over := more == [])
      else
        var k := PutSize(s1, |r.rest|);
        r.(s := Given(s1, who, r.rest), moved := r.moved + r.rest[..k], rest := r.rest[k..], left := more)
  }

  /** The two outcomes of a turn that wants bytes. */
  lemma ReadTurnIs(r: Job, who: nat, s1: Stream, more: seq<seq<Act>>)
    requires !r.over && r.want > 0 && s1 == Before(r.s, r.left) && more == Later(r.left)
    ensures s1.text == [] ==> ReadTurn(r, who) == Job(s1, r.moved + [], r.want, r.rest, more, more == [])
    ensures s1.text != [] ==> var k := TakeSize(s1, r.want);
      ReadTurn(r, who) == Job(Taken(s1, who, r.want), r.moved + s1.text[..k], r.want - k, r.rest, more, false)
  {
  }

  lemma WriteTurnIs(r: Job, who: nat, s1: Stream, more: seq<seq<Act>>)
    requires !r.over && r.rest != [] && s1 == Before(r.s, r.left) && more == Later(r.left)
    ensures |s1.text| == PAGE_SIZE - 1 ==> WriteTurn(r, who) == Job(s1, r.moved + r.rest[..0], r.want, r.rest[0..], more, more == [])
    ensures |s1.text| < PAGE_SIZE - 1 ==> var k := PutSize(s1, |r.rest|);
      WriteTurn(r, who) == Job(Given(s1, who, r.rest), r.moved + r.rest[..k], r.want, r.rest[k..], more, false)
  {
    assert r.moved + r.rest[..0] == r.moved && r.rest[0..] == r.rest;
  }

  function ReadTurns(r: Job, who: nat, n: nat): Job {
    if n == 0 then r else ReadTurn(ReadTurns(r, who, n - 1), who)
  }

  function WriteTurns(r: Job, who: nat, n: nat): Job {
    if n == 0 then r else WriteTurn(WriteTurns(r, who, n - 1), who)
  }

  /** A whole call; it is over after one turn for each list of acts and each byte, and a last one. */
  function Reading(s: Stream, who: nat, count: nat, others: seq<seq<Act>>): Job {
    ReadTurns(Job(s, [], count, [], others, false), who, |others| + count + 1)
  }

  function Writing(s: Stream, who: nat, data: seq<byte>, others: seq<seq<Act>>): Job {
    WriteTurns(Job(s, [], 0, data, others, false), who, |others| + |data| + 1)
  }

  lemma {:induction false} ReadOver(r: Job, who: nat, m: nat, n: nat)
    requires m <= n && ReadTurns(r, who, m).over
    ensures ReadTurns(r, who, n) == ReadTurns(r, who, m)
  {
    if m == n {
    } else {
      ReadOver(r, who, m, n - 1);
    }
  }

  lemma {:induction false} WriteOver(r: Job, who: nat, m: nat, n: nat)
    requires m <= n && WriteTurns(r, who, m).over
    ensures WriteTurns(r, who, n) == WriteTurns(r, who, m)
  {
    if m == n {
    } else {
      WriteOver(r, who, m, n - 1);
    }
  }

  // ----- first in, first out -----

  /** All bytes ever put into the pipe, in order; all ever got; and those of one process. */
  function PutText(log: seq<Chunk>): seq<byte> {
    if log == [] then [] else PutText(log[..|log| - 1]) + match log[|log| - 1] case Put(_, data) => data case Got(_, _) => []
  }

  function GotText(log: seq<Chunk>): seq<byte> {
    if log == [] then [] else GotText(log[..|log| - 1]) + match log[|log| - 1] case Put(_, _) => [] case Got(_, data) => data
  }

  /** The chunks of one process. */
  function Of(log: seq<Chunk>, who: nat): seq<Chunk> {
    if log == [] then []
    else Of(log[..|log| - 1], who) + if log[|log| - 1].who == who then [log[|log| - 1]] else []
  }

  /** What was got, followed by what is in the pipe, is what was put. */
  ghost predicate Fifo(s: Stream) {
    GotText(s.log) + s.text == PutText(s.log)
  }

  lemma LogMore(log: seq<Chunk>, c: Chunk)
    ensures PutText(log + [c]) == PutText(log) + match c case Put(_, data) => data case Got(_, _) => []
    ensures GotText(log + [c]) == GotText(log) + match c case Put(_, _) => [] case Got(_, data) => data
    ensures forall who :: Of(log + [c], who) == Of(log, who) + if c.who == who then [c] else []
  {
    assert (log + [c])[..|log|] == log;
  }

  lemma TakenFifo(s: Stream, who: nat, n: nat)
    requires Fifo(s)
    ensures Fifo(Taken(s, who, n))
    ensures forall w | w != who :: Of(Taken(s, who, n).log, w) == Of(s.log, w)
  {
    var k := TakeSize(s, n);
    LogMore(s.log, Got(who, s.text[..k]));
    assert s.text == s.text[..k] + s.text[k..];
  }

  lemma GivenFifo(s: Stream, who: nat, data: seq<byte>)
    requires Fifo(s)
    ensures Fifo(Given(s, who, data))
    ensures forall w | w != who :: Of(Given(s, who, data).log, w) == Of(s.log, w)
  {
    LogMore(s.log, Put(who, data[..PutSize(s, |data|)]));
  }

  predicate NoneBy(who: nat, acts: seq<Act>) {
    forall i | 0 <= i < |acts| :: acts[i].who != who
  }

  predicate NotBy(who: nat, others: seq<seq<Act>>) {
    forall i | 0 <= i < |others| :: NoneBy(who, others[i])
  }

  lemma ActedFifo(s: Stream, a: Act, who: nat)
    requires Fifo(s) && a.who != who
    ensures Fifo(Acted(s, a)) && Of(Acted(s, a).log, who) == Of(s.log, who)
  {
    match a
    case Take(w, n) => TakenFifo(s, w, n);
    case Give(w, data) => GivenFifo(s, w, data);
  }

  lemma {:induction false} ActedAllFifo(s: Stream, acts: seq<Act>, who: nat)
    requires Fifo(s) && NoneBy(who, acts)
    ensures Fifo(ActedAll(s, acts)) && Of(ActedAll(s, acts).log, who) == Of(s.log, who)
  {
    if acts == [] {
    } else {
      var n := |acts| - 1;
      ActedAllFifo(s, acts[..n], who);
      ActedFifo(ActedAll(s, acts[..n]), acts[n], who);
    }
  }

  lemma BeforeFifo(s: Stream, others: seq<seq<Act>>, who: nat)
    requires Fifo(s) && NotBy(who, others)
    ensures Fifo(Before(s, others)) && Of(Before(s, others).log, who) == Of(s.log, who) && NotBy(who, Later(others))
  {
    if others != [] {
      ActedAllFifo(s, others[0], who);
    }
  }

  /** The bytes of a process's chunks. */
  function Bytes(log: seq<Chunk>): seq<byte> {
    if log == [] then [] else Bytes(log[..|log| - 1]) + log[|log| - 1].data
  }

  lemma BytesMore(log: seq<Chunk>, c: Chunk)
    ensures Bytes(log + [c]) == Bytes(log) + c.data
  {
    assert (log + [c])[..|log|] == log;
  }

  /** A process's own chunk. */
  lemma OwnTaken(s: Stream, who: nat, n: nat)
    requires Fifo(s) && n > 0 && s.text != []
    ensures Fifo(Taken(s, who, n)) && 0 < TakeSize(s, n) <= n
    ensures Bytes(Of(Taken(s, who, n).log, who)) == Bytes(Of(s.log, who)) + s.text[..TakeSize(s, n)]
  {
    var c := Got(who, s.text[..TakeSize(s, n)]);
    TakenFifo(s, who, n);
    LogMore(s.log, c);
    BytesMore(Of(s.log, who), c);
  }

  lemma OwnGiven(s: Stream, who: nat, data: seq<byte>)
    requires Fifo(s) && data != [] && |s.text| < PAGE_SIZE - 1
    ensures Fifo(Given(s, who, data)) && 0 < PutSize(s, |data|) <= |data|
    ensures Bytes(Of(Given(s, who, data).log, who)) == Bytes(Of(s.log, who)) + data[..PutSize(s, |data|)]
  {
    var c := Put(who, data[..PutSize(s, |data|)]);
    GivenFifo(s, who, data);
    LogMore(s.log, c);
    BytesMore(Of(s.log, who), c);
  }

  /** A chunk ends only when enough was got, the pipe is empty, or at the end of the page; one that is put, only
      when all was put, the pipe is full, or at the end of the page. */
  lemma ChunkEnds(s: Stream, n: nat)
    ensures var k := TakeSize(s, n); k <= n && k <= |s.text| && (k == n || k == |s.text| || s.tail + k == PAGE_SIZE)
    ensures var k, head := PutSize(s, n), Wrap(s.tail + |s.text|);
      k <= n && |s.text| + k <= PAGE_SIZE - 1 && (k == n || |s.text| + k == PAGE_SIZE - 1 || head + k == PAGE_SIZE)
  {
  }

  /** What is promised of a job that began with s: the pipe stays first in, first out, and the bytes it
      has moved are the process's own chunks of the log, in order. */
  ghost predicate Promise(s: Stream, r: Job, who: nat) {
    Fifo(r.s) && NotBy(who, r.left) && Bytes(Of(r.s.log, who)) == Bytes(Of(s.log, who)) + r.moved
  }

  /** A turn of a reader keeps the promise; it ends the call only when enough was got, or the pipe is
      empty and nothing is left of the others. */
  lemma ReadTurnKeeps(s: Stream, r: Job, who: nat)
    requires Promise(s, r, who)
    ensures var r' := ReadTurn(r, who);
      && Promise(s, r', who) && |r'.moved| + r'.want == |r.moved| + r.want
      && (!r.over && r'.over ==> r'.want == 0 || (r'.s.text == [] && r'.left == []))
      && (r'.over || |r'.left| + r'.want < |r.left| + r.want)
  {
    if !r.over && r.want > 0 {
      var s1 := Before(r.s, r.left);
      BeforeFifo(r.s, r.left, who);
      if s1.text != [] {
        OwnTaken(s1, who, r.want);
        MovedMore(Bytes(Of(s.log, who)), r.moved, s1.text[..TakeSize(s1, r.want)]);
      }
    }
  }

  lemma WriteTurnKeeps(s: Stream, r: Job, who: nat)
    requires Promise(s, r, who)
    ensures var r' := WriteTurn(r, who);
      && Promise(s, r', who) && r'.moved + r'.rest == r.moved + r.rest
      && (!r.over && r'.over ==> r'.rest == [] || (|r'.s.text| == PAGE_SIZE - 1 && r'.left == []))
      && (r'.over || |r'.left| + |r'.rest| < |r.left| + |r.rest|)
  {
    if !r.over && r.rest != [] {
      var s1 := Before(r.s, r.left);
      BeforeFifo(r.s, r.left, who);
      if |s1.text| < PAGE_SIZE - 1 {
        OwnGiven(s1, who, r.rest);
        var k := PutSize(s1, |r.rest|);
        MovedMore(Bytes(Of(s.log, who)), r.moved, r.rest[..k]);
        MovedMore(r.moved, r.rest[..k], r.rest[k..]);
        assert r.rest == r.rest[..k] + r.rest[k..];
      }
    }
  }

  lemma {:induction false} ReadTurnsKeep(s: Stream, r: Job, who: nat, n: nat)
    requires Promise(s, r, who) && !r.over
    ensures var r' := ReadTurns(r, who, n);
      && Promise(s, r', who) && |r'.moved| + r'.want == |r.moved| + r.want
      && (r'.over ==> r'.want == 0 || (r'.s.text == [] && r'.left == []))
      && (r'.over || n + |r'.left| + r'.want <= |r.left| + r.want)
  {
    if n == 0 {
    } else {
      ReadTurnsKeep(s, r, who, n - 1);
      ReadTurnKeeps(s, ReadTurns(r, who, n - 1), who);
    }
  }

  lemma {:induction false} WriteTurnsKeep(s: Stream, r: Job, who: nat, n: nat)
    requires Promise(s, r, who) && !r.over
    ensures var r' := WriteTurns(r, who, n);
      && Promise(s, r', who) && r'.moved + r'.rest == r.moved + r.rest
      && (r'.over ==> r'.rest == [] || (|r'.s.text| == PAGE_SIZE - 1 && r'.left == []))
      && (r'.over || n + |r'.left| + |r'.rest| <= |r.left| + |r.rest|)
  {
    if n == 0 {
    } else {
      WriteTurnsKeep(s, r, who, n - 1);
      WriteTurnKeeps(s, WriteTurns(r, who, n - 1), who);
    }
  }

  /** Whatever the others do before each of its chunks: the pipe stays first in, first out, a reader's bytes are
      its own chunks of the log in order, and it gets fewer than it wants only if the pipe is empty
      and nobody is left to write. */
  lemma ReadingFifo(s: Stream, who: nat, count: nat, others: seq<seq<Act>>)
    requires Fifo(s) && NotBy(who, others)
    ensures var r := Reading(s, who, count, others);
      && r.over && Fifo(r.s) && Bytes(Of(r.s.log, who)) == Bytes(Of(s.log, who)) + r.moved
      && |r.moved| <= count && (|r.moved| < count ==> r.s.text == [] && r.left == [])
  {
    ReadTurnsKeep(s, Job(s, [], count, [], others, false), who, |others| + count + 1);
  }

  /** The same for a writer: its bytes are a beginning of its data, and all of them unless the pipe is
      full and nobody is left to read. */
  lemma WritingFifo(s: Stream, who: nat, data: seq<byte>, others: seq<seq<Act>>)
    requires Fifo(s) && NotBy(who, others)
    ensures var r := Writing(s, who, data, others);
      && r.over && Fifo(r.s) && Bytes(Of(r.s.log, who)) == Bytes(Of(s.log, who)) + r.moved
      && r.moved <= data && (|r.moved| < |data| ==> |r.s.text| == PAGE_SIZE - 1 && r.left == [])
  {
    WriteTurnsKeep(s, Job(s, [], 0, data, others, false), who, |others| + |data| + 1);
    var r := Writing(s, who, data, others);
    assert data == r.moved + r.rest;
  }

  lemma TwoActs(s: Stream, a: Act, b: Act)
    ensures ActedAll(s, [a, b]) == Acted(Acted(s, a), b)
  {
    assert [a, b][..1] == [a] && [a][..0] == [];
    assert ActedAll(s, [a]) == Acted(ActedAll(s, [a][..0]), a);
  }

  /** A woken reader can be overtaken: process 1 waits for two bytes, process 2 puts in four, and process
      3 gets the first two before process 1 runs again. */
  lemma OvertakenExample()
    ensures var r := Reading(Empty, 1, 2, [[Give(2, [1, 2, 3, 4]), Take(3, 2)]]);
      r.s.log == [Put(2, [1, 2, 3, 4]), Got(3, [1, 2]), Got(1, [3, 4])] && r.moved == [3, 4]
  {
    var give, take := Give(2, [1, 2, 3, 4]), Take(3, 2);
    var others := [[give, take]];
    var r := Job(Empty, [], 2, [], others, false);
    TwoActs(Empty, give, take);
    var s1 := Acted(Empty, give);
    assert give.data[..4] == give.data && s1 == Snapshot(0, [1, 2, 3, 4], [Put(2, [1, 2, 3, 4])]);
    var s2 := Acted(s1, take);
    assert s1.text[..2] == [1, 2] && s1.text[2..] == [3, 4];
    assert s2 == Snapshot(2, [3, 4], s1.log + [Got(3, [1, 2])]);
    assert Before(Empty, others) == s2 && Later(others) == [] && s2.text[..2] == [3, 4];
    assert ReadTurn(r, 1) == Job(Taken(s2, 1, 2), [] + [3, 4], 0, [], [], false);
    assert ReadTurns(r, 1, 1) == ReadTurn(ReadTurns(r, 1, 0), 1);
    ReadingIs(r, Empty, 1, 2, others, 1);
  }

  // ----- the inode -----

  lemma Slices(data: seq<byte>, i: nat, k: nat)
    requires i + k <= |data|
    ensures data[i..][k..] == data[i + k..] && data[..i] + data[i..][..k] == data[..i + k]
  {
  }

  lemma ReadLast(r: Job, who: nat)
    requires r.over || r.want == 0
    ensures ReadTurn(r, who) == r.(over := true)
  {
  }

  lemma WriteLast(r: Job, who: nat)
    requires r.over || r.rest == []
    ensures WriteTurn(r, who) == r.(over := true)
  {
  }

  /** After the last turn, whether or not it was needed to see the end. */
  lemma ReadEnd(r: Job, who: nat, n: nat, total: nat)
    requires n < total && (ReadTurns(r, who, n).over || ReadTurns(r, who, n).want == 0)
    ensures ReadTurns(r, who, total) == ReadTurns(r, who, n).(over := true)
  {
    ReadLast(ReadTurns(r, who, n), who);
    ReadOver(r, who, n + 1, total);
  }

  lemma WriteEnd(r: Job, who: nat, n: nat, total: nat)
    requires n < total && (WriteTurns(r, who, n).over || WriteTurns(r, who, n).rest == [])
    ensures WriteTurns(r, who, total) == WriteTurns(r, who, n).(over := true)
  {
    WriteLast(WriteTurns(r, who, n), who);
    WriteOver(r, who, n + 1, total);
  }

  lemma ReadingIs(r: Job, s: Stream, who: nat, count: nat, others: seq<seq<Act>>, n: nat)
    requires r == Job(s, [], count, [], others, false) && n <= |others| + count
    requires ReadTurns(r, who, n).over || ReadTurns(r, who, n).want == 0
    ensures Reading(s, who, count, others) == ReadTurns(r, who, n).(over := true)
  {
    ReadEnd(r, who, n, |others| + count + 1);
  }

  lemma WritingIs(r: Job, s: Stream, who: nat, data: seq<byte>, others: seq<seq<Act>>, n: nat)
    requires r == Job(s, [], 0, data, others, false) && n <= |others| + |data|
    requires WriteTurns(r, who, n).over || WriteTurns(r, who, n).rest == []
    ensures Writing(s, who, data, others) == WriteTurns(r, who, n).(over := true)
  {
    WriteEnd(r, who, n, |others| + |data| + 1);
  }

  // ----- runs -----

  datatype Call = Read(who: nat, count: nat, meanwhile: seq<seq<Act>>) | Write(who: nat, data: seq<byte>, meanwhile: seq<seq<Act>>)

  function Called(s: Stream, c: Call): Job
  {
    match c
    case Read(who, count, others) => Reading(s, who, count, others)
    case Write(who, data, others) => Writing(s, who, data, others)
  }

  function RunOf(calls: seq<Call>): Stream
  {
    if calls == [] then Empty else Called(RunOf(calls[..|calls| - 1]), calls[|calls| - 1]).s
  }

  /** Over any run of calls, with any chunks of other processes before each of theirs: what was got is a
      beginning of what was put, the rest is in the pipe. */
  lemma {:induction false} RunFifo(calls: seq<Call>)
    requires forall i | 0 <= i < |calls| :: NotBy(calls[i].who, calls[i].meanwhile)
    ensures Fifo(RunOf(calls)) && GotText(RunOf(calls).log) <= PutText(RunOf(calls).log)
  {
    if calls == [] {
    } else {
      var n := |calls| - 1;
      RunFifo(calls[..n]);
      match calls[n]
      case Read(who, count, others) => ReadingFifo(RunOf(calls[..n]), who, count, others);
      case Write(who, data, others) => WritingFifo(RunOf(calls[..n]), who, data, others);
    }
  }

  lemma RunMore(calls: seq<Call>, i: nat)
    requires i < |calls|
    ensures RunOf(calls[..i + 1]) == Called(RunOf(calls[..i]), calls[i]).s
  {
    assert calls[..i + 1][..i] == calls[..i];
  }

  class PipeInode {
    const page: array<byte>
    var head: nat
    var tail: nat
    ghost var s: Stream

    ghost predicate Valid()
      reads this, page
    {
      && page.Length == PAGE_SIZE && head < PAGE_SIZE && tail < PAGE_SIZE
      && s.tail == tail && s.text == Ring(page[..], head, tail)
    }

    constructor ()
      ensures Valid() && fresh(page) && s == Empty
    {
      page := new byte[PAGE_SIZE](_ => 0);
      head, tail := 0, 0;
      s := Empty;
    }

    method CopyOut(from: nat, chars: nat) returns (got: seq<byte>)
      requires from + chars <= page.Length
      ensures got == page[from..from + chars]
    {
      got := [];
      while |got| < chars
        invariant |got| <= chars && got == page[from..from + |got|]
      {
        got := got + [page[from + |got|]];
      }
    }

    method CopyIn(from: nat, data: seq<byte>)
      requires from + |data| <= page.Length
      modifies page
      ensures page[..] == Patched(old(page[..]), from, data)
    {
      ghost var p := page[..];
      PatchedNone(p, from, data);
      var i := 0;
      while i < |data|
        invariant 0 <= i <= |data| && page[..] == Patched(p, from, data[..i])
      {
        page[from + i] := data[i];
        PatchedMore(p, from, data, i);
        i := i + 1;
      }
    }

    /** The size of the next chunk. */
    method TakeRoom(count: nat) returns (chars: nat)
      requires Valid()
      ensures chars == TakeSize(s, count)
    {
      var size := Wrap(head - tail);
      chars := PAGE_SIZE - tail;
      if chars > count {
        chars := count;
      }
      if chars > size {
        chars := size;
      }
    }

    /** One pass of read_pipe's loop while the pipe is not empty: as much as is wanted and lies in one
        piece. */
    method TakeChunk(who: nat, count: nat) returns (got: seq<byte>)
      requires Valid() && count > 0 && s.text != []
      modifies `tail, `s
      ensures Valid() && got == old(s).text[..TakeSize(old(s), count)] != [] && s == Taken(old(s), who, count)
    {
      var chars := TakeRoom(count);
      RingTake(page[..], head, tail, chars);
      var from := tail;
      tail := Wrap(tail + chars);
      got := CopyOut(from, chars);
      s := Taken(s, who, count);
    }

    /** The size of the next chunk. */
    method PutRoom(count: nat) returns (n: nat)
      requires Valid()
      ensures n == PutSize(s, count)
    {
      var size := PAGE_SIZE - 1 - Wrap(head - tail);
      n := PAGE_SIZE - head;
      if n > count {
        n := count;
      }
      if n > size {
        n := size;
      }
    }

    /** One pass of write_pipe's loop while there is room. */
    method PutChunk(who: nat, data: seq<byte>) returns (n: nat)
      requires Valid() && data != [] && |s.text| < PAGE_SIZE - 1
      modifies page, `head, `s
      ensures Valid() && 0 < n == PutSize(old(s), |data|) <= |data| && s == Given(old(s), who, data)
    {
      n := PutRoom(|data|);
      RingPut(page[..], head, tail, data[..n]);
      var from := head;
      head := Wrap(head + n);
      CopyIn(from, data[..n]);
      s := Given(s, who, data);
    }

    /** A chunk of another process, if it can move one now. */
    method OtherAct(a: Act)
      requires Valid()
      modifies page, `head, `tail, `s
      ensures Valid() && s == Acted(old(s), a)
    {
      match a
      case Take(who, n) =>
        if n > 0 && head != tail {
          var got := TakeChunk(who, n);
        }
      case Give(who, data) =>
        if data != [] && Wrap(head - tail) != PAGE_SIZE - 1 {
          var n := PutChunk(who, data);
        }
    }

    /** The acts of one list. */
    method OtherActs(acts: seq<Act>)
      requires Valid()
      modifies page, `head, `tail, `s
      ensures Valid() && s == ActedAll(old(s), acts)
    {
      var i := 0;
      while i < |acts|
        invariant 0 <= i <= |acts| && Valid() && s == ActedAll(old(s), acts[..i])
      {
        OtherAct(acts[i]);
        i := i + 1;
        assert acts[..i][..i - 1] == acts[..i - 1];
      }
      assert acts[..i] == acts;
    }

    /** What the others do before the next turn. */
    method NextActs(others: seq<seq<Act>>, i: nat) returns (next: nat)
      requires Valid() && i <= |others|
      modifies page, `head, `tail, `s
      ensures Valid() && s == Before(old(s), others[i..])
      ensures i <= next <= |others| && others[next..] == Later(others[i..]) && (i < |others| ==> i < next)
    {
      next := i;
      if i < |others| {
        OtherActs(others[i]);
        next := i + 1;
      }
    }

    /** A turn of read_pipe that still wants bytes. */
    method ReadOnce(who: nat, want: nat, others: seq<seq<Act>>, i: nat, ghost r: Job) returns (chunk: seq<byte>, next: nat, over: bool)
      requires Valid() && want > 0 && i <= |others| && r == Job(s, r.moved, want, r.rest, others[i..], false)
      modifies page, `head, `tail, `s
      ensures Valid() && i <= next <= |others| && |chunk| <= want && (over || i < next || chunk != [])
      ensures ReadTurn(r, who) == Job(s, r.moved + chunk, want - |chunk|, r.rest, others[next..], over)
    {
      next := NextActs(others, i);
      ReadTurnIs(r, who, s, others[next..]);
      chunk, over := [], false;
      if head == tail {
        over := next == |others|;
      } else {
        chunk := TakeChunk(who, want);
      }
    }

    /** read_pipe. Before each of its chunks, and while the pipe is empty, the others act. */
    method ReadPipe(who: nat, count: nat, others: seq<seq<Act>>) returns (got: seq<byte>)
      requires Valid()
      modifies page, `head, `tail, `s
      ensures Valid() && s == Reading(old(s), who, count, others).s && got == Reading(old(s), who, count, others).moved
    {
      got := [];
      var i, over := 0, false;
      ghost var r0, n := Job(s, [], count, [], others, false), 0;
      ghost var r := r0;
      assert others[0..] == others;
      while |got| < count && !over
        invariant Valid() && 0 <= i <= |others| && |got| <= count
        invariant r == ReadTurns(r0, who, n)
        invariant r == Job(s, got, count - |got|, [], others[i..], over)
        invariant if over then n <= |others| + count else n + |others| - i + count - |got| <= |others| + count
        decreases !over, |others| - i, count - |got|
      {
        var chunk;
        ghost var r1 := r;
        chunk, i, over := ReadOnce(who, count - |got|, others, i, r1);
        got := got + chunk;
        r, n := ReadTurn(r1, who), n + 1;
      }
      ReadingIs(r0, r0.s, who, count, others, n);
    }

    /** A turn of write_pipe that still has bytes. */
    method WriteOnce(who: nat, rest: seq<byte>, others: seq<seq<Act>>, i: nat, ghost r: Job) returns (k: nat, next: nat, over: bool)
      requires Valid() && rest != [] && i <= |others| && r == Job(s, r.moved, r.want, rest, others[i..], false)
      modifies page, `head, `tail, `s
      ensures Valid() && i <= next <= |others| && k <= |rest| && (over || i < next || k > 0)
      ensures WriteTurn(r, who) == Job(s, r.moved + rest[..k], r.want, rest[k..], others[next..], over)
    {
      next := NextActs(others, i);
      WriteTurnIs(r, who, s, others[next..]);
      k, over := 0, false;
      if Wrap(head - tail) == PAGE_SIZE - 1 {
        over := next == |others|;
      } else {
        k := PutChunk(who, rest);
      }
    }

    /** The same, in terms of all the data. */
    method WriteMore(who: nat, data: seq<byte>, done: nat, others: seq<seq<Act>>, i: nat, ghost r: Job)
        returns (done': nat, next: nat, over: bool)
      requires Valid() && done < |data| && i <= |others| && r == Job(s, data[..done], 0, data[done..], others[i..], false)
      modifies page, `head, `tail, `s
      ensures Valid() && i <= next <= |others| && done <= done' <= |data| && (over || i < next || done < done')
      ensures WriteTurn(r, who) == Job(s, data[..done'], 0, data[done'..], others[next..], over)
    {
      var k;
      k, next, over := WriteOnce(who, data[done..], others, i, r);
      Slices(data, done, k);
      done' := done + k;
    }

    /** write_pipe. The result is the number of bytes that went in; -1 is its error if none did for
        want of readers. */
    method WritePipe(who: nat, data: seq<byte>, others: seq<seq<Act>>) returns (n: int)
      requires Valid()
      modifies page, `head, `tail, `s
      ensures Valid()
      ensures s == Writing(old(s), who, data, others).s
      ensures var moved := Writing(old(s), who, data, others).moved; n == if moved == [] && data != [] then -1 else |moved|
    {
      var done, i, over := 0, 0, false;
      ghost var r0, m := Job(s, [], 0, data, others, false), 0;
      ghost var r := r0;
      assert others[0..] == others && data[0..] == data && data[..0] == [];
      while done < |data| && !over
        invariant Valid() && 0 <= i <= |others| && 0 <= done <= |data|
        invariant r == WriteTurns(r0, who, m) && r == Job(s, data[..done], 0, data[done..], others[i..], over)
        invariant if over then m <= |others| + |data| else m + |others| - i + |data| - done <= |others| + |data|
        decreases !over, |others| - i, |data| - done
      {
        ghost var r1 := r;
        done, i, over := WriteMore(who, data, done, others, i, r1);
        r, m := WriteTurn(r1, who), m + 1;
      }
      WritingIs(r0, r0.s, who, data, others, m);
      n := if done == 0 && data != [] then -1 else done;
    }
  }

  method DoCall(p: PipeInode, c: Call) returns (got: seq<byte>)
    requires p.Valid()
    modifies p, p.page
    ensures p.Valid() && p.s == Called(old(p.s), c).s && got == if c.Read? then Called(old(p.s), c).moved else []
  {
    got := [];
    match c
    case Read(who, count, others) => got := p.ReadPipe(who, count, others);
    case Write(who, data, others) => var n := p.WritePipe(who, data, others);
  }

  /** What the readers among the calls get; nothing for a writer. */
  function Answers(calls: seq<Call>): seq<seq<byte>> {
    if calls == [] then []
    else
      var n := |calls| - 1;
      Answers(calls[..n]) + [if calls[n].Read? then Called(RunOf(calls[..n]), calls[n]).moved else []]
  }

  lemma AnswersMore(calls: seq<Call>, i: nat)
    requires i < |calls|
    ensures Answers(calls[..i + 1]) == Answers(calls[..i]) + [if calls[i].Read? then Called(RunOf(calls[..i]), calls[i]).moved else []]
  {
    assert calls[..i + 1][..i] == calls[..i];
  }

  /** The methods applied to a list of calls: the pipe, and what each reader got. */
  method Execute(calls: seq<Call>) returns (p: PipeInode, got: seq<seq<byte>>)
    ensures p.Valid() && p.s == RunOf(calls) && got == Answers(calls)
  {
    p := new PipeInode();
    got := [];
    var i := 0;
    assert calls[..0] == [];
    while i < |calls|
      invariant 0 <= i <= |calls| && fresh(p) && fresh(p.page) && p.Valid()
      invariant p.s == RunOf(calls[..i]) && got == Answers(calls[..i])
    {
      RunMore(calls, i);
      AnswersMore(calls, i);
      var bytes := DoCall(p, calls[i]);
      got := got + [bytes];
      i := i + 1;
    }
    assert calls[..|calls|] == calls;
  }
}
