/** The pointer structure of fs/buffer.c: hash chains and the circular free list, threaded through
    the buffer heads. A pointer to a buffer head is its index; NULL is -1. */
module BufferQueues {
  import opened Sequences

  const NR_HASH := 307
  const NULL := -1

  datatype Cmd = Read | Write

  /** Why a buffer is locked: somebody wants a request slot for it, this task or another, or its request
      is in the queue of the device. */
  datatype Io = Idle | Asked(cmd: Cmd, own: bool) | Queued(cmd: Cmd)

  /** A buffer head. The last two fields stand for what is not stored in it: how many of its users are this
      task's, and what the request table says of it. */
  datatype Buf = Buf(dev: nat, block: nat, uptodate: bool, dirt: bool, count: nat, lock: bool,
                     prev: int, next: int, prevFree: int, nextFree: int, own: nat, io: Io)

  /** `dev ^ block` */
  function Xor(a: nat, b: nat): nat {
    if a == 0 then b else if b == 0 then a
    else (if a % 2 == b % 2 then 0 else 1) + 2 * Xor(a / 2, b / 2)
  }

  function Hash(dev: nat, block: nat): (h: nat)
    ensures h < NR_HASH
  {
    Xor(dev, block) % NR_HASH
  }

  function Without(s: seq<nat>, x: nat): seq<nat> {
    if s == [] then [] else if s[0] == x then s[1..] else [s[0]] + Without(s[1..], x)
  }

  lemma {:induction false} WithoutAt(s: seq<nat>, k: nat)
    requires Distinct(s) && k < |s|
    ensures Without(s, s[k]) == s[..k] + s[k + 1..]
  {
    if k == 0 {
    } else {
      WithoutAt(s[1..], k - 1);
      assert s[..k] == [s[0]] + s[1..][..k - 1];
      assert s[1..][k..] == s[k + 1..];
    }
  }

  // ----- the circular free list -----

  /** Neighbours on a ring of |s| places. */
  function Succ(s: seq<nat>, i: nat): (j: nat)
    requires i < |s|
    ensures j < |s|
  {
    if i + 1 == |s| then 0 else i + 1
  }

  function Pred(s: seq<nat>, i: nat): (j: nat)
    requires i < |s|
    ensures j < |s|
  {
    if i == 0 then |s| - 1 else i - 1
  }

  predicate RingAt(bufs: seq<Buf>, s: seq<nat>, i: nat)
    requires i < |s|
  {
    s[i] < |bufs| && bufs[s[i]].nextFree == s[Succ(s, i)] && bufs[s[i]].prevFree == s[Pred(s, i)]
  }

  /** The buffers in s, in order, form one ring through nextFree and prevFree that starts at head. */
  ghost predicate Ring(bufs: seq<Buf>, head: int, s: seq<nat>) {
    && Distinct(s)
    && (forall i | 0 <= i < |s| :: s[i] < |bufs|)
    && (s != [] ==> head == s[0])
    && (forall i | 0 <= i < |s| :: RingAt(bufs, s, i))
  }

  /** Nothing but free-list links differs. */
  ghost predicate SameButFree(bufs: seq<Buf>, bufs': seq<Buf>) {
    && |bufs'| == |bufs|
    && forall b | 0 <= b < |bufs| ::
         bufs'[b] == bufs[b].(nextFree := bufs'[b].nextFree, prevFree := bufs'[b].prevFree)
  }

  ghost predicate SameButHash(bufs: seq<Buf>, bufs': seq<Buf>) {
    && |bufs'| == |bufs|
    && forall b | 0 <= b < |bufs| :: bufs'[b] == bufs[b].(next := bufs'[b].next, prev := bufs'[b].prev)
  }

  /** The two stores that take x out of the ring. */
  function RingUnlinked(bufs: seq<Buf>, x: nat): seq<Buf>
    requires x < |bufs| && 0 <= bufs[x].prevFree < |bufs| && 0 <= bufs[x].nextFree < |bufs|
  {
    var p, n := bufs[x].prevFree, bufs[x].nextFree;
    var b1 := bufs[p := bufs[p].(nextFree := n)];
    b1[n := b1[n].(prevFree := p)]
  }

  /** What one element of the ring points to once s[k] is gone. */
  lemma LeaveRingAt(bufs: seq<Buf>, head: int, s: seq<nat>, k: nat, j: nat)
    requires Ring(bufs, head, s) && k < |s| && j < |s| && j != k
    ensures 0 <= bufs[s[k]].prevFree < |bufs| && 0 <= bufs[s[k]].nextFree < |bufs|
    ensures var b' := RingUnlinked(bufs, s[k]);
      && b'[s[j]].nextFree == (if Succ(s, j) == k then s[Succ(s, k)] else s[Succ(s, j)])
      && b'[s[j]].prevFree == (if Pred(s, j) == k then s[Pred(s, k)] else s[Pred(s, j)])
  {
    var kp, kn := Pred(s, k), Succ(s, k);
    assert RingAt(bufs, s, k) && RingAt(bufs, s, j);
    assert j != kp ==> s[j] != s[kp];
    assert j != kn ==> s[j] != s[kn];
  }

  lemma RingAtAfter(bufs: seq<Buf>, head: int, s: seq<nat>, k: nat, i: nat)
    requires Ring(bufs, head, s) && k < |s| && i < |s| - 1
    ensures 0 <= bufs[s[k]].prevFree < |bufs| && 0 <= bufs[s[k]].nextFree < |bufs|
    ensures RingAt(RingUnlinked(bufs, s[k]), s[..k] + s[k + 1..], i)
  {
    var s', j := s[..k] + s[k + 1..], if i < k then i else i + 1;
    LeaveRingAt(bufs, head, s, k, j);
    assert s'[i] == s[j];
    var n, p := Succ(s', i), Pred(s', i);
    assert s'[n] == s[if n < k then n else n + 1];
    assert s'[p] == s[if p < k then p else p + 1];
  }

  lemma LeaveRing(bufs: seq<Buf>, head: int, s: seq<nat>, k: nat)
    requires Ring(bufs, head, s) && k < |s|
    ensures 0 <= bufs[s[k]].prevFree < |bufs| && 0 <= bufs[s[k]].nextFree < |bufs|
    ensures var b' := RingUnlinked(bufs, s[k]); var s' := s[..k] + s[k + 1..];
      && Ring(b', if head == s[k] then bufs[s[k]].nextFree else head, s')
      && SameButFree(bufs, b')
      && (s' == [] ==> b'[s[k]].nextFree == s[k] && b'[s[k]].prevFree == s[k])
  {
    assert RingAt(bufs, s, k);
    var b', s' := RingUnlinked(bufs, s[k]), s[..k] + s[k + 1..];
    LeftOut(s, k);
    forall i | 0 <= i < |s'|
      ensures RingAt(b', s', i)
    {
      RingAtAfter(bufs, head, s, k, i);
    }
  }

  /** The four stores that put x at the end of the ring, just before the head. */
  function RingLinked(bufs: seq<Buf>, x: nat, head: nat): seq<Buf>
    requires x < |bufs| && head < |bufs| && 0 <= bufs[head].prevFree < |bufs|
  {
    var last := bufs[head].prevFree;
    var b1 := bufs[x := bufs[x].(nextFree := head, prevFree := last)];
    var b2 := b1[last := b1[last].(nextFree := x)];
    b2[head := b2[head].(prevFree := x)]
  }

  lemma JoinRingAt(bufs: seq<Buf>, head: nat, s: seq<nat>, x: nat, i: nat)
    requires Ring(bufs, head, s) && x < |bufs| && x !in s && s != [] && i <= |s|
    requires 0 <= bufs[head].prevFree < |bufs|
    ensures RingAt(RingLinked(bufs, x, head), s + [x], i)
  {
    var n, s' := |s|, s + [x];
    assert RingAt(bufs, s, 0);
    if i < n {
      assert s'[i] == s[i] && RingAt(bufs, s, i);
      assert i != 0 ==> s[i] != s[0];
      assert i != n - 1 ==> s[i] != s[n - 1];
    }
  }

  lemma JoinRing(bufs: seq<Buf>, head: nat, s: seq<nat>, x: nat)
    requires Ring(bufs, head, s) && x < |bufs| && x !in s
    requires s == [] ==> head == x && bufs[x].nextFree == x && bufs[x].prevFree == x
    ensures head < |bufs| && 0 <= bufs[head].prevFree < |bufs|
    ensures Ring(RingLinked(bufs, x, head), head, s + [x]) && SameButFree(bufs, RingLinked(bufs, x, head))
  {
    if s != [] {
      assert RingAt(bufs, s, 0);
      var b', s' := RingLinked(bufs, x, head), s + [x];
      forall i | 0 <= i < |s'|
        ensures RingAt(b', s', i)
      {
        JoinRingAt(bufs, head, s, x, i);
      }
    }
  }

  // ----- hash chains -----

  function After(s: seq<nat>, i: nat): int {
    if i + 1 < |s| then s[i + 1] else NULL
  }

  function Before(s: seq<nat>, i: nat): int {
    if 0 < i <= |s| then s[i - 1] else NULL
  }

  predicate ChainAt(bufs: seq<Buf>, s: seq<nat>, i: nat)
    requires i < |s|
  {
    s[i] < |bufs| && bufs[s[i]].next == After(s, i) && bufs[s[i]].prev == Before(s, i)
  }

  /** Chain h starts at its table entry and is linked both ways, ending in NULL. */
  ghost predicate Chain(bufs: seq<Buf>, head: int, s: seq<nat>) {
    && Distinct(s)
    && (forall i | 0 <= i < |s| :: s[i] < |bufs|)
    && head == (if s == [] then NULL else s[0])
    && (forall i | 0 <= i < |s| :: ChainAt(bufs, s, i))
  }

  /** Each chain holds exactly the buffers with a device that hash to it; `out`, if not NULL, is a
      buffer that is in no chain at the moment. */
  ghost predicate Chains(bufs: seq<Buf>, hash: seq<int>, chain: seq<seq<nat>>, out: int) {
    && |hash| == |chain| == NR_HASH
    && (forall h | 0 <= h < NR_HASH :: Chain(bufs, hash[h], chain[h]))
    && (forall h, b | 0 <= h < NR_HASH && b in chain[h] ::
          b < |bufs| && b != out && bufs[b].dev != 0 && Hash(bufs[b].dev, bufs[b].block) == h)
    && (forall b: nat | b < |bufs| && b != out && bufs[b].dev != 0 :: b in chain[Hash(bufs[b].dev, bufs[b].block)])
    && (forall b: nat | b < |bufs| && b != out && bufs[b].dev == 0 :: bufs[b].next == NULL && bufs[b].prev == NULL)
  }

  /** The stores that take x out of its chain, and the new head of the chain. */
  function ChainUnlinked(bufs: seq<Buf>, x: nat): seq<Buf>
    requires x < |bufs| && NULL <= bufs[x].prev < |bufs| && NULL <= bufs[x].next < |bufs|
  {
    var p, n := bufs[x].prev, bufs[x].next;
    var b1 := if n != NULL then bufs[n := bufs[n].(prev := p)] else bufs;
    if p != NULL then b1[p := b1[p].(next := n)] else b1
  }

  /** What one element of the chain points to once s[k] is gone. */
  lemma LeaveChainAt(bufs: seq<Buf>, head: int, s: seq<nat>, k: nat, i: nat)
    requires Chain(bufs, head, s) && k < |s| && i < |s| - 1
    requires NULL <= bufs[s[k]].prev < |bufs| && NULL <= bufs[s[k]].next < |bufs|
    ensures ChainAt(ChainUnlinked(bufs, s[k]), s[..k] + s[k + 1..], i)
  {
    var n, s', j := |s|, s[..k] + s[k + 1..], if i < k then i else i + 1;
    assert ChainAt(bufs, s, k) && ChainAt(bufs, s, j);
    assert s'[i] == s[j] && (i > 0 ==> s'[i - 1] == s[if i - 1 < k then i - 1 else i]);
    assert i + 1 < n - 1 ==> s'[i + 1] == s[if i + 1 < k then i + 1 else i + 2];
    assert k > 0 && j != k - 1 ==> s[j] != s[k - 1];
    assert k + 1 < n && j != k + 1 ==> s[j] != s[k + 1];
  }

  lemma LeaveChain(bufs: seq<Buf>, head: int, s: seq<nat>, k: nat)
    requires Chain(bufs, head, s) && k < |s|
    ensures NULL <= bufs[s[k]].prev < |bufs| && NULL <= bufs[s[k]].next < |bufs|
    ensures var b' := ChainUnlinked(bufs, s[k]);
      && Chain(b', if head == s[k] then bufs[s[k]].next else head, s[..k] + s[k + 1..])
      && SameButHash(bufs, b')
      && (forall b: nat | b < |bufs| && b !in s :: b'[b] == bufs[b])
      && b'[s[k]] == bufs[s[k]]
  {
    assert ChainAt(bufs, s, k);
    LeftOut(s, k);
    var b', s' := ChainUnlinked(bufs, s[k]), s[..k] + s[k + 1..];
    forall i | 0 <= i < |s'|
      ensures ChainAt(b', s', i)
    {
      LeaveChainAt(bufs, head, s, k, i);
    }
  }

  /** The stores that put x in front of a chain. */
  function ChainLinked(bufs: seq<Buf>, x: nat, head: int): seq<Buf>
    requires x < |bufs| && NULL <= head < |bufs|
  {
    var b1 := bufs[x := bufs[x].(prev := NULL, next := head)];
    if head != NULL then b1[head := b1[head].(prev := x)] else b1
  }

  lemma JoinChain(bufs: seq<Buf>, head: int, s: seq<nat>, x: nat)
    requires Chain(bufs, head, s) && x < |bufs| && x !in s
    ensures NULL <= head < |bufs|
    ensures Chain(ChainLinked(bufs, x, head), x, [x] + s) && SameButHash(bufs, ChainLinked(bufs, x, head))
    ensures forall b: nat | b < |bufs| && b != x && b !in s :: ChainLinked(bufs, x, head)[b] == bufs[b]
  {
    var b', s' := ChainLinked(bufs, x, head), [x] + s;
    forall i | 0 <= i < |s'|
      ensures ChainAt(b', s', i)
    {
      if i > 0 {
        var j := i - 1;
        assert s'[i] == s[j] && s[j] != x;
        assert j > 0 ==> s[j] != s[0] && s'[i - 1] == s[j - 1];
        assert ChainAt(bufs, s, j);
      }
    }
  }

  /** A chain whose buffers keep their links is still a chain. */
  lemma ChainKept(bufs: seq<Buf>, bufs': seq<Buf>, head: int, s: seq<nat>)
    requires Chain(bufs, head, s) && |bufs'| == |bufs|
    requires forall b: nat | b < |bufs| && b in s :: bufs'[b].next == bufs[b].next && bufs'[b].prev == bufs[b].prev
    ensures Chain(bufs', head, s)
  {
    forall i | 0 <= i < |s|
      ensures ChainAt(bufs', s, i)
    {
      assert ChainAt(bufs, s, i);
    }
  }

  // ----- all chains together -----

  /** remove_from_queues, hash part, on the table entries. */
  function HashUnlinked(bufs: seq<Buf>, hash: seq<int>, x: nat): seq<int>
    requires x < |bufs| && |hash| == NR_HASH
  {
    var h := Hash(bufs[x].dev, bufs[x].block);
    if hash[h] == x then hash[h := bufs[x].next] else hash
  }

  ghost function ChainsWithout(bufs: seq<Buf>, chain: seq<seq<nat>>, x: nat): seq<seq<nat>>
    requires x < |bufs| && |chain| == NR_HASH
  {
    if bufs[x].dev == 0 then chain
    else var h := Hash(bufs[x].dev, bufs[x].block); chain[h := Without(chain[h], x)]
  }

  lemma MemberOfWithout(s: seq<nat>, x: nat, y: nat)
    requires Distinct(s)
    ensures y in Without(s, x) <==> y in s && y != x
  {
    if x in s {
      var k :| 0 <= k < |s| && s[k] == x;
      WithoutAt(s, k);
      assert s == s[..k] + [x] + s[k + 1..];
    } else {
      NotThere(s, x);
    }
  }

  lemma NotThere(s: seq<nat>, x: nat)
    requires x !in s
    ensures Without(s, x) == s
  {
  }

  /** The chains, once x with a device has left its own. */
  lemma ChainsLeft(bufs: seq<Buf>, hash: seq<int>, chain: seq<seq<nat>>, x: nat, g: nat)
    requires Chains(bufs, hash, chain, NULL) && x < |bufs| && bufs[x].dev != 0 && g < NR_HASH
    ensures NULL <= bufs[x].prev < |bufs| && NULL <= bufs[x].next < |bufs|
    ensures Chain(ChainUnlinked(bufs, x), HashUnlinked(bufs, hash, x)[g], ChainsWithout(bufs, chain, x)[g])
    ensures SameButHash(bufs, ChainUnlinked(bufs, x)) && ChainUnlinked(bufs, x)[x] == bufs[x]
    ensures forall b: nat | b < |bufs| && b !in chain[Hash(bufs[x].dev, bufs[x].block)] :: ChainUnlinked(bufs, x)[b] == bufs[b]
  {
    var h := Hash(bufs[x].dev, bufs[x].block);
    var s := chain[h];
    var k :| 0 <= k < |s| && s[k] == x;
    assert Chain(bufs, hash[h], s);
    LeaveChain(bufs, hash[h], s, k);
    WithoutAt(s, k);
    if g != h {
      assert Chain(bufs, hash[g], chain[g]);
      ChainKept(bufs, ChainUnlinked(bufs, x), hash[g], chain[g]);
    }
  }

  lemma LeaveChains(bufs: seq<Buf>, hash: seq<int>, chain: seq<seq<nat>>, x: nat)
    requires Chains(bufs, hash, chain, NULL) && x < |bufs|
    ensures NULL <= bufs[x].prev < |bufs| && NULL <= bufs[x].next < |bufs|
    ensures SameButHash(bufs, ChainUnlinked(bufs, x)) && ChainUnlinked(bufs, x)[x] == bufs[x]
    ensures Chains(ChainUnlinked(bufs, x), HashUnlinked(bufs, hash, x), ChainsWithout(bufs, chain, x), x)
  {
    var h := Hash(bufs[x].dev, bufs[x].block);
    if bufs[x].dev == 0 {
      assert x !in chain[h];
      assert Chain(bufs, hash[h], chain[h]);
    } else {
      var s := chain[h];
      assert Chain(bufs, hash[h], s);
      ChainsLeft(bufs, hash, chain, x, h);
      var bufs', hash', chain' := ChainUnlinked(bufs, x), HashUnlinked(bufs, hash, x), ChainsWithout(bufs, chain, x);
      forall g | 0 <= g < NR_HASH
        ensures Chain(bufs', hash'[g], chain'[g])
      {
        ChainsLeft(bufs, hash, chain, x, g);
      }
      forall g, b | 0 <= g < NR_HASH && b in chain'[g]
        ensures b < |bufs'| && b != x && bufs'[b].dev != 0 && Hash(bufs'[b].dev, bufs'[b].block) == g
      {
        MemberOfWithout(s, x, b);
        assert b in chain[g];
      }
      forall b: nat | b < |bufs'| && b != x && bufs'[b].dev != 0
        ensures b in chain'[Hash(bufs'[b].dev, bufs'[b].block)]
      {
        MemberOfWithout(s, x, b);
      }
      forall b: nat | b < |bufs'| && b != x && bufs'[b].dev == 0
        ensures bufs'[b].next == NULL && bufs'[b].prev == NULL
      {
        assert b !in s;
      }
    }
  }

  /** insert_into_queues, hash part: nothing for a buffer without device. */
  function HashLinked(bufs: seq<Buf>, hash: seq<int>, x: nat): seq<int>
    requires x < |bufs| && |hash| == NR_HASH
  {
    if bufs[x].dev == 0 then hash else hash[Hash(bufs[x].dev, bufs[x].block) := x]
  }

  function BufsLinked(bufs: seq<Buf>, hash: seq<int>, x: nat): seq<Buf>
    requires x < |bufs| && |hash| == NR_HASH
  {
    var head := hash[Hash(bufs[x].dev, bufs[x].block)];
    if bufs[x].dev == 0 || !(NULL <= head < |bufs|) then bufs[x := bufs[x].(prev := NULL, next := NULL)]
    else ChainLinked(bufs, x, head)
  }

  ghost function ChainsWith(bufs: seq<Buf>, chain: seq<seq<nat>>, x: nat): seq<seq<nat>>
    requires x < |bufs| && |chain| == NR_HASH
  {
    if bufs[x].dev == 0 then chain
    else var h := Hash(bufs[x].dev, bufs[x].block); chain[h := [x] + chain[h]]
  }

  lemma JoinChains(bufs: seq<Buf>, hash: seq<int>, chain: seq<seq<nat>>, x: nat)
    requires Chains(bufs, hash, chain, x) && x < |bufs|
    ensures NULL <= hash[Hash(bufs[x].dev, bufs[x].block)] < |bufs|
    ensures SameButHash(bufs, BufsLinked(bufs, hash, x))
    ensures Chains(BufsLinked(bufs, hash, x), HashLinked(bufs, hash, x), ChainsWith(bufs, chain, x), NULL)
  {
    var h := Hash(bufs[x].dev, bufs[x].block);
    assert Chain(bufs, hash[h], chain[h]);
    assert x !in chain[h];
    var bufs', hash', chain' := BufsLinked(bufs, hash, x), HashLinked(bufs, hash, x), ChainsWith(bufs, chain, x);
    JoinChain(bufs, hash[h], chain[h], x);
    forall g | 0 <= g < NR_HASH
      ensures Chain(bufs', hash'[g], chain'[g])
    {
      assert Chain(bufs, hash[g], chain[g]);
      if g != h || bufs[x].dev == 0 {
        assert x !in chain[g];
        ChainKept(bufs, bufs', hash[g], chain[g]);
      }
    }
    forall g, b | 0 <= g < NR_HASH && b in chain'[g]
      ensures b < |bufs'| && b != NULL && bufs'[b].dev != 0 && Hash(bufs'[b].dev, bufs'[b].block) == g
    {
      if b != x {
        assert b in chain[g];
      }
    }
    forall b: nat | b < |bufs'| && bufs'[b].dev == 0
      ensures bufs'[b].next == NULL && bufs'[b].prev == NULL
    {
      if b != x {
        assert b !in chain[h];
      }
    }
  }
}
