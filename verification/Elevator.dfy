/** The request queues of kernel/blk_drv/ll_rw_blk.c: one table of request slots, and for every major
    device number a list of them; each request owns the lock of its buffer. */
module Elevator {
  import opened Sequences
  import opened ElevatorOrder

  const NR_REQUEST := 32
  const NR_BLK_DEV := 7
  const MAX_ERRORS := 7
  const NIL := -1
  const PENDING := -2

  datatype Req = Req(dev: int, cmd: int, errors: int, sector: int, left: int, bh: nat, next: int)

  datatype Buf = Buf(dev: int, block: int, lock: bool, dirt: bool, uptodate: bool)

  /** `current` is the head of each device's list. For the specification: the slots in each list
      (`queue`), and who holds each buffer's lock (`owner`): a slot, PENDING for a caller that waits
      for a slot, NIL for nobody. */
  datatype Disk = Disk(req: seq<Req>, current: seq<int>, buf: seq<Buf>, queue: seq<seq<nat>>, owner: seq<int>)

  function Major(dev: int): int {
    dev / 256
  }

  function KeyOf(r: Req): Key {
    Key(r.cmd, r.dev, r.sector)
  }

  /** The keys of the requests in q, in order. */
  function Line(req: seq<Req>, q: seq<nat>): seq<Key> {
    seq(|q|, i requires 0 <= i < |q| => if q[i] < |req| then KeyOf(req[q[i]]) else Key(0, 0, 0))
  }

  // ----- invariants -----

  predicate LinkAt(req: seq<Req>, q: seq<nat>, i: nat)
    requires i < |q|
  {
    q[i] < |req| && req[q[i]].next == if i + 1 < |q| then q[i + 1] else NIL
  }

  ghost predicate Listed(req: seq<Req>, head: int, q: seq<nat>) {
    && Distinct(q) && head == (if q == [] then NIL else q[0])
    && (forall i | 0 <= i < |q| :: LinkAt(req, q, i))
  }

  /** Slot s is free and in no list, or in the list of its device. */
  ghost predicate SlotOk(k: Disk, s: nat)
    requires s < |k.req|
  {
    && (k.req[s].dev >= 0 ==> 0 < Major(k.req[s].dev) < |k.queue|)
    && (forall m: nat | m < |k.queue| :: s in k.queue[m] <==> k.req[s].dev >= 0 && Major(k.req[s].dev) == m)
  }

  function OwnerOf(k: Disk, x: nat): int {
    if x < |k.owner| then k.owner[x] else NIL
  }

  /** A request is for the block of a buffer that it has locked. Only the head of a list can be
      between its two sectors. */
  ghost predicate ReqOk(k: Disk, s: nat)
    requires s < |k.req|
  {
    var r := k.req[s];
    r.dev >= 0 ==>
      && r.bh < |k.buf| && OwnerOf(k, r.bh) == s && k.buf[r.bh].dev == r.dev && r.cmd in {READ, WRITE}
      && (r.sector == 2 * k.buf[r.bh].block || (r.sector == 2 * k.buf[r.bh].block + 1 && IsHead(k, s)))
      && r.left == 2 * k.buf[r.bh].block + 2 - r.sector
  }

  predicate IsHead(k: Disk, s: nat) {
    s < |k.req| && 0 <= Major(k.req[s].dev) < |k.current| && k.current[Major(k.req[s].dev)] == s
  }

  /** A buffer is locked exactly if it has an owner, and a request that owns it is for it. */
  ghost predicate LockOk(k: Disk, x: nat)
    requires x < |k.buf|
  {
    && (k.buf[x].lock <==> OwnerOf(k, x) != NIL)
    && PENDING <= OwnerOf(k, x) < |k.req|
    && (OwnerOf(k, x) >= 0 ==> k.req[OwnerOf(k, x)].dev >= 0 && k.req[OwnerOf(k, x)].bh == x)
    && (OwnerOf(k, x) == PENDING ==> 0 < Major(k.buf[x].dev) < |k.queue|)
  }

  /** One buffer for a block; device 0 stands for no block. */
  ghost predicate OneEach(buf: seq<Buf>) {
    forall x, y | 0 <= x < y < |buf| && buf[x].dev != 0 :: buf[x].dev != buf[y].dev || buf[x].block != buf[y].block
  }

  ghost predicate Inv(k: Disk) {
    && |k.req| == NR_REQUEST && |k.current| == |k.queue| == NR_BLK_DEV && |k.owner| == |k.buf|
    && (forall m: nat | m < NR_BLK_DEV :: Listed(k.req, k.current[m], k.queue[m]))
    && (forall s: nat | s < NR_REQUEST :: SlotOk(k, s) && ReqOk(k, s))
    && (forall x: nat | x < |k.buf| :: LockOk(k, x))
    && OneEach(k.buf)
    && (forall m: nat | m < NR_BLK_DEV :: Turns(Line(k.req, k.queue[m])) <= 1)
  }

  // ----- steps -----

  /** The search for a free slot, from the top. */
  function FreeBelow(req: seq<Req>, n: nat): (s: int)
    requires n <= |req|
    ensures NIL <= s < n && (s != NIL ==> req[s].dev < 0)
    ensures forall t | s < t < n :: req[t].dev >= 0
  {
    if n == 0 then NIL else if req[n - 1].dev < 0 then n - 1 else FreeBelow(req, n - 1)
  }

  /** Reads may use all slots, writes only the lower two thirds. */
  function Limit(cmd: int): nat {
    if cmd == READ then NR_REQUEST else NR_REQUEST * 2 / 3
  }

  function Unlocked(k: Disk, x: nat): Disk
    requires x < |k.buf| && x < |k.owner|
  {
    k.(buf := k.buf[x := k.buf[x].(lock := false)], owner := k.owner[x := NIL])
  }

  /** The first part of make_request for buffer x that is not locked: lock it, if there is
      something to do. */
  function Locked(k: Disk, cmd: int, x: nat): Disk
    requires x < |k.buf| && x < |k.owner|
  {
    if (cmd == WRITE && !k.buf[x].dirt) || (cmd == READ && k.buf[x].uptodate) then k
    else k.(buf := k.buf[x := k.buf[x].(lock := true)], owner := k.owner[x := PENDING])
  }

  function NewReq(k: Disk, cmd: int, x: nat): Req
    requires x < |k.buf|
  {
    Req(k.buf[x].dev, cmd, 0, 2 * k.buf[x].block, 2, x, NIL)
  }

  function InsertAt(q: seq<nat>, k: nat, s: nat): seq<nat>
    requires k <= |q|
  {
    q[..k] + [s] + q[k..]
  }

  /** add_request puts the filled slot s into the list of its device. */
  function Queued(k: Disk, cmd: int, x: nat, s: nat): Disk
    requires x < |k.buf| && s < |k.req| && x < |k.owner|
    requires var m := Major(k.buf[x].dev); 0 <= m < |k.queue| && m < |k.current| && forall i | 0 <= i < |k.queue[m]| :: k.queue[m][i] < |k.req|
  {
    var m := Major(k.buf[x].dev);
    var q, r := k.queue[m], NewReq(k, cmd, x);
    var k1 := k.(buf := k.buf[x := k.buf[x].(dirt := false)], owner := k.owner[x := s]);
    if q == [] then
      k1.(req := k.req[s := r], current := k.current[m := s], queue := k.queue[m := [s]])
    else
      var i := At(Line(k.req, q), KeyOf(r));
      var p := q[i - 1];
      k1.(req := k.req[s := r.(next := k.req[p].next)][p := k.req[p].(next := s)], queue := k.queue[m := InsertAt(q, i, s)])
  }

  /** From `repeat` on: with the buffer locked, find a slot; the caller sleeps, or gives up, if there
      is none. */
  function Retried(k: Disk, cmd: int, x: nat, ahead: bool): Disk
    requires Inv(k) && x < |k.buf| && OwnerOf(k, x) == PENDING && cmd in {READ, WRITE}
  {
    Uses(k, x);
    var s := FreeBelow(k.req, Limit(cmd));
    if s != NIL then Queued(k, cmd, x, s) else if ahead then Unlocked(k, x) else k
  }

  /** end_request for the head of m's list. */
  function Ended(k: Disk, m: nat, uptodate: bool): Disk
    requires m < |k.current| && m < |k.queue| && 0 <= k.current[m] < |k.req| && k.queue[m] != []
    requires k.req[k.current[m]].bh < |k.buf| && |k.owner| == |k.buf|
  {
    var s := k.current[m];
    var x := k.req[s].bh;
    k.(req := k.req[s := k.req[s].(dev := -1)], current := k.current[m := k.req[s].next],
       buf := k.buf[x := k.buf[x].(uptodate := uptodate, lock := false)],
       queue := k.queue[m := k.queue[m][1..]], owner := k.owner[x := NIL])
  }

  datatype Op = Make(cmd: int, ahead: bool, x: nat) | Retry(cmd: int, x: nat) | Interrupt(major: nat, ok: bool)
              | Fail(major: nat) | Reuse(x: nat, dev: int, block: int) | Touch(x: nat, dirt: bool, uptodate: bool)

  /** The head of m's list after an interrupt of the hard disk that does not end its request. */
  function Advanced(r: Req, ok: bool): Req {
    if !ok then r.(errors := r.errors + 1)
    else r.(errors := if r.cmd == READ then 0 else r.errors, sector := r.sector + 1, left := r.left - 1)
  }

  /** Does the interrupt end the request r? After its last sector, or after too many errors. */
  predicate Final(r: Req, ok: bool) {
    if ok then r.left == 1 else r.errors + 1 >= MAX_ERRORS
  }

  predicate Enabled(k: Disk, op: Op) {
    match op
    case Make(cmd, ahead, x) =>
      cmd in {READ, WRITE} && x < |k.buf| && x < |k.owner| && !k.buf[x].lock && 0 < Major(k.buf[x].dev) < NR_BLK_DEV
    case Retry(cmd, x) => cmd in {READ, WRITE} && x < |k.buf| && OwnerOf(k, x) == PENDING
    case Interrupt(m, ok) => m < |k.queue| && k.queue[m] != []
    case Fail(m) => m < |k.queue| && k.queue[m] != []
    case Reuse(x, dev, block) =>
      x < |k.buf| && !k.buf[x].lock && forall y | 0 <= y < |k.buf| && y != x :: k.buf[y].dev != dev || k.buf[y].block != block
    case Touch(x, _, _) => x < |k.buf|
  }

  function Next(k: Disk, op: Op): Disk
    requires Inv(k)
  {
    if !Enabled(k, op) then k
    else
      match op
      case Make(cmd, ahead, x) =>
        Uses(k, x);
        var k1 := Locked(k, cmd, x);
        LockedKeeps(k, cmd, x);
        if OwnerOf(k1, x) == PENDING then Retried(k1, cmd, x, ahead) else k1
      case Retry(cmd, x) => Retried(k, cmd, x, false)
      case Interrupt(m, ok) =>
        HeadUses(k, m);
        var s := k.current[m];
        if Final(k.req[s], ok) then Ended(k, m, ok) else k.(req := k.req[s := Advanced(k.req[s], ok)])
      case Fail(m) =>
        HeadUses(k, m);
        Ended(k, m, false)
      case Reuse(x, dev, block) => k.(buf := k.buf[x := k.buf[x].(dev := dev, block := block)])
      case Touch(x, dirt, uptodate) => k.(buf := k.buf[x := k.buf[x].(dirt := dirt, uptodate := uptodate)])
  }

  // ----- the steps keep the invariant -----

  lemma Uses(k: Disk, x: nat)
    requires Inv(k)
    ensures |k.owner| == |k.buf| && |k.req| == NR_REQUEST
    ensures forall m: nat, i: nat | m < |k.queue| && i < |k.queue[m]| :: k.queue[m][i] < |k.req|
    ensures x < |k.buf| && OwnerOf(k, x) == PENDING ==> 0 < Major(k.buf[x].dev) < |k.queue| == |k.current|
  {
    assert x < |k.buf| ==> LockOk(k, x);
    forall m: nat, i: nat | m < |k.queue| && i < |k.queue[m]|
      ensures k.queue[m][i] < |k.req|
    {
      assert Listed(k.req, k.current[m], k.queue[m]);
      assert LinkAt(k.req, k.queue[m], i);
    }
  }

  lemma HeadUses(k: Disk, m: nat)
    requires Inv(k) && m < |k.queue| && k.queue[m] != []
    ensures |k.current| == |k.queue| && |k.owner| == |k.buf|
    ensures var s := k.current[m];
      && 0 <= s < |k.req| && s == k.queue[m][0] && k.req[s].dev >= 0 && Major(k.req[s].dev) == m
      && k.req[s].bh < |k.buf| && OwnerOf(k, k.req[s].bh) == s
  {
    assert Listed(k.req, k.current[m], k.queue[m]) && LinkAt(k.req, k.queue[m], 0);
    var s := k.queue[m][0];
    assert s in k.queue[m] && SlotOk(k, s) && ReqOk(k, s);
  }

  lemma LockedKeeps(k: Disk, cmd: int, x: nat)
    requires Inv(k) && x < |k.buf| && x < |k.owner| && !k.buf[x].lock && 0 < Major(k.buf[x].dev) < NR_BLK_DEV
    ensures Inv(Locked(k, cmd, x))
  {
    var k' := Locked(k, cmd, x);
    assert LockOk(k, x);
    SameQueues(k, k');
    forall y: nat | y < |k.buf|
      ensures LockOk(k', y)
    {
      assert LockOk(k, y);
    }
  }

  /** Steps that leave the requests alone, and the locks of their buffers. */
  lemma SameQueues(k: Disk, k': Disk)
    requires Inv(k) && k'.req == k.req && k'.current == k.current && k'.queue == k.queue && |k'.buf| == |k.buf| == |k'.owner|
    requires forall x | 0 <= x < |k.buf| && k.owner[x] >= 0 :: k'.owner[x] == k.owner[x] && k'.buf[x].dev == k.buf[x].dev && k'.buf[x].block == k.buf[x].block
    ensures forall s: nat | s < NR_REQUEST :: SlotOk(k', s) && ReqOk(k', s)
  {
    forall s: nat | s < NR_REQUEST
      ensures SlotOk(k', s) && ReqOk(k', s)
    {
      assert SlotOk(k, s) && ReqOk(k, s);
    }
  }
}
