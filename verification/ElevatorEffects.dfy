/** What the request functions do, told by the request table and the buffers alone. */
module ElevatorEffects {
  import opened ElevatorOrder
  import opened Elevator
  import opened ElevatorSteps

  /** Somebody who wants this of the buffer has something to do: unwritten data to write, or data to read
      that are not there. */
  predicate Wanted(cmd: int, b: Buf) {
    (cmd == WRITE && b.dirt) || (cmd == READ && !b.uptodate)
  }

  /** Slot s can serve such a request. Writes leave the last third to reads. */
  predicate Usable(req: seq<Req>, cmd: int, s: nat) {
    s < |req| && s < (if cmd == READ then 32 else 21) && req[s].dev < 0
  }

  predicate NoneUsable(req: seq<Req>, cmd: int) {
    forall s: nat | s < |req| :: !Usable(req, cmd, s)
  }

  /** Slot s holds a request of both sectors of buffer b. */
  predicate RequestFor(r: Req, cmd: int, x: nat, b: Buf) {
    r.dev == b.dev >= 0 && r.cmd == cmd && r.bh == x && r.sector == 2 * b.block && r.left == 2 && r.errors == 0
  }

  /** A request for buffer x was put into a slot that was free. All other requests are what they were, but
      for their places in the lists. */
  ghost predicate Filled(req: seq<Req>, req': seq<Req>, cmd: int, x: nat, b: Buf) {
    && |req'| == |req|
    && exists s: nat :: Usable(req, cmd, s) && RequestFor(req'[s], cmd, x, b) &&
         forall t | 0 <= t < |req| && t != s :: req'[t] == req[t].(next := req'[t].next)
  }

  /** What make_request does from `repeat` on, with the buffer b, not locked before, now locked. */
  ghost predicate Served(req: seq<Req>, req': seq<Req>, current: seq<int>, current': seq<int>, b: Buf, b': Buf,
                         cmd: int, ahead: bool, x: nat) {
    if NoneUsable(req, cmd) then req' == req && current' == current && b' == b.(lock := !ahead)
    else Filled(req, req', cmd, x, b) && b' == b.(lock := true, dirt := false)
  }

  /** What make_request does for buffer x, not locked: nothing, or a request, or, when all slots are
      taken, it waits with the buffer locked, or gives up. */
  ghost predicate MadeAs(req: seq<Req>, req': seq<Req>, current: seq<int>, current': seq<int>, buf: seq<Buf>, buf': seq<Buf>,
                         cmd: int, ahead: bool, x: nat)
    requires x < |buf|
  {
    && |buf'| == |buf| && (forall y | 0 <= y < |buf| && y != x :: buf'[y] == buf[y])
    && if Wanted(cmd, buf[x]) then Served(req, req', current, current', buf[x], buf'[x], cmd, ahead, x)
       else req' == req && current' == current && buf'[x] == buf[x]
  }

  lemma RetriedAs(k: Disk, cmd: int, x: nat, ahead: bool)
    requires Inv(k) && x < |k.buf| && OwnerOf(k, x) == PENDING && cmd in {READ, WRITE}
    ensures var k' := Retried(k, cmd, x, ahead);
      && |k'.buf| == |k.buf| && (forall y | 0 <= y < |k.buf| && y != x :: k'.buf[y] == k.buf[y])
      && Served(k.req, k'.req, k.current, k'.current, k.buf[x].(lock := false), k'.buf[x], cmd, ahead, x)
  {
    Uses(k, x);
    assert LockOk(k, x);
    var s := FreeBelow(k.req, Limit(cmd));
    if s == NIL {
      assert NoneUsable(k.req, cmd);
    } else {
      assert Usable(k.req, cmd, s);
      QueuedAs(k, cmd, x, s);
    }
  }

  lemma QueuedAs(k: Disk, cmd: int, x: nat, s: nat)
    requires CanQueue(k, cmd, x, s) && Usable(k.req, cmd, s) && k.buf[x].lock
    ensures var k' := Queued(k, cmd, x, s);
      && |k'.buf| == |k.buf| && (forall y | 0 <= y < |k.buf| && y != x :: k'.buf[y] == k.buf[y])
      && Filled(k.req, k'.req, cmd, x, k.buf[x].(lock := false)) && k'.buf[x] == k.buf[x].(dirt := false)
  {
    var k', m := Queued(k, cmd, x, s), Major(k.buf[x].dev);
    var q := k.queue[m];
    assert k.buf[x].dev >= 0;
    if q != [] {
      var i := At(Line(k.req, q), KeyOf(NewReq(k, cmd, x)));
      assert q[i - 1] in q && SlotOk(k, s) && SlotOk(k, q[i - 1]);
      assert q[i - 1] != s;
    }
    assert RequestFor(k'.req[s], cmd, x, k.buf[x]);
  }

  lemma MadeRight(k: Disk, cmd: int, ahead: bool, x: nat)
    requires Inv(k) && Enabled(k, Make(cmd, ahead, x))
    ensures var k' := Next(k, Make(cmd, ahead, x)); MadeAs(k.req, k'.req, k.current, k'.current, k.buf, k'.buf, cmd, ahead, x)
  {
    Uses(k, x);
    LockedKeeps(k, cmd, x);
    var k1 := Locked(k, cmd, x);
    assert LockOk(k, x);
    if OwnerOf(k1, x) == PENDING {
      RetriedAs(k1, cmd, x, ahead);
      assert k1.buf[x].(lock := false) == k.buf[x];
    }
  }

  // ----- the end of a request -----

  /** The head of a list ends: its slot is free, the next one is the head, the buffer is unlocked, and its data
      are up to date exactly if the transfer was right. */
  ghost predicate EndedAs(req: seq<Req>, req': seq<Req>, current: seq<int>, current': seq<int>, buf: seq<Buf>, buf': seq<Buf>,
                          m: nat, ok: bool) {
    && m < |current| && 0 <= current[m] < |req|
    && var s := current[m]; var x := req[s].bh;
    && x < |buf| && buf' == buf[x := buf[x].(lock := false, uptodate := ok)]
    && req' == req[s := req[s].(dev := -1)] && current' == current[m := req[s].next]
  }

  /** An interrupt of the disk: one sector more, the end of the request after its last one, or one error more and
      the end after the seventh. A sector that was read clears the errors. */
  ghost predicate InterruptedAs(req: seq<Req>, req': seq<Req>, current: seq<int>, current': seq<int>, buf: seq<Buf>, buf': seq<Buf>,
                                m: nat, ok: bool) {
    && m < |current| && 0 <= current[m] < |req|
    && var s := current[m];
    var r := req[s];
    if ok && r.left == 1 then EndedAs(req, req', current, current', buf, buf', m, true)
    else if !ok && r.errors >= 6 then EndedAs(req, req', current, current', buf, buf', m, false)
    else
      && current' == current && buf' == buf && |req'| == |req| && (forall t | 0 <= t < |req| && t != s :: req'[t] == req[t])
      && Advances(r, req'[s], ok)
  }

  predicate Advances(r: Req, r': Req, ok: bool) {
    && r'.dev == r.dev && r'.cmd == r.cmd && r'.bh == r.bh && r'.next == r.next
    && (if ok then r'.sector == r.sector + 1 && r'.left == r.left - 1 else r'.sector == r.sector && r'.left == r.left)
    && r'.errors == if !ok then r.errors + 1 else if r.cmd == READ then 0 else r.errors
  }

  lemma EndedRight(k: Disk, m: nat, ok: bool)
    requires Inv(k) && m < |k.queue| && k.queue[m] != []
    ensures |k.current| == |k.queue| && 0 <= k.current[m] < |k.req|
    ensures |k.owner| == |k.buf| && k.req[k.current[m]].bh < |k.buf|
    ensures var k' := Ended(k, m, ok); EndedAs(k.req, k'.req, k.current, k'.current, k.buf, k'.buf, m, ok)
  {
    HeadUses(k, m);
  }

  lemma InterruptedRight(k: Disk, m: nat, ok: bool)
    requires Inv(k) && m < |k.queue| && k.queue[m] != []
    ensures var k' := Next(k, Op.Interrupt(m, ok)); InterruptedAs(k.req, k'.req, k.current, k'.current, k.buf, k'.buf, m, ok)
  {
    HeadUses(k, m);
    EndedRight(k, m, ok);
  }

  // ----- the order -----

  /** Reads go before writes; otherwise lower sectors of a device before higher ones. */
  lemma ReadsFirst(a: Key, b: Key)
    ensures a.cmd == READ && b.cmd == WRITE ==> InOrder(a, b) && !InOrder(b, a)
    ensures a.cmd == b.cmd && a.dev == b.dev ==> (InOrder(a, b) <==> a.sector < b.sector)
    ensures a.cmd == b.cmd && a.dev < b.dev ==> InOrder(a, b) && !InOrder(b, a)
  {
  }
}
