/** Every step of the request queues keeps their invariant; a queued request is reached after at most
    one turn of the elevator. */
module ElevatorSteps {
  import opened ElevatorOrder
  import opened Elevator

  // ----- the keys in a list differ -----

  /** Requests for different buffers of the same device: comparable, even between the sectors. */
  lemma Comparable(k: Disk, s: nat, t: nat)
    requires Inv(k) && s < NR_REQUEST && t < NR_REQUEST && k.req[s].dev >= 0 && k.req[t].dev >= 0 && s != t
    ensures k.req[s].bh < |k.buf| && k.req[t].bh < |k.buf|
    ensures k.req[s].dev != k.req[t].dev || k.buf[k.req[s].bh].block != k.buf[k.req[t].bh].block
    ensures InOrder(KeyOf(k.req[s]), KeyOf(k.req[t])) <==> !InOrder(KeyOf(k.req[t]), KeyOf(k.req[s]))
  {
    assert SlotOk(k, s) && SlotOk(k, t) && ReqOk(k, s) && ReqOk(k, t);
    var x, y := k.req[s].bh, k.req[t].bh;
    assert x != y;
    assert x < y || y < x;
  }

  /** A buffer that waits for a slot is for none of the queued blocks. */
  lemma NewIsFresh(k: Disk, cmd: int, x: nat, m: nat)
    requires Inv(k) && x < |k.buf| && OwnerOf(k, x) == PENDING && m < NR_BLK_DEV
    ensures Fresh(Line(k.req, k.queue[m]), KeyOf(NewReq(k, cmd, x)))
  {
    Uses(k, x);
    var l, q := Line(k.req, k.queue[m]), k.queue[m];
    forall i | 0 <= i < |l|
      ensures InOrder(l[i], KeyOf(NewReq(k, cmd, x))) <==> !InOrder(KeyOf(NewReq(k, cmd, x)), l[i])
    {
      assert q[i] in q && SlotOk(k, q[i]) && ReqOk(k, q[i]);
      var y := k.req[q[i]].bh;
      assert y < x || x < y;
    }
  }

  // ----- lists -----

  lemma ListKept(req: seq<Req>, req': seq<Req>, head: int, q: seq<nat>)
    requires Listed(req, head, q) && |req'| == |req|
    requires forall s | s in q && s < |req| :: req'[s].next == req[s].next
    ensures Listed(req', head, q)
  {
    forall i | 0 <= i < |q|
      ensures LinkAt(req', q, i)
    {
      assert LinkAt(req, q, i);
    }
  }

  lemma LineKept(req: seq<Req>, req': seq<Req>, q: seq<nat>)
    requires |req'| == |req| && forall s | s in q && s < |req| :: KeyOf(req'[s]) == KeyOf(req[s])
    ensures Line(req', q) == Line(req, q)
  {
  }

  lemma ListInserted(req: seq<Req>, head: int, q: seq<nat>, i: nat, s: nat, r: Req)
    requires Listed(req, head, q) && 1 <= i <= |q| && s < |req| && s !in q && q[i - 1] < |req|
    ensures Listed(req[s := r.(next := req[q[i - 1]].next)][q[i - 1] := req[q[i - 1]].(next := s)], head, InsertAt(q, i, s))
  {
    var p := q[i - 1];
    assert p in q;
    var req', q' := req[s := r.(next := req[p].next)][p := req[p].(next := s)], InsertAt(q, i, s);
    assert LinkAt(req, q, i - 1);
    forall j | 0 <= j < |q'|
      ensures LinkAt(req', q', j)
    {
      if j < i {
        assert LinkAt(req, q, j) && q[j] in q;
      } else if j > i {
        assert LinkAt(req, q, j - 1) && q[j - 1] in q;
      }
    }
  }

  /** Turning back: the elevator test on the lines of keys is the test on the list. */
  lemma LineInserted(req: seq<Req>, q: seq<nat>, i: nat, s: nat, r: Req)
    requires 1 <= i <= |q| && s < |req| && s !in q && forall j | 0 <= j < |q| :: q[j] < |req|
    requires i == At(Line(req, q), KeyOf(r))
    ensures Line(req[s := r.(next := req[q[i - 1]].next)][q[i - 1] := req[q[i - 1]].(next := s)], InsertAt(q, i, s))
            == Inserted(Line(req, q), KeyOf(r))
  {
    var p := q[i - 1];
    var req', q' := req[s := r.(next := req[p].next)][p := req[p].(next := s)], InsertAt(q, i, s);
    var l, l' := Line(req, q), Inserted(Line(req, q), KeyOf(r));
    assert forall j | 0 <= j < |q| :: q[j] in q;
    forall j | 0 <= j < |q'|
      ensures Line(req', q')[j] == l'[j]
    {
      if j < i {
        assert q'[j] == q[j] && l'[j] == l[j];
      } else if j > i {
        assert q'[j] == q[j - 1] && l'[j] == l[j - 1];
      }
    }
  }

  // ----- a new request -----

  ghost predicate CanQueue(k: Disk, cmd: int, x: nat, s: nat) {
    && Inv(k) && x < |k.buf| && OwnerOf(k, x) == PENDING && cmd in {READ, WRITE} && s < |k.req| && k.req[s].dev < 0
    && 0 < Major(k.buf[x].dev) < |k.queue| == |k.current| && x < |k.owner|
    && (forall m: nat, i: nat | m < |k.queue| && i < |k.queue[m]| :: k.queue[m][i] < |k.req|)
  }

  lemma QueuedLists(k: Disk, cmd: int, x: nat, s: nat)
    requires CanQueue(k, cmd, x, s)
    ensures var k' := Queued(k, cmd, x, s);
      forall n: nat | n < NR_BLK_DEV :: Listed(k'.req, k'.current[n], k'.queue[n]) && Turns(Line(k'.req, k'.queue[n])) <= 1
  {
    var k', m, r := Queued(k, cmd, x, s), Major(k.buf[x].dev), NewReq(k, cmd, x);
    var q := k.queue[m];
    assert SlotOk(k, s);
    forall n: nat | n < NR_BLK_DEV
      ensures Listed(k'.req, k'.current[n], k'.queue[n]) && Turns(Line(k'.req, k'.queue[n])) <= 1
    {
      assert Listed(k.req, k.current[n], k.queue[n]) && Turns(Line(k.req, k.queue[n])) <= 1;
      if n != m {
        OthersKept(k, k', n, m, s);
      } else if q != [] {
        var i := At(Line(k.req, q), KeyOf(r));
        ListInserted(k.req, k.current[m], q, i, s, r);
        LineInserted(k.req, q, i, s, r);
        NewIsFresh(k, cmd, x, m);
        InsertTurns(Line(k.req, q), KeyOf(r));
      }
    }
  }

  /** A list does not notice changes of other devices' slots and of free slots. */
  lemma OthersKept(k: Disk, k': Disk, n: nat, m: nat, s: nat)
    requires Inv(k) && n < NR_BLK_DEV && m < NR_BLK_DEV && n != m && |k'.req| == |k.req|
    requires s < NR_REQUEST && s !in k.queue[n]
    requires forall t: nat | t < NR_REQUEST && t !in k.queue[m] && t != s :: k'.req[t] == k.req[t]
    ensures Listed(k'.req, k.current[n], k.queue[n]) && Line(k'.req, k.queue[n]) == Line(k.req, k.queue[n])
  {
    assert Listed(k.req, k.current[n], k.queue[n]);
    forall t | t in k.queue[n] && t < |k.req|
      ensures k'.req[t] == k.req[t]
    {
      assert SlotOk(k, t);
    }
    ListKept(k.req, k'.req, k.current[n], k.queue[n]);
    LineKept(k.req, k'.req, k.queue[n]);
  }

  lemma QueuedSlots(k: Disk, cmd: int, x: nat, s: nat)
    requires CanQueue(k, cmd, x, s)
    ensures var k' := Queued(k, cmd, x, s); forall t: nat | t < NR_REQUEST :: SlotOk(k', t) && ReqOk(k', t)
  {
    var k', m := Queued(k, cmd, x, s), Major(k.buf[x].dev);
    var q := k.queue[m];
    assert SlotOk(k, s) && Listed(k.req, k.current[m], q);
    forall t: nat | t < NR_REQUEST
      ensures SlotOk(k', t) && ReqOk(k', t)
    {
      QueuedSlot(k, cmd, x, s, t);
    }
  }

  lemma QueuedSlot(k: Disk, cmd: int, x: nat, s: nat, t: nat)
    requires CanQueue(k, cmd, x, s) && t < NR_REQUEST
    ensures var k' := Queued(k, cmd, x, s); SlotOk(k', t) && ReqOk(k', t)
  {
    var k', m := Queued(k, cmd, x, s), Major(k.buf[x].dev);
    var q := k.queue[m];
    assert SlotOk(k, s) && Listed(k.req, k.current[m], q) && SlotOk(k, t) && ReqOk(k, t);
    assert t in k'.queue[m] <==> t in q || t == s;
    if k.req[t].dev >= 0 && t != s {
      assert k'.req[t] == k.req[t].(next := k'.req[t].next);
      assert k.req[t].bh != x;
      if q == [] {
        assert Major(k.req[t].dev) != m;
      }
    }
  }

  lemma QueuedKeeps(k: Disk, cmd: int, x: nat, s: nat)
    requires CanQueue(k, cmd, x, s)
    ensures Inv(Queued(k, cmd, x, s))
  {
    var k' := Queued(k, cmd, x, s);
    QueuedLists(k, cmd, x, s);
    QueuedSlots(k, cmd, x, s);
    assert SlotOk(k, s);
    forall y: nat | y < |k.buf|
      ensures LockOk(k', y)
    {
      assert LockOk(k, y) && LockOk(k, x);
    }
  }

  lemma RetriedKeeps(k: Disk, cmd: int, x: nat, ahead: bool)
    requires Inv(k) && x < |k.buf| && OwnerOf(k, x) == PENDING && cmd in {READ, WRITE}
    ensures Inv(Retried(k, cmd, x, ahead))
  {
    Uses(k, x);
    var s := FreeBelow(k.req, Limit(cmd));
    if s != NIL {
      QueuedKeeps(k, cmd, x, s);
    } else if ahead {
      SameQueues(k, Unlocked(k, x));
      forall y: nat | y < |k.buf|
        ensures LockOk(Unlocked(k, x), y)
      {
        assert LockOk(k, y);
      }
    }
  }

  // ----- the head of a list -----

  lemma EndedKeeps(k: Disk, m: nat, uptodate: bool)
    requires Inv(k) && m < NR_BLK_DEV && k.queue[m] != []
    ensures |k.current| == |k.queue| && |k.owner| == |k.buf|
    ensures 0 <= k.current[m] < |k.req| && k.req[k.current[m]].bh < |k.buf|
    ensures Inv(Ended(k, m, uptodate))
  {
    HeadUses(k, m);
    var k', s, q := Ended(k, m, uptodate), k.current[m], k.queue[m];
    EndedLists(k, m, uptodate);
    forall t: nat | t < NR_REQUEST
      ensures SlotOk(k', t) && ReqOk(k', t)
    {
      assert SlotOk(k, t) && ReqOk(k, t) && ReqOk(k, s);
      assert q == [s] + q[1..];
      assert Listed(k.req, k.current[m], q) && s !in q[1..];
    }
    forall y: nat | y < |k.buf|
      ensures LockOk(k', y)
    {
      assert LockOk(k, y) && ReqOk(k, s);
    }
  }

  lemma EndedLists(k: Disk, m: nat, uptodate: bool)
    requires Inv(k) && m < NR_BLK_DEV && k.queue[m] != [] && 0 <= k.current[m] < |k.req|
    requires k.req[k.current[m]].bh < |k.buf| && k.current[m] == k.queue[m][0]
    ensures var k' := Ended(k, m, uptodate);
      forall n: nat | n < NR_BLK_DEV :: Listed(k'.req, k'.current[n], k'.queue[n]) && Turns(Line(k'.req, k'.queue[n])) <= 1
  {
    var k', s, q := Ended(k, m, uptodate), k.current[m], k.queue[m];
    assert s in q && SlotOk(k, s);
    forall n: nat | n < NR_BLK_DEV
      ensures Listed(k'.req, k'.current[n], k'.queue[n]) && Turns(Line(k'.req, k'.queue[n])) <= 1
    {
      assert Listed(k.req, k.current[n], k.queue[n]) && Turns(Line(k.req, k.queue[n])) <= 1;
      if n != m {
        OthersKept(k, k', n, m, s);
      } else {
        TailListed(k.req, s, q);
        assert q == [s] + q[1..];
        ListKept(k.req, k'.req, k.req[s].next, q[1..]);
        LineKept(k.req, k'.req, q[1..]);
        assert Line(k.req, q)[1..] == Line(k.req, q[1..]);
      }
    }
  }

  lemma TailListed(req: seq<Req>, head: int, q: seq<nat>)
    requires Listed(req, head, q) && q != []
    ensures q[0] < |req| && Listed(req, req[q[0]].next, q[1..]) && q[0] !in q[1..]
  {
    assert LinkAt(req, q, 0);
    forall i | 0 <= i < |q| - 1
      ensures LinkAt(req, q[1..], i)
    {
      assert LinkAt(req, q, i + 1);
    }
  }

  /** The head of a list moves to its second sector; its place in the order stays the same. */
  lemma AdvancedKeeps(k: Disk, m: nat, ok: bool)
    requires Inv(k) && m < NR_BLK_DEV && k.queue[m] != [] && 0 <= k.current[m] < |k.req| && !Final(k.req[k.current[m]], ok)
    ensures var s := k.current[m]; Inv(k.(req := k.req[s := Advanced(k.req[s], ok)]))
    ensures var s := k.current[m]; forall i: nat | i < |k.queue[m]| ::
      TurnsTo(Line(k.req[s := Advanced(k.req[s], ok)], k.queue[m]), i) == TurnsTo(Line(k.req, k.queue[m]), i)
  {
    HeadUses(k, m);
    var s, q := k.current[m], k.queue[m];
    var k' := k.(req := k.req[s := Advanced(k.req[s], ok)]);
    assert ReqOk(k, s) && SlotOk(k, s);
    forall n: nat | n < NR_BLK_DEV
      ensures Listed(k'.req, k'.current[n], k'.queue[n]) && Turns(Line(k'.req, k'.queue[n])) <= 1
    {
      assert Listed(k.req, k.current[n], k.queue[n]) && Turns(Line(k.req, k.queue[n])) <= 1;
      ListKept(k.req, k'.req, k.current[n], k.queue[n]);
      if n != m {
        LineKept(k.req, k'.req, k.queue[n]);
      } else {
        HeadTurn(k, m, ok);
      }
    }
    HeadTurn(k, m, ok);
    forall t: nat | t < NR_REQUEST
      ensures SlotOk(k', t) && ReqOk(k', t)
    {
      assert SlotOk(k, t) && ReqOk(k, t);
    }
    forall y: nat | y < |k.buf|
      ensures LockOk(k', y)
    {
      assert LockOk(k, y);
    }
  }

  lemma HeadTurn(k: Disk, m: nat, ok: bool)
    requires Inv(k) && m < NR_BLK_DEV && k.queue[m] != [] && k.current[m] == k.queue[m][0] < NR_REQUEST
    requires !Final(k.req[k.queue[m][0]], ok)
    ensures var s, q := k.queue[m][0], k.queue[m];
      var l, l' := Line(k.req, q), Line(k.req[s := Advanced(k.req[s], ok)], q);
      Turns(l') == Turns(l) && forall i: nat | i < |q| :: TurnsTo(l', i) == TurnsTo(l, i)
  {
    Uses(k, 0);
    var s, q := k.queue[m][0], k.queue[m];
    var l, l' := Line(k.req, q), Line(k.req[s := Advanced(k.req[s], ok)], q);
    assert Listed(k.req, s, q) && s in q && SlotOk(k, s) && ReqOk(k, s);
    assert l'[1..] == l[1..];
    if |q| > 1 {
      var t := q[1];
      assert t in q && SlotOk(k, t) && ReqOk(k, t) && t != s;
      Comparable(k, s, t);
      assert Turn(l'[0], l'[1]) == Turn(l[0], l[1]);
    }
  }

  // ----- all steps -----

  lemma NextKeeps(k: Disk, op: Op)
    requires Inv(k)
    ensures Inv(Next(k, op))
  {
    if Enabled(k, op) {
      match op
      case Make(cmd, ahead, x) =>
        LockedKeeps(k, cmd, x);
        if OwnerOf(Locked(k, cmd, x), x) == PENDING {
          RetriedKeeps(Locked(k, cmd, x), cmd, x, ahead);
        }
      case Retry(cmd, x) => RetriedKeeps(k, cmd, x, false);
      case Interrupt(m, ok) =>
        HeadUses(k, m);
        if Final(k.req[k.current[m]], ok) {
          EndedKeeps(k, m, ok);
        } else {
          AdvancedKeeps(k, m, ok);
        }
      case Fail(m) => EndedKeeps(k, m, false);
      case Reuse(x, dev, block) => BufferKeeps(k, x, k.buf[x].(dev := dev, block := block));
      case Touch(x, dirt, uptodate) => BufferKeeps(k, x, k.buf[x].(dirt := dirt, uptodate := uptodate));
    }
  }

  lemma BufferKeeps(k: Disk, x: nat, b: Buf)
    requires Inv(k) && x < |k.buf| && b.lock == k.buf[x].lock
    requires k.buf[x].lock ==> b.dev == k.buf[x].dev && b.block == k.buf[x].block
    requires b == k.buf[x].(dirt := b.dirt, uptodate := b.uptodate) || forall y | 0 <= y < |k.buf| && y != x :: k.buf[y].dev != b.dev || k.buf[y].block != b.block
    ensures Inv(k.(buf := k.buf[x := b]))
  {
    assert LockOk(k, x);
    var k' := k.(buf := k.buf[x := b]);
    SameQueues(k, k');
    forall y: nat | y < |k.buf|
      ensures LockOk(k', y)
    {
      assert LockOk(k, y);
    }
  }
}
