/** make_request, add_request and end_request of kernel/blk_drv, on the request table itself. */
module ElevatorKernel {
  import opened ElevatorOrder
  import opened Elevator
  import opened ElevatorSteps
  import opened ElevatorEffects
  import ElevatorTheorems

  lemma AtUnique(l: seq<Key>, x: Key, i: nat)
    requires 0 < i <= |l| && (forall j | 0 < j < i :: !Between(l[j - 1], x, l[j])) && (i < |l| ==> Between(l[i - 1], x, l[i]))
    ensures i == At(l, x)
  {
    AtIsFirst(l, x);
  }

  class BlockDevices {
    const req: array<Req>
    /** The head of each device's list, and the buffers. */
    const current: array<int>
    const buf: array<Buf>
    ghost var k: Disk

    ghost predicate Rep()
      reads this, req, current, buf
    {
      k.req == req[..] && k.current == current[..] && k.buf == buf[..]
    }

    ghost predicate Valid()
      reads this, req, current, buf
    {
      Rep() && Inv(k)
    }

    /** blk_dev_init: no requests. The buffers are those of the buffer cache, none locked. */
    constructor (buffers: seq<Buf>)
      requires OneEach(buffers) && forall x | 0 <= x < |buffers| :: !buffers[x].lock
      ensures Valid() && fresh(req) && fresh(current) && fresh(buf)
      ensures buf[..] == buffers && forall s | 0 <= s < NR_REQUEST :: req[s].dev < 0
    {
      var free := Req(-1, 0, 0, 0, 0, 0, NIL);
      req := new Req[NR_REQUEST](_ => free);
      current := new int[NR_BLK_DEV](_ => NIL);
      buf := new Buf[|buffers|](i requires 0 <= i < |buffers| => buffers[i]);
      k := Disk(seq(NR_REQUEST, _ => free), seq(NR_BLK_DEV, _ => NIL), buffers, seq(NR_BLK_DEV, _ => []), seq(|buffers|, _ => NIL));
      new;
      assert req[..] == k.req && current[..] == k.current && buf[..] == buffers;
    }

    /** An empty request slot, NIL if there is none for cmd. */
    method FindEmpty(cmd: int) returns (s: int)
      requires req.Length == NR_REQUEST && cmd in {READ, WRITE}
      ensures s == FreeBelow(req[..], Limit(cmd))
    {
      s := if cmd == READ then NR_REQUEST else NR_REQUEST * 2 / 3;
      s := s - 1;
      while s >= 0 && req[s].dev >= 0
        invariant NIL <= s < Limit(cmd)
        invariant FreeBelow(req[..], Limit(cmd)) == FreeBelow(req[..], s + 1)
      {
        s := s - 1;
      }
    }

    /** The loop of add_request: after which request of m's list does slot s belong? */
    method FindPlace(m: nat, s: nat, ghost q: seq<nat>) returns (tmp: nat, ghost i: nat)
      requires m < current.Length && s < req.Length && q != [] && Listed(req[..], current[m], q)
      ensures 0 < i <= |q| && tmp == q[i - 1] < req.Length
      ensures i == At(Line(req[..], q), KeyOf(req[s]))
    {
      ghost var l, x := Line(req[..], q), KeyOf(req[s]);
      i := 1;
      tmp := current[m];
      assert LinkAt(req[..], q, 0);
      while req[tmp].next != NIL && !PlaceFound(tmp, s)
        invariant 1 <= i <= |q| && tmp == q[i - 1] < req.Length
        invariant forall j | 0 < j < i :: !Between(l[j - 1], x, l[j])
        decreases |q| - i
      {
        assert LinkAt(req[..], q, i - 1) && LinkAt(req[..], q, i);
        tmp := req[tmp].next;
        i := i + 1;
      }
      assert LinkAt(req[..], q, i - 1);
      if i < |q| {
        assert LinkAt(req[..], q, i);
      }
      AtUnique(l, x, i);
    }

    predicate PlaceFound(tmp: nat, s: nat)
      reads req
    {
      && tmp < req.Length && s < req.Length && 0 <= req[tmp].next < req.Length
      && var next := req[tmp].next;
      (InOrder(KeyOf(req[tmp]), KeyOf(req[s])) || !InOrder(KeyOf(req[tmp]), KeyOf(req[next]))) && InOrder(KeyOf(req[s]), KeyOf(req[next]))
    }

    /** Slot s comes into m's list, at its place. */
    method Link(m: nat, s: nat, ghost q: seq<nat>)
      requires m < current.Length && s < req.Length && q != [] && s !in q && Listed(req[..], current[m], q)
      modifies req
      ensures var i := At(Line(old(req[..]), q), KeyOf(old(req[s])));
        && 0 < i <= |q| && q[i - 1] < req.Length && q[i - 1] != s
        && req[..] == old(req[..])[s := old(req[s]).(next := old(req[q[i - 1]]).next)][q[i - 1] := old(req[q[i - 1]]).(next := s)]
    {
      var tmp, i := FindPlace(m, s, q);
      req[s] := req[s].(next := req[tmp].next);
      req[tmp] := req[tmp].(next := s);
    }

    /** add_request for slot s, which make_request has filled. */
    method AddRequest(m: nat, s: nat, ghost cmd: int, x: nat)
      requires CanQueue(k, cmd, x, s) && m == Major(k.buf[x].dev)
      requires req[..] == k.req[s := NewReq(k, cmd, x)] && current[..] == k.current && buf[..] == k.buf
      modifies req, current, buf, `k
      ensures CanQueue(old(k), cmd, x, s) && Valid() && k == Queued(old(k), cmd, x, s)
    {
      ghost var k0, r := k, NewReq(k, cmd, x);
      ghost var q := k.queue[m];
      assert SlotOk(k, s) && Listed(k.req, k.current[m], q);
      buf[x] := buf[x].(dirt := false);
      if current[m] == NIL {
        current[m] := s;
      } else {
        ListKept(k0.req, req[..], current[m], q);
        LineKept(k0.req, req[..], q);
        Link(m, s, q);
      }
      k := Queued(k0, cmd, x, s);
      assert req[..] == k.req && current[..] == k.current && buf[..] == k.buf;
      QueuedKeeps(k0, cmd, x, s);
    }

    /** make_request from `repeat` on, with buffer x locked. */
    method Retry(cmd: int, x: nat, ahead: bool)
      requires Valid() && x < buf.Length && OwnerOf(k, x) == PENDING && cmd in {READ, WRITE}
      modifies req, current, buf, `k
      ensures Valid() && k == Retried(old(k), cmd, x, ahead)
      ensures Served(old(req[..]), req[..], old(current[..]), current[..], old(buf[x].(lock := false)), buf[x], cmd, ahead, x)
    {
      ghost var k0 := k;
      Uses(k, x);
      RetriedAs(k, cmd, x, ahead);
      RetriedKeeps(k, cmd, x, ahead);
      var s := FindEmpty(cmd);
      if s == NIL {
        if ahead {
          buf[x] := buf[x].(lock := false);
          k := Unlocked(k0, x);
          assert buf[..] == k.buf;
        }
        return;
      }
      req[s] := Req(buf[x].dev, cmd, 0, 2 * buf[x].block, 2, x, NIL);
      assert req[..] == k.req[s := NewReq(k, cmd, x)];
      AddRequest(Major(buf[x].dev), s, cmd, x);
    }

    /** make_request. With a locked buffer a read-ahead is given up; other callers sleep in lock_buffer
        (`asleep`), and when they are woken they come here again. */
    method MakeRequest(cmd: int, x: nat, ahead: bool) returns (asleep: bool)
      requires Valid() && cmd in {READ, WRITE} && x < buf.Length && 0 < Major(buf[x].dev) < NR_BLK_DEV
      modifies req, current, buf, `k
      ensures Valid() && k == Next(old(k), Make(cmd, ahead, x))
      ensures asleep <==> old(buf[x].lock) && !ahead
      ensures if old(buf[x].lock) then k == old(k)
              else MadeAs(old(req[..]), req[..], old(current[..]), current[..], old(buf[..]), buf[..], cmd, ahead, x)
    {
      if buf[x].lock {
        return !ahead;
      }
      asleep := false;
      ghost var k0 := k;
      MadeRight(k, cmd, ahead, x);
      Uses(k, x);
      LockedKeeps(k, cmd, x);
      assert LockOk(k, x);
      buf[x] := buf[x].(lock := true);
      if (cmd == WRITE && !buf[x].dirt) || (cmd == READ && buf[x].uptodate) {
        buf[x] := buf[x].(lock := false);
        assert buf[..] == k.buf;
        return;
      }
      k := Locked(k0, cmd, x);
      assert buf[..] == k.buf;
      Retry(cmd, x, ahead);
    }

    /** end_request for the head of m's list. */
    method EndRequest(m: nat, uptodate: bool)
      requires Valid() && m < NR_BLK_DEV && k.queue[m] != []
      modifies req, current, buf, `k
      ensures Valid()
      ensures |old(k).current| == |old(k).queue| && 0 <= old(k).current[m] < |old(k).req|
      ensures |old(k).owner| == |old(k).buf| && old(k).req[old(k).current[m]].bh < |old(k).buf|
      ensures k == Ended(old(k), m, uptodate)
      ensures EndedAs(old(req[..]), req[..], old(current[..]), current[..], old(buf[..]), buf[..], m, uptodate)
    {
      ghost var k0 := k;
      EndedRight(k, m, uptodate);
      HeadUses(k, m);
      EndedKeeps(k, m, uptodate);
      var s := current[m];
      var x := req[s].bh;
      buf[x] := buf[x].(uptodate := uptodate);
      buf[x] := buf[x].(lock := false);
      req[s] := req[s].(dev := -1);
      current[m] := req[s].next;
      k := Ended(k0, m, uptodate);
      assert req[..] == k.req && current[..] == k.current && buf[..] == k.buf;
    }

    /** read_intr and write_intr; ok tells that the drive reports no error. */
    method Interrupt(m: nat, ok: bool)
      requires Valid() && m < NR_BLK_DEV && k.queue[m] != []
      modifies req, current, buf, `k
      ensures Valid() && k == Next(old(k), Op.Interrupt(m, ok))
      ensures InterruptedAs(old(req[..]), req[..], old(current[..]), current[..], old(buf[..]), buf[..], m, ok)
    {
      ghost var k0 := k;
      InterruptedRight(k, m, ok);
      HeadUses(k, m);
      NextKeeps(k, Op.Interrupt(m, ok));
      var s := current[m];
      assert ReqOk(k, s);
      if !ok {
        if req[s].errors + 1 >= MAX_ERRORS {
          EndRequest(m, false);
          return;
        }
        req[s] := req[s].(errors := req[s].errors + 1);
      } else {
        if req[s].left == 1 {
          EndRequest(m, true);
          return;
        }
        if req[s].cmd == READ {
          req[s] := req[s].(errors := 0);
        }
        req[s] := req[s].(sector := req[s].sector + 1, left := req[s].left - 1);
      }
      k := Next(k0, Op.Interrupt(m, ok));
      assert req[..] == k.req;
    }

    /** Somebody else changes a buffer's flags, or uses an unlocked buffer for another block. */
    method ChangeBuffer(x: nat, b: Buf)
      requires Valid() && x < buf.Length && b.lock == k.buf[x].lock
      requires k.buf[x].lock ==> b.dev == k.buf[x].dev && b.block == k.buf[x].block
      requires b == k.buf[x].(dirt := b.dirt, uptodate := b.uptodate)
        || forall y | 0 <= y < |k.buf| && y != x :: k.buf[y].dev != b.dev || k.buf[y].block != b.block
      modifies buf, `k
      ensures Valid() && k == old(k).(buf := old(k).buf[x := b])
    {
      BufferKeeps(k, x, b);
      buf[x] := b;
      k := k.(buf := k.buf[x := b]);
      assert buf[..] == k.buf;
    }

    method Do(op: Op)
      requires Valid() && Enabled(k, op)
      modifies req, current, buf, `k
      ensures Valid() && k == Next(old(k), op)
    {
      match op
      case Make(cmd, ahead, x) => var _ := MakeRequest(cmd, x, ahead);
      case Retry(cmd, x) => Retry(cmd, x, false);
      case Interrupt(m, ok) => Interrupt(m, ok);
      case Fail(m) => EndRequest(m, false);
      case Reuse(x, dev, block) => ChangeBuffer(x, buf[x].(dev := dev, block := block));
      case Touch(x, dirt, uptodate) => ChangeBuffer(x, buf[x].(dirt := dirt, uptodate := uptodate));
    }

    /** Is there a request for buffer x? */
    method HasRequest(x: nat) returns (r: bool)
      requires Valid()
      ensures r <==> exists s :: 0 <= s < req.Length && req[s].dev >= 0 && req[s].bh == x
    {
      var s := 0;
      while s < req.Length
        invariant 0 <= s <= req.Length && forall i | 0 <= i < s :: !(req[i].dev >= 0 && req[i].bh == x)
      {
        if req[s].dev >= 0 && req[s].bh == x {
          return true;
        }
        s := s + 1;
      }
      r := false;
    }

    /** Does no buffer but x hold this block? */
    method Unused(x: nat, dev: int, block: int) returns (r: bool)
      ensures r <==> forall y | 0 <= y < buf.Length && y != x :: buf[y].dev != dev || buf[y].block != block
    {
      var i := 0;
      while i < buf.Length
        invariant 0 <= i <= buf.Length && forall y | 0 <= y < i && y != x :: buf[y].dev != dev || buf[y].block != block
      {
        if i != x && buf[i].dev == dev && buf[i].block == block {
          return false;
        }
        i := i + 1;
      }
      r := true;
    }

    /** A caller waits for a slot exactly if its buffer is locked and no request is for it. */
    lemma PendingIs(x: nat)
      requires Valid() && x < buf.Length
      ensures OwnerOf(k, x) == PENDING <==> buf[x].lock && !exists s :: 0 <= s < req.Length && req[s].dev >= 0 && req[s].bh == x
    {
      assert LockOk(k, x);
      forall s: nat | s < NR_REQUEST && req[s].dev >= 0 && req[s].bh == x
        ensures OwnerOf(k, x) == s
      {
        assert ReqOk(k, s);
      }
    }

    lemma BusyIs(m: nat)
      requires Valid()
      ensures m < |k.queue| && k.queue[m] != [] <==> m < current.Length && current[m] != NIL
    {
      if m < NR_BLK_DEV {
        assert Listed(k.req, k.current[m], k.queue[m]);
      }
    }

    /** Can op happen now? */
    method Possible(op: Op) returns (r: bool)
      requires Valid()
      ensures r <==> Enabled(k, op)
    {
      match op
      case Make(cmd, _, x) => r := cmd in {READ, WRITE} && x < buf.Length && !buf[x].lock && 0 < Major(buf[x].dev) < NR_BLK_DEV;
      case Retry(cmd, x) =>
        r := false;
        if cmd in {READ, WRITE} && x < buf.Length {
          PendingIs(x);
          var served := HasRequest(x);
          r := buf[x].lock && !served;
        }
      case Interrupt(m, _) =>
        BusyIs(m);
        r := m < current.Length && current[m] != NIL;
      case Fail(m) =>
        BusyIs(m);
        r := m < current.Length && current[m] != NIL;
      case Reuse(x, dev, block) =>
        r := Unused(x, dev, block);
        r := r && x < buf.Length && !buf[x].lock;
      case Touch(x, _, _) => r := x < buf.Length;
    }

    /** Any run, from any reachable state, is the machine's run. Steps that cannot happen are passed
        over. */
    method Execute(ops: seq<Op>)
      requires Valid()
      modifies req, current, buf, `k
      ensures Valid() && k == ElevatorTheorems.Run(old(k), ops)
    {
      ghost var k0 := k;
      var i := 0;
      while i < |ops|
        invariant 0 <= i <= |ops| && Valid()
        invariant ElevatorTheorems.Run(k0, ops) == ElevatorTheorems.Run(k, ops[i..])
      {
        assert ops[i..][0] == ops[i] && ops[i..][1..] == ops[i + 1..];
        NextKeeps(k, ops[i]);
        var possible := Possible(ops[i]);
        if possible {
          Do(ops[i]);
        }
        i := i + 1;
      }
    }
  }
}
