/** What holds over whole runs of the request queues. */
module ElevatorTheorems {
  import opened Sequences
  import opened ElevatorOrder
  import opened Elevator
  import opened ElevatorSteps

  function Run(k: Disk, ops: seq<Op>): (r: Disk)
    requires Inv(k)
    ensures Inv(r)
    decreases |ops|
  {
    NextKeeps(k, if ops == [] then Fail(0) else ops[0]);
    if ops == [] then k else Run(Next(k, ops[0]), ops[1..])
  }

  /** Does op end the request at the head of m's list? */
  predicate Ends(k: Disk, op: Op, m: nat)
    requires Inv(k)
  {
    && m < |k.queue| && k.queue[m] != []
    && match op
       case Fail(n) => n == m
       case Interrupt(n, ok) => HeadUses(k, m); n == m && Final(k.req[k.current[m]], ok)
       case _ => false
  }

  /** Slot s waits in m's list, or is being served. */
  predicate In(k: Disk, m: nat, s: nat) {
    m < |k.queue| && s in k.queue[m]
  }

  /** The turns of the elevator before s is reached, as the list is now. */
  function Ahead(k: Disk, m: nat, s: nat): nat
    requires In(k, m, s)
  {
    TurnsTo(Line(k.req, k.queue[m]), Pos(k.queue[m], s))
  }

  /** 1 if the elevator turns back as op ends a request. */
  function TurnMade(k: Disk, op: Op, m: nat): nat
    requires Inv(k)
  {
    if Ends(k, op, m) && |k.queue[m]| > 1 then Turn(Line(k.req, k.queue[m])[0], Line(k.req, k.queue[m])[1]) else 0
  }

  // ----- what a step does to a list -----

  /** Slot s, free before, came into m's list with key x: alone, or at its elevator place, which is
      never in front of the head. */
  ghost predicate Added(k: Disk, k': Disk, m: nat, s: nat, x: Key) {
    && m < |k.queue| && m < |k'.queue| && s !in k.queue[m] && s < |k.req| == |k'.req|
    && k.req[s].dev < 0 && KeyOf(k'.req[s]) == x
    && if k.queue[m] == [] then k'.queue[m] == [s]
       else
         && Fresh(Line(k.req, k.queue[m]), x)
         && k'.queue[m] == InsertAt(k.queue[m], At(Line(k.req, k.queue[m]), x), s)
         && Line(k'.req, k'.queue[m]) == Inserted(Line(k.req, k.queue[m]), x)
  }

  ghost predicate SameList(k: Disk, k': Disk, m: nat) {
    && m < |k.queue| && m < |k'.queue| && k'.queue[m] == k.queue[m]
    && forall i: nat | i < |k.queue[m]| :: TurnsTo(Line(k'.req, k.queue[m]), i) == TurnsTo(Line(k.req, k.queue[m]), i)
  }

  lemma QueuedAdds(k: Disk, cmd: int, x: nat, s: nat, m: nat)
    requires CanQueue(k, cmd, x, s) && m == Major(k.buf[x].dev)
    ensures Added(k, Queued(k, cmd, x, s), m, s, KeyOf(NewReq(k, cmd, x)))
  {
    assert SlotOk(k, s);
    if k.queue[m] != [] {
      NewIsFresh(k, cmd, x, m);
      LineInserted(k.req, k.queue[m], At(Line(k.req, k.queue[m]), KeyOf(NewReq(k, cmd, x))), s, NewReq(k, cmd, x));
    }
  }

  lemma RetryGrows(k: Disk, cmd: int, x: nat, ahead: bool, m: nat)
    requires Inv(k) && m < NR_BLK_DEV && x < |k.buf| && OwnerOf(k, x) == PENDING && cmd in {READ, WRITE}
    ensures var k' := Retried(k, cmd, x, ahead);
      SameList(k, k', m) || exists s, y :: Added(k, k', m, s, y)
  {
    Uses(k, x);
    var s := FreeBelow(k.req, Limit(cmd));
    var k' := Retried(k, cmd, x, ahead);
    if s != NIL {
      assert SlotOk(k, s);
      var n := Major(k.buf[x].dev);
      if n != m {
        OthersKept(k, k', m, n, s);
      } else {
        QueuedAdds(k, cmd, x, s, m);
      }
    }
  }

  /** A step that ends no request of m leaves m's list as it is, or adds one request to it. */
  lemma ListGrows(k: Disk, op: Op, m: nat)
    requires Inv(k) && m < NR_BLK_DEV && !Ends(k, op, m)
    ensures var k' := Next(k, op);
      SameList(k, k', m) || exists s, x :: Added(k, k', m, s, x)
  {
    if Enabled(k, op) {
      match op
      case Make(cmd, ahead, x) =>
        Uses(k, x);
        LockedKeeps(k, cmd, x);
        var k1 := Locked(k, cmd, x);
        if OwnerOf(k1, x) == PENDING {
          RetryGrows(k1, cmd, x, ahead, m);
          if s, y :| Added(k1, Next(k, op), m, s, y) {
            assert Added(k, Next(k, op), m, s, y);
          }
        }
      case Retry(cmd, x) => RetryGrows(k, cmd, x, false, m);
      case Interrupt(n, ok) => OtherInterrupt(k, n, ok, m);
      case Fail(n) => OtherEnded(k, n, false, m);
      case Reuse(_, _, _) =>
      case Touch(_, _, _) =>
    }
  }

  lemma OtherEnded(k: Disk, n: nat, uptodate: bool, m: nat)
    requires Inv(k) && m < NR_BLK_DEV && n < NR_BLK_DEV && m != n && k.queue[n] != []
    ensures |k.current| == |k.queue| && |k.owner| == |k.buf|
    ensures 0 <= k.current[n] < |k.req| && k.req[k.current[n]].bh < |k.buf|
    ensures SameList(k, Ended(k, n, uptodate), m)
  {
    HeadUses(k, n);
    assert SlotOk(k, k.current[n]);
    OthersKept(k, Ended(k, n, uptodate), m, n, k.current[n]);
  }

  lemma OtherInterrupt(k: Disk, n: nat, ok: bool, m: nat)
    requires Inv(k) && m < NR_BLK_DEV && Enabled(k, Interrupt(n, ok)) && !Ends(k, Interrupt(n, ok), m)
    ensures SameList(k, Next(k, Interrupt(n, ok)), m)
  {
    HeadUses(k, n);
    var s := k.current[n];
    if n != m {
      if Final(k.req[s], ok) {
        OtherEnded(k, n, ok, m);
      } else {
        assert SlotOk(k, s);
        OthersKept(k, Next(k, Interrupt(n, ok)), m, n, s);
      }
    } else {
      AdvancedKeeps(k, m, ok);
    }
  }

  lemma EndsIs(k: Disk, op: Op, m: nat)
    requires Inv(k) && Ends(k, op, m)
    ensures m < NR_BLK_DEV && Next(k, op).queue == k.queue[m := k.queue[m][1..]]
    ensures Line(Next(k, op).req, k.queue[m][1..]) == Line(k.req, k.queue[m])[1..]
  {
    HeadUses(k, m);
    EndedKeeps(k, m, false);
    var q, s := k.queue[m], k.current[m];
    assert Listed(k.req, s, q);
    TailListed(k.req, s, q);
    LineKept(k.req, Next(k, op).req, q[1..]);
  }

  // ----- fairness -----

  /** While s waits, each step either adds no turn before it, or makes one of those turns. */
  lemma AheadStep(k: Disk, op: Op, m: nat, s: nat)
    requires Inv(k) && In(k, m, s) && !(Ends(k, op, m) && k.current[m] == s)
    ensures In(Next(k, op), m, s)
    ensures Ahead(Next(k, op), m, s) + TurnMade(k, op, m) <= Ahead(k, m, s)
  {
    var k', q := Next(k, op), k.queue[m];
    NextKeeps(k, op);
    assert Listed(k.req, k.current[m], q) && Listed(k'.req, k'.current[m], k'.queue[m]);
    var i := Pos(q, s);
    if Ends(k, op, m) {
      EndsIs(k, op, m);
      assert i > 0 && q[1..][i - 1] == s;
      PosIs(q[1..], i - 1);
    } else {
      ListGrows(k, op, m);
      if t, x :| Added(k, k', m, t, x) {
        AheadAdded(k, k', m, s, t, x);
      }
    }
  }

  lemma AheadAdded(k: Disk, k': Disk, m: nat, s: nat, t: nat, x: Key)
    requires In(k, m, s) && Added(k, k', m, t, x) && Distinct(k'.queue[m])
    ensures In(k', m, s) && Ahead(k', m, s) <= Ahead(k, m, s)
  {
    var q, l := k.queue[m], Line(k.req, k.queue[m]);
    var i := Pos(q, s);
    var j := if i < At(l, x) then i else i + 1;
    assert k'.queue[m][j] == s;
    PosIs(k'.queue[m], j);
    InsertBefore(l, x, i);
  }

  /** s's request is not ended during the run. */
  predicate Waits(k: Disk, ops: seq<Op>, m: nat, s: nat)
    requires Inv(k)
    decreases |ops|
  {
    NextKeeps(k, if ops == [] then Fail(0) else ops[0]);
    && In(k, m, s)
    && (ops == [] || (!(Ends(k, ops[0], m) && IsHead(k, s)) && Waits(Next(k, ops[0]), ops[1..], m, s)))
  }

  /** How often the elevator of m turns back in the run. */
  function TurnsMade(k: Disk, ops: seq<Op>, m: nat): nat
    requires Inv(k)
    decreases |ops|
  {
    NextKeeps(k, if ops == [] then Fail(0) else ops[0]);
    if ops == [] then 0 else TurnMade(k, ops[0], m) + TurnsMade(Next(k, ops[0]), ops[1..], m)
  }

  /** The turns that are made while s waits were before it from the beginning. */
  lemma {:induction false} AheadRun(k: Disk, ops: seq<Op>, m: nat, s: nat)
    requires Inv(k) && Waits(k, ops, m, s)
    ensures In(Run(k, ops), m, s) && TurnsMade(k, ops, m) + Ahead(Run(k, ops), m, s) <= Ahead(k, m, s)
    decreases |ops|
  {
    if ops == [] {
    } else {
      NextKeeps(k, ops[0]);
      HeadOf(k, m, s);
      AheadStep(k, ops[0], m, s);
      AheadRun(Next(k, ops[0]), ops[1..], m, s);
    }
  }

  lemma HeadOf(k: Disk, m: nat, s: nat)
    requires Inv(k) && In(k, m, s)
    ensures IsHead(k, s) <==> k.current[m] == s
  {
    assert Listed(k.req, k.current[m], k.queue[m]);
    var i := Pos(k.queue[m], s);
    assert LinkAt(k.req, k.queue[m], i) && SlotOk(k, s);
  }

  /** Fairness: whatever is added meanwhile, a request is served before the elevator has turned back
      twice. */
  lemma OneTurn(k: Disk, ops: seq<Op>, m: nat, s: nat)
    requires Inv(k) && Waits(k, ops, m, s)
    ensures TurnsMade(k, ops, m) <= 1
  {
    AheadRun(k, ops, m, s);
    assert Turns(Line(k.req, k.queue[m])) <= 1;
    TurnsToLess(Line(k.req, k.queue[m]), Pos(k.queue[m], s));
  }

  /** A new request does not come in front of the request in service, nor disturb the order of the
      others; it is in the list once. */
  lemma HeadInService(k: Disk, op: Op, m: nat)
    requires Inv(k) && m < NR_BLK_DEV && k.queue[m] != [] && !Ends(k, op, m)
    ensures Inv(Next(k, op))
    ensures var q, q' := k.queue[m], Next(k, op).queue[m];
      && q' != [] && q'[0] == q[0] && Next(k, op).current[m] == k.current[m]
      && (q' == q || exists i, s :: 1 <= i <= |q| && s !in q && q' == InsertAt(q, i, s))
  {
    NextKeeps(k, op);
    ListGrows(k, op, m);
    assert Listed(k.req, k.current[m], k.queue[m]) && Listed(Next(k, op).req, Next(k, op).current[m], Next(k, op).queue[m]);
    if s, x :| Added(k, Next(k, op), m, s, x) {
      var i := At(Line(k.req, k.queue[m]), x);
      assert 1 <= i <= |k.queue[m]| && Next(k, op).queue[m] == InsertAt(k.queue[m], i, s);
    }
  }
}
