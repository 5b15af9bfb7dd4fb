/** What holds over whole runs: no sleeper is lost, one wake_up reaches every earlier sleeper, and a
    ready task waits for a bounded number of ticks. */
module SchedTheorems {
  import opened SchedState
  import opened SchedSteps

  function Run(m: Machine, ops: seq<Op>): (r: Machine)
    requires Inv(m)
    ensures Inv(r)
    decreases |ops|
  {
    NextKeeps(m, if ops == [] then Return else ops[0]);
    if ops == [] then m else Run(Next(m, ops[0]), ops[1..])
  }

  // ----- no lost sleeper -----

  /** The task that is reached from f over k saved tmp links. */
  function Follow(ts: seq<Task>, f: int, k: nat): int {
    if k == 0 then f
    else
      var t := Follow(ts, f, k - 1);
      if 0 <= t < |ts| then ts[t].saved else NIL
  }

  /** Somebody is going to wake f: it is the head of a channel, or it is awake already. */
  ghost predicate Origin(m: Machine, f: nat) {
    (exists c :: 0 <= c < |m.chan| && m.chan[c] == f) || (f < |m.task| && m.task[f].sleeping && m.task[f].state == RUNNING)
  }

  lemma {:induction false} FollowChain(ts: seq<Task>, s: seq<nat>, k: nat)
    requires ChainOk(ts, s) && s != []
    ensures Follow(ts, s[0], k) == if k < |s| then s[k] else NIL
  {
    if k == 0 {
    } else {
      FollowChain(ts, s, k - 1);
      if k <= |s| {
        assert LinkAt(ts, s, k - 1);
      }
    }
  }

  /** The chain in which a task inside sleep_on is. */
  function ChainOf(m: Machine, t: nat): seq<nat> {
    match PlaceOf(m, t)
    case Out => []
    case On(c) => if c < |m.queue| then m.queue[c] else []
    case Behind(w) => if w < |m.loose| then m.loose[w] else []
  }

  lemma ChainIsOk(m: Machine, t: nat)
    requires Queues(m) && t < NR_TASKS && m.task[t].sleeping
    ensures t in ChainOf(m, t) && ChainOk(m.task, ChainOf(m, t)) && Origin(m, ChainOf(m, t)[0])
  {
    assert PlaceOk(m, t);
    match PlaceOf(m, t)
    case On(c) => assert QueueOk(m, c) && m.chan[c] == m.queue[c][0];
    case Behind(w) =>
      assert LooseOk(m, w) && LinkAt(m.task, m.loose[w], 0);
  }

  /** The chain that starts with an origin. */
  lemma OriginChain(m: Machine, f: nat)
    requires Queues(m) && Origin(m, f)
    ensures f < NR_TASKS && m.task[f].sleeping && ChainOf(m, f) != [] && ChainOf(m, f)[0] == f && ChainOk(m.task, ChainOf(m, f))
    ensures forall t | t in ChainOf(m, f) :: t < NR_TASKS && PlaceOf(m, t) == PlaceOf(m, f)
  {
    if c :| 0 <= c < |m.chan| && m.chan[c] == f {
      assert QueueOk(m, c);
      var s := m.queue[c];
      assert s[0] == f && LinkAt(m.task, s, 0) && f in s && PlaceOk(m, f);
      ChainMembers(m, s, On(c));
    } else {
      SleeperState(m, f);
      assert PlaceOk(m, f) && LooseOk(m, f);
      ChainMembers(m, m.loose[f], Behind(f));
    }
  }

  lemma ChainMembers(m: Machine, s: seq<nat>, p: Place)
    requires Queues(m) && ChainOk(m.task, s)
    requires match p case Out => false case On(c) => c < |m.queue| && s == m.queue[c] case Behind(w) => w < |m.loose| && s == m.loose[w]
    ensures forall t | t in s :: t < NR_TASKS && PlaceOf(m, t) == p
  {
    forall t | t in s
      ensures t < NR_TASKS && PlaceOf(m, t) == p
    {
      var k :| 0 <= k < |s| && s[k] == t;
      assert LinkAt(m.task, s, k) && PlaceOk(m, t);
    }
  }

  /** Every task that sleeps in sleep_on is reached over saved tmp links from a channel head or from a
      woken task that is still in sleep_on. */
  lemma NoLostSleeper(m: Machine, t: nat)
    requires Inv(m) && t < NR_TASKS && m.task[t].sleeping
    ensures exists f: nat, k: nat :: Origin(m, f) && Follow(m.task, f, k) == t
  {
    ChainIsOk(m, t);
    var s := ChainOf(m, t);
    var k :| 0 <= k < |s| && s[k] == t;
    FollowChain(m.task, s, k);
    assert Origin(m, s[0]) && Follow(m.task, s[0], k) == t;
  }

  /** There is only one such origin, and one distance from it. */
  lemma OneOrigin(m: Machine, f: nat, k: nat, g: nat, l: nat)
    requires Inv(m) && Origin(m, f) && Origin(m, g) && Follow(m.task, f, k) == Follow(m.task, g, l) != NIL
    ensures f == g && k == l
  {
    OriginChain(m, f);
    OriginChain(m, g);
    var s, u := ChainOf(m, f), ChainOf(m, g);
    FollowChain(m.task, s, k);
    FollowChain(m.task, u, l);
    assert s[k] in s && u[l] in u;
    assert PlaceOf(m, f) == PlaceOf(m, g);
  }

  // ----- one wake_up reaches all -----

  /** x has been woken, or k sleepers after a woken task come before it. */
  ghost predicate Due(m: Machine, x: nat, k: nat) {
    PlaceOf(m, x).Behind? && k < |ChainOf(m, x)| && ChainOf(m, x)[k] == x
  }

  /** The step by which the woken task in front of x leaves sleep_on. */
  predicate Leads(m: Machine, op: Op, x: nat) {
    op == Return && Enabled(m, op) && PlaceOf(m, x) == Behind(m.current)
  }

  lemma WakeUpStarts(m: Machine, c: nat, k: nat)
    requires Inv(m) && c < |m.chan| && k < |m.queue[c]|
    ensures Due(Next(m, WakeUp(c)), m.queue[c][k], k)
  {
    var s, m' := m.queue[c], Next(m, WakeUp(c));
    var x := s[k];
    assert QueueOk(m, c) && LinkAt(m.task, s, k);
    assert x in s && PlaceOk(m, x);
    assert m' == WokenUp(m, c);
  }

  /** Nothing but such a step changes how many sleepers come before x. */
  lemma DueStays(m: Machine, op: Op, x: nat, k: nat)
    requires Inv(m) && Due(m, x, k)
    ensures !Leads(m, op, x) ==> Due(Next(m, op), x, k)
    ensures Leads(m, op, x) && k > 0 ==> Due(Next(m, op), x, k - 1)
  {
    var w := PlaceOf(m, x).woken;
    assert x in ChainOf(m, x);
    if Enabled(m, op) {
      InTable(m, x);
      if op.SleepOn? {
        SleptKeeps(m, op.chan);
        assert PlaceOk(m, m.current);
      } else if op.WakeUp? {
        DueOverWake(m, op.chan, x, k);
      } else if op.Return? {
        DueOverReturn(m, x, k);
      }
    }
  }

  lemma InTable(m: Machine, x: nat)
    requires Queues(m) && PlaceOf(m, x) != Out
    ensures x < NR_TASKS && PlaceOk(m, x) && m.task[x].sleeping
  {
    assert x < |m.place|;
    assert PlaceOk(m, x);
  }

  lemma DueOverWake(m: Machine, c: nat, x: nat, k: nat)
    requires Inv(m) && Due(m, x, k) && c < |m.chan|
    ensures Due(Next(m, WakeUp(c)), x, k)
  {
    InTable(m, x);
    Uses(m);
    var h := m.chan[c];
    assert QueueOk(m, c) && x !in m.queue[c];
    if h != NIL {
      assert h in m.queue[c] && PlaceOk(m, h);
      NoFrontYet(m, h);
    }
  }

  lemma DueOverReturn(m: Machine, x: nat, k: nat)
    requires Inv(m) && Due(m, x, k) && Enabled(m, Return)
    ensures PlaceOf(m, x) != Behind(m.current) ==> Due(Next(m, Return), x, k)
    ensures PlaceOf(m, x) == Behind(m.current) && k > 0 ==> Due(Next(m, Return), x, k - 1)
  {
    Uses(m);
    InTable(m, x);
    assert PlaceOk(m, m.current);
    var t, s := m.current, m.loose[m.current];
    var next := m.task[t].saved;
    assert LooseOk(m, t);
    TailChain(m.task, s);
    if next != NIL {
      assert next in s && PlaceOk(m, next);
      NoFrontYet(m, next);
      if PlaceOf(m, x) != Behind(t) {
        assert x !in s;
      }
    }
  }

  /** How often in a run a task in front of x, or x itself, leaves sleep_on. */
  function Leaving(m: Machine, ops: seq<Op>, x: nat): nat
    requires Inv(m)
    decreases |ops|
  {
    if ops == [] then 0
    else
      NextKeeps(m, ops[0]);
      (if Leads(m, ops[0], x) then 1 else 0) + Leaving(Next(m, ops[0]), ops[1..], x)
  }

  /** Over any run, after as many of the woken tasks have run as stood before x, x is awake. */
  lemma {:induction false} WokenInTurn(m: Machine, ops: seq<Op>, x: nat, k: nat)
    requires Inv(m) && Due(m, x, k) && Leaving(m, ops, x) <= k
    ensures Due(Run(m, ops), x, k - Leaving(m, ops, x))
    ensures Leaving(m, ops, x) == k ==> Run(m, ops).task[x].state == RUNNING
    decreases |ops|
  {
    if ops == [] {
      InTable(m, x);
      if k == 0 {
        assert LooseOk(m, PlaceOf(m, x).woken);
      }
    } else {
      NextKeeps(m, ops[0]);
      DueStays(m, ops[0], x, k);
      WokenInTurn(Next(m, ops[0]), ops[1..], x, if Leads(m, ops[0], x) then k - 1 else k);
    }
  }

  // ----- bounded waiting -----

  function Share(t: Task): int {
    if t.present then t.counter else 0
  }

  function Total(ts: seq<Task>): int {
    if ts == [] then 0 else Total(ts[..|ts| - 1]) + Share(ts[|ts| - 1])
  }

  lemma {:induction false} TotalUpdate(ts: seq<Task>, i: nat, t: Task)
    requires i < |ts|
    ensures Total(ts[i := t]) == Total(ts) - Share(ts[i]) + Share(t)
  {
    var n := |ts| - 1;
    if i == n {
      assert ts[i := t][..n] == ts[..n];
    } else {
      assert ts[i := t][..n] == ts[..n][i := t];
      TotalUpdate(ts[..n], i, t);
    }
  }

  lemma {:induction false} TotalSame(ts: seq<Task>, ts': seq<Task>)
    requires |ts| == |ts'| && forall i | 0 <= i < |ts| :: Share(ts[i]) == Share(ts'[i])
    ensures Total(ts) == Total(ts')
  {
    if ts == [] {
    } else {
      TotalSame(ts[..|ts| - 1], ts'[..|ts| - 1]);
    }
  }

  lemma {:induction false} TotalAtLeast(ts: seq<Task>, i: nat)
    requires i < |ts| && forall j | 0 <= j < |ts| :: CounterOk(ts[j])
    ensures Total(ts) >= Share(ts[i])
  {
    var n := |ts| - 1;
    if i < n {
      TotalAtLeast(ts[..n], i);
    } else if n > 0 {
      TotalAtLeast(ts[..n], 0);
    }
  }

  /** What is left to use up: all counters, and one tick if the running task has none left. */
  function Potential(m: Machine): int
    requires m.current < |m.task|
  {
    Total(m.task) + if m.task[m.current].counter == 0 then 1 else 0
  }

  predicate Waits(m: Machine, t: nat) {
    0 < t < |m.task| && Ready(m.task[t]) && m.task[t].counter > 0 && m.current != t
  }

  function UserTick(m: Machine, op: Op): nat {
    if op == Tick(true) && Enabled(m, op) then 1 else 0
  }

  /** The counter that a new task brings. */
  function Brought(m: Machine, op: Op): int
    requires m.current < |m.task|
  {
    if op.Fork? && Enabled(m, op) then m.task[m.current].priority else 0
  }

  /** Does this step refresh the counters? */
  predicate Refreshes(m: Machine, op: Op)
    requires Inv(m)
  {
    && Enabled(m, op) && Yields(m, op)
    && var b := Begun(m, op);
    Scan(NoticedAll(b.task, b.jiffies), 1).c == 0
  }

  lemma BegunPotential(m: Machine, op: Op, t: nat)
    requires Inv(m) && Waits(m, t) && Enabled(m, op)
    ensures var b := Begun(m, op);
      && Waits(b, t) && b.task[t].counter == m.task[t].counter && b.current == m.current < |b.task|
      && (Yields(m, op) ==> Total(b.task) + UserTick(m, op) <= Potential(m))
      && (!Yields(m, op) ==> Potential(b) + UserTick(m, op) <= Potential(m) + Brought(m, op))
  {
    Uses(m);
    var b := Begun(m, op);
    assert CounterOk(m.task[m.current]);
    match op
    case Tick(user) => TotalUpdate(m.task, m.current, b.task[m.current]);
    case SleepOn(c) => TotalUpdate(m.task, m.current, b.task[m.current]);
    case Return => TotalSame(m.task, b.task);
    case WakeUp(c) => TotalSame(m.task, b.task);
    case Pause => TotalUpdate(m.task, m.current, b.task[m.current]);
    case Signal(to, sent) => TotalUpdate(m.task, to, b.task[to]);
    case SetAlarm(when) => TotalUpdate(m.task, m.current, b.task[m.current]);
    case Fork(slot) => TotalUpdate(m.task, slot, b.task[slot]);
    case Exit => TotalUpdate(m.task, m.current, b.task[m.current]);
    case Release(slot) =>
      assert CounterOk(m.task[slot]);
      TotalUpdate(m.task, slot, b.task[slot]);
  }

  /** While a task waits with time left, schedule does not refresh the counters. */
  lemma ScheduledPotential(m: Machine, t: nat)
    requires Bounds(m) && Waits(m, t)
    ensures Scan(NoticedAll(m.task, m.jiffies), 1).c != 0
    ensures var m' := Scheduled(m);
      && m'.current < |m'.task| && Potential(m') == Total(m.task)
      && Ready(m'.task[t]) && m'.task[t].counter == m.task[t].counter
  {
    var ts := NoticedAll(m.task, m.jiffies);
    ScanBest(ts, 1);
    assert Ready(ts[t]);
    Chosen(m);
    TotalSame(m.task, ts);
  }

  /** Each step of a run in which t waits: no refresh, t keeps its counter, and every user tick
      uses up one unit of the potential. */
  lemma WaitingStep(m: Machine, op: Op, t: nat)
    requires Inv(m) && Waits(m, t)
    ensures Inv(Next(m, op)) && !Refreshes(m, op)
    ensures Next(m, op).task[t].counter == m.task[t].counter && Ready(Next(m, op).task[t])
    ensures Potential(Next(m, op)) + UserTick(m, op) <= Potential(m) + Brought(m, op)
  {
    NextKeeps(m, op);
    if Enabled(m, op) {
      BegunKeeps(m, op);
      BegunPotential(m, op, t);
      if Yields(m, op) {
        ScheduledPotential(Begun(m, op), t);
      }
    }
  }

  /** t is not dispatched in the run. */
  predicate NeverRuns(m: Machine, ops: seq<Op>, t: nat)
    requires Inv(m)
    decreases |ops|
  {
    NextKeeps(m, if ops == [] then Return else ops[0]);
    m.current != t && (ops == [] || NeverRuns(Next(m, ops[0]), ops[1..], t))
  }

  /** User ticks, refreshes, and counters of new tasks, over a run. */
  function UserTicks(m: Machine, ops: seq<Op>): nat
    requires Inv(m)
    decreases |ops|
  {
    NextKeeps(m, if ops == [] then Return else ops[0]);
    if ops == [] then 0 else UserTick(m, ops[0]) + UserTicks(Next(m, ops[0]), ops[1..])
  }

  function Refreshings(m: Machine, ops: seq<Op>): nat
    requires Inv(m)
    decreases |ops|
  {
    NextKeeps(m, if ops == [] then Return else ops[0]);
    if ops == [] then 0 else (if Refreshes(m, ops[0]) then 1 else 0) + Refreshings(Next(m, ops[0]), ops[1..])
  }

  function BroughtIn(m: Machine, ops: seq<Op>): int
    requires Inv(m)
    decreases |ops|
  {
    NextKeeps(m, if ops == [] then Return else ops[0]);
    if ops == [] then 0 else Brought(m, ops[0]) + BroughtIn(Next(m, ops[0]), ops[1..])
  }

  lemma {:induction false} WaitingRun(m: Machine, ops: seq<Op>, t: nat)
    requires Inv(m) && Waits(m, t) && NeverRuns(m, ops, t)
    ensures Waits(Run(m, ops), t) && Refreshings(m, ops) == 0
    ensures Potential(Run(m, ops)) + UserTicks(m, ops) <= Potential(m) + BroughtIn(m, ops)
    decreases |ops|
  {
    if ops == [] {
    } else {
      WaitingStep(m, ops[0], t);
      WaitingRun(Next(m, ops[0]), ops[1..], t);
    }
  }

  /** Bounded waiting: a ready task with time left runs before the user programs have used as many
      ticks as all counters together (plus those of tasks created meanwhile); until then no
      counter is refreshed. */
  lemma BoundedWaiting(m: Machine, ops: seq<Op>, t: nat)
    requires Inv(m) && Waits(m, t)
    ensures UserTicks(m, ops) >= Potential(m) + BroughtIn(m, ops) ==> !NeverRuns(m, ops, t)
    ensures Refreshings(m, ops) > 0 ==> !NeverRuns(m, ops, t)
  {
    if NeverRuns(m, ops, t) {
      WaitingRun(m, ops, t);
      var r := Run(m, ops);
      TotalAtLeast(r.task, t);
    }
  }
}
