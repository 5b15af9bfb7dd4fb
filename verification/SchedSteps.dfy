/** Every step of the machine keeps its invariants, and what schedule chooses. */
module SchedSteps {
  import opened Sequences
  import opened SchedState

  // ----- the choice that schedule makes -----

  /** Scan finds the first of the largest counters, counting down from the last task. */
  lemma {:induction false} ScanBest(ts: seq<Task>, i: nat)
    ensures var best := Scan(ts, i);
      && (forall j | i <= j < |ts| && Ready(ts[j]) && ts[j].counter >= 0 :: ts[j].counter < best.c || (ts[j].counter == best.c && j <= best.next))
      && (best.c == -1 ==> best.next == 0)
      && (best.c != -1 ==> i <= best.next < |ts| && Ready(ts[best.next]) && ts[best.next].counter == best.c >= 0)
    decreases |ts| - i
  {
    if i >= |ts| {
    } else {
      ScanBest(ts, i + 1);
    }
  }

  /** A refresh halves what the counter lacks to 2p - 1, so it stays below twice the priority p, and a
      task that was asleep for a while has more time than one that has used all of its. */
  lemma RenewedOk(t: Task)
    requires CounterOk(t)
    ensures CounterOk(Renewed(t))
    ensures t.present ==> 2 * t.priority - 1 - Renewed(t).counter == (2 * t.priority - 1 - t.counter) / 2
    ensures t.present ==> Renewed(t).counter >= t.priority && Renewed(t).counter >= t.counter
  {
  }

  /** The signal part of schedule: an alarm that is over becomes a signal; nobody whose sleep can be
      interrupted is left asleep with a signal that is not blocked; nothing else changes. */
  lemma NoticedSpec(t: Task, jiffies: int)
    ensures var t' := Noticed(t, jiffies);
      && t' == t.(signal := t'.signal, alarm := t'.alarm, state := t'.state)
      && (if t.alarm != 0 && t.alarm < jiffies then t'.alarm == 0 && t'.signal == t.signal + {SIGALRM} else t'.alarm == t.alarm && t'.signal == t.signal)
      && (t'.state == INTERRUPTIBLE <==> t.state == INTERRUPTIBLE && forall s | s in t'.signal :: s in t.blocked && s !in {SIGKILL, SIGSTOP})
      && (t'.state != t.state ==> t.state == INTERRUPTIBLE && t'.state == RUNNING)
  {
    var t' := Noticed(t, jiffies);
    var open := t'.signal - (t.blocked - {SIGKILL, SIGSTOP});
    assert open == {} <==> forall s | s in t'.signal :: s !in open;
  }

  /** The second scan, if there is one, finds a positive counter, so there is no third. */
  lemma OneRefresh(ts: seq<Task>)
    requires forall i | 0 <= i < |ts| :: CounterOk(ts[i])
    ensures forall i | 0 <= i < |ts| :: CounterOk(Refreshed(ts)[i])
    ensures Scan(Refreshed(ts), 1).c != 0
  {
    ScanBest(ts, 1);
    forall i | 0 <= i < |ts|
      ensures CounterOk(RenewedAll(ts)[i])
    {
      RenewedOk(ts[i]);
    }
    ScanBest(RenewedAll(ts), 1);
  }

  /** schedule dispatches a task that is ready, with the largest counter of all that are, and task 0
      only if none is. It refreshes the counters exactly when there are ready tasks and all of
      them have used theirs up. */
  lemma Chosen(m: Machine)
    requires Bounds(m)
    ensures var m' := Scheduled(m);
      && m'.current < NR_TASKS
      && (m'.current == 0 <==> forall i | 0 < i < NR_TASKS :: !Ready(m'.task[i]))
      && (m'.current != 0 ==> Ready(m'.task[m'.current]) && m'.task[m'.current].counter > 0)
      && (forall i | 0 < i < NR_TASKS && Ready(m'.task[i]) :: m'.task[i].counter <= m'.task[m'.current].counter)
      && (m'.task == NoticedAll(m.task, m.jiffies)
          || (m'.task == RenewedAll(NoticedAll(m.task, m.jiffies)) && m'.current != 0
              && forall i | 0 < i < NR_TASKS && Ready(NoticedAll(m.task, m.jiffies)[i]) :: NoticedAll(m.task, m.jiffies)[i].counter == 0))
  {
    var ts := NoticedAll(m.task, m.jiffies);
    assert forall i | 0 <= i < |ts| :: CounterOk(ts[i]);
    OneRefresh(ts);
    ScanBest(ts, 1);
    ScanBest(Refreshed(ts), 1);
    assert forall i | 0 < i < |ts| :: Ready(ts[i]) == Ready(RenewedAll(ts)[i]);
  }

  // ----- waiting -----

  /** A task inside sleep_on sleeps uninterruptibly or has been woken; it exists, and it is not task 0. */
  lemma SleeperState(m: Machine, t: nat)
    requires Queues(m) && t < NR_TASKS && m.task[t].sleeping
    ensures t != 0 && m.task[t].present && m.task[t].state in {RUNNING, UNINTERRUPTIBLE}
    ensures m.task[t].state == RUNNING <==> PlaceOf(m, t) == Behind(t)
  {
    assert PlaceOk(m, t);
    match PlaceOf(m, t)
    case On(c) =>
      assert QueueOk(m, c);
      var k :| 0 <= k < |m.queue[c]| && m.queue[c][k] == t;
      assert LinkAt(m.task, m.queue[c], k);
    case Behind(w) =>
      assert LooseOk(m, w);
      var k :| 0 <= k < |m.loose[w]| && m.loose[w][k] == t;
      assert LinkAt(m.task, m.loose[w], k);
  }

  predicate SameWait(t: Task, t': Task) {
    t'.saved == t.saved && t'.sleeping == t.sleeping && (t.sleeping ==> t'.present == t.present && t'.state == t.state)
  }

  lemma ChainKept(ts: seq<Task>, ts': seq<Task>, s: seq<nat>)
    requires ChainOk(ts, s) && |ts'| == |ts|
    requires forall t | t in s && t < |ts| :: SameWait(ts[t], ts'[t])
    ensures ChainOk(ts', s)
    ensures forall k: nat | AsleepFrom(ts, s, k) :: AsleepFrom(ts', s, k)
  {
    forall i | 0 <= i < |s|
      ensures LinkAt(ts', s, i)
    {
      assert LinkAt(ts, s, i);
    }
    forall k: nat | AsleepFrom(ts, s, k)
      ensures AsleepFrom(ts', s, k)
    {
      forall i | k <= i < |s|
        ensures ts'[s[i]].state == UNINTERRUPTIBLE
      {
        assert LinkAt(ts, s, i);
      }
    }
  }

  /** The queues do not depend on counters, signals, alarms, nor on the states of other tasks. */
  lemma QueuesKept(m: Machine, m': Machine)
    requires Queues(m) && m' == m.(task := m'.task, current := m'.current, jiffies := m'.jiffies) && |m'.task| == |m.task|
    requires forall t | 0 <= t < |m.task| :: SameWait(m.task[t], m'.task[t])
    ensures Queues(m')
  {
    forall c: nat | c < |m.chan|
      ensures QueueOk(m', c)
    {
      assert QueueOk(m, c);
      ChainKept(m.task, m'.task, m.queue[c]);
    }
    forall w: nat | w < |m.loose|
      ensures LooseOk(m', w)
    {
      assert LooseOk(m, w);
      if m.loose[w] != [] {
        ChainKept(m.task, m'.task, m.loose[w]);
        assert LinkAt(m.task, m.loose[w], 0);
      }
    }
    forall t: nat | t < NR_TASKS
      ensures PlaceOk(m', t)
    {
      assert PlaceOk(m, t);
    }
  }

  lemma ScheduledKeeps(m: Machine)
    requires Bounds(m) && Queues(m)
    ensures Inv(Scheduled(m))
  {
    var m' := Scheduled(m);
    Chosen(m);
    var ts := NoticedAll(m.task, m.jiffies);
    assert forall i | 0 <= i < |ts| :: CounterOk(ts[i]);
    OneRefresh(ts);
    forall t | 0 <= t < |m.task|
      ensures SameWait(m.task[t], m'.task[t])
    {
      if m.task[t].sleeping {
        SleeperState(m, t);
      }
    }
    QueuesKept(m, m');
    assert PlaceOk(m', m'.current);
    if m'.task[m'.current].sleeping {
      SleeperState(m', m'.current);
    }
  }

  lemma SleptKeeps(m: Machine, c: nat)
    requires Inv(m) && Enabled(m, SleepOn(c))
    ensures c < |m.queue| && m.current < |m.place| && Bounds(Slept(m, c)) && Queues(Slept(m, c))
  {
    var t, m' := m.current, Slept(m, c);
    assert PlaceOk(m, t) && PlaceOf(m, t) == Out;
    forall d: nat | d < |m.chan|
      ensures QueueOk(m', d)
    {
      assert QueueOk(m, d) && t !in m.queue[d];
      ChainKept(m.task, m'.task, m.queue[d]);
      if d == c {
        ConsChain(m'.task, m.queue[c], t);
      }
    }
    forall w: nat | w < |m.loose|
      ensures LooseOk(m', w)
    {
      assert LooseOk(m, w) && t !in m.loose[w];
      if m.loose[w] != [] {
        ChainKept(m.task, m'.task, m.loose[w]);
        assert LinkAt(m.task, m.loose[w], 0);
      }
    }
    forall x: nat | x < NR_TASKS
      ensures PlaceOk(m', x)
    {
      assert PlaceOk(m, x);
    }
  }

  lemma ConsChain(ts: seq<Task>, s: seq<nat>, t: nat)
    requires ChainOk(ts, s) && AsleepFrom(ts, s, 0) && t !in s
    requires 0 < t < |ts| && ts[t].present && ts[t].sleeping && ts[t].state == UNINTERRUPTIBLE
    requires ts[t].saved == if s == [] then NIL else s[0]
    ensures ChainOk(ts, [t] + s) && AsleepFrom(ts, [t] + s, 0)
  {
    var u := [t] + s;
    forall i | 0 <= i < |u|
      ensures LinkAt(ts, u, i) && ts[u[i]].state == UNINTERRUPTIBLE
    {
      if i > 0 {
        assert LinkAt(ts, s, i - 1);
      }
    }
  }

  lemma TailChain(ts: seq<Task>, s: seq<nat>)
    requires ChainOk(ts, s) && AsleepFrom(ts, s, 1) && s != []
    ensures ChainOk(ts, s[1..]) && AsleepFrom(ts, s[1..], 0) && s[0] !in s[1..]
    ensures s[0] < |ts| && ts[s[0]].saved == if |s| > 1 then s[1] else NIL
  {
    assert LinkAt(ts, s, 0);
    forall i | 0 <= i < |s| - 1
      ensures LinkAt(ts, s[1..], i) && ts[s[1..][i]].state == UNINTERRUPTIBLE
    {
      assert LinkAt(ts, s, i + 1);
    }
  }

  /** The head of a chain is woken. */
  lemma WakeHead(ts: seq<Task>, ts': seq<Task>, s: seq<nat>)
    requires ChainOk(ts, s) && AsleepFrom(ts, s, 0) && s != [] && |ts'| == |ts| && s[0] < |ts|
    requires ts'[s[0]] == ts[s[0]].(state := RUNNING)
    requires forall t | t in s && t < |ts| && t != s[0] :: SameWait(ts[t], ts'[t])
    ensures ChainOk(ts', s) && AsleepFrom(ts', s, 1)
  {
    forall i | 0 <= i < |s|
      ensures LinkAt(ts', s, i)
    {
      assert LinkAt(ts, s, i);
    }
    forall i | 1 <= i < |s|
      ensures ts'[s[i]].state == UNINTERRUPTIBLE
    {
      assert LinkAt(ts, s, i) && s[i] != s[0];
    }
  }

  lemma WokenKeeps(m: Machine, c: nat)
    requires Inv(m) && c < |m.chan|
    ensures c < |m.queue| && NIL <= m.chan[c] < |m.task| && m.chan[c] < |m.loose| && Inv(WokenUp(m, c))
  {
    Uses(m);
    var h, s, m' := m.chan[c], m.queue[c], WokenUp(m, c);
    assert QueueOk(m, c);
    if h != NIL {
      assert h in s && PlaceOk(m, h);
      assert PlaceOk(m, m.current);
      NoFrontYet(m, h);
      forall d: nat | d < |m.chan|
        ensures QueueOk(m', d)
      {
        assert QueueOk(m, d);
        if d != c {
          assert h !in m.queue[d];
          ChainKept(m.task, m'.task, m.queue[d]);
        }
      }
      forall w: nat | w < |m.loose|
        ensures LooseOk(m', w)
      {
        assert LooseOk(m, w);
        if w == h {
          WakeHead(m.task, m'.task, s);
        } else if m.loose[w] != [] {
          assert h !in m.loose[w];
          ChainKept(m.task, m'.task, m.loose[w]);
        }
      }
      forall x: nat | x < NR_TASKS
        ensures PlaceOk(m', x)
      {
        assert PlaceOk(m, x);
      }
    }
  }

  /** No chain starts with a task that still sleeps. */
  lemma NoFrontYet(m: Machine, h: nat)
    requires Queues(m) && h < NR_TASKS && PlaceOf(m, h) != Behind(h)
    ensures m.loose[h] == []
  {
    assert LooseOk(m, h) && PlaceOk(m, h);
    assert h !in m.loose[h];
  }

  lemma ReturnedKeeps(m: Machine)
    requires Inv(m) && m.task[m.current].sleeping
    ensures m.current < |m.loose| && m.current < |m.place| && m.task[m.current].saved < |m.loose|
    ensures NIL <= m.task[m.current].saved < |m.task| && Inv(Returned(m))
  {
    Uses(m);
    var t, m' := m.current, Returned(m);
    assert PlaceOk(m, t) && PlaceOf(m, t) == Behind(t) && LooseOk(m, t);
    var s, next := m.loose[t], m.task[t].saved;
    TailChain(m.task, s);
    if next != NIL {
      assert next in s && PlaceOk(m, next);
      NoFrontYet(m, next);
    }
    forall d: nat | d < |m.chan|
      ensures QueueOk(m', d)
    {
      assert QueueOk(m, d) && t !in m.queue[d] && (next != NIL ==> next !in m.queue[d]);
      ChainKept(m.task, m'.task, m.queue[d]);
    }
    forall w: nat | w < |m.loose|
      ensures LooseOk(m', w)
    {
      assert LooseOk(m, w);
      if w == next {
        WakeHead(m.task, m'.task, s[1..]);
      } else if w != t && m.loose[w] != [] {
        assert t !in m.loose[w] && (next != NIL ==> next !in m.loose[w]);
        ChainKept(m.task, m'.task, m.loose[w]);
      }
    }
    ReturnedPlaces(m);
  }

  lemma ReturnedPlaces(m: Machine)
    requires Inv(m) && m.task[m.current].sleeping && NIL <= m.task[m.current].saved < |m.task|
    requires var next := m.task[m.current].saved; next != NIL ==> m.loose[next] == []
    requires var s := m.loose[m.current];
      && s != [] && s[0] == m.current && Distinct(s) && m.task[m.current].saved == if |s| > 1 then s[1] else NIL
    ensures forall x: nat | x < NR_TASKS :: PlaceOk(Returned(m), x)
  {
    var t, m', s := m.current, Returned(m), m.loose[m.current];
    assert PlaceOk(m, t);
    forall x: nat | x < NR_TASKS
      ensures PlaceOk(m', x)
    {
      assert PlaceOk(m, x);
      assert s == [t] + s[1..];
    }
  }

  /** A step that changes one task outside the queues. */
  lemma TouchKeeps(m: Machine, t: nat, t': Task)
    requires Inv(m) && t < NR_TASKS && CounterOk(t') && (t == 0 || t == m.current ==> t'.present)
    requires SameWait(m.task[t], t') || (!m.task[t].sleeping && !t'.sleeping)
    ensures Inv(m.(task := m.task[t := t']))
  {
    if m.task[t].sleeping {
      QueuesKept(m, m.(task := m.task[t := t']));
    } else {
      NotInChains(m, t, t');
    }
  }

  lemma NotInChains(m: Machine, t: nat, t': Task)
    requires Queues(m) && t < NR_TASKS && !m.task[t].sleeping && !t'.sleeping
    ensures Queues(m.(task := m.task[t := t']))
  {
    var m' := m.(task := m.task[t := t']);
    assert PlaceOk(m, t);
    forall c: nat | c < |m.chan|
      ensures QueueOk(m', c)
    {
      assert QueueOk(m, c) && t !in m.queue[c];
      ChainKept(m.task, m'.task, m.queue[c]);
    }
    forall w: nat | w < |m.loose|
      ensures LooseOk(m', w)
    {
      assert LooseOk(m, w) && t !in m.loose[w];
      if m.loose[w] != [] {
        ChainKept(m.task, m'.task, m.loose[w]);
      }
    }
    forall x: nat | x < NR_TASKS
      ensures PlaceOk(m', x)
    {
      assert PlaceOk(m, x);
    }
  }

  lemma BegunKeeps(m: Machine, op: Op)
    requires Inv(m) && Enabled(m, op)
    ensures Bounds(Begun(m, op)) && Queues(Begun(m, op)) && (!Yields(m, op) ==> CurrentOk(Begun(m, op)))
  {
    if op.SleepOn? || op.Return? || op.WakeUp? {
      WaitKeeps(m, op);
    } else {
      OtherKeeps(m, op);
    }
  }

  lemma WaitKeeps(m: Machine, op: Op)
    requires Inv(m) && Enabled(m, op) && (op.SleepOn? || op.Return? || op.WakeUp?)
    ensures Bounds(Begun(m, op)) && Queues(Begun(m, op)) && (!Yields(m, op) ==> CurrentOk(Begun(m, op)))
  {
    match op
    case SleepOn(c) => SleptKeeps(m, c);
    case Return => ReturnedKeeps(m);
    case WakeUp(c) => WokenKeeps(m, c);
  }

  lemma OtherKeeps(m: Machine, op: Op)
    requires Inv(m) && Enabled(m, op) && !op.SleepOn? && !op.Return? && !op.WakeUp?
    ensures Bounds(Begun(m, op)) && Queues(Begun(m, op)) && (!Yields(m, op) ==> CurrentOk(Begun(m, op)))
  {
    match op
    case Tick(user) => TickedKeeps(m);
    case Pause => LeftKeeps(m, INTERRUPTIBLE);
    case Signal(to, sent) => MarkedKeeps(m, to, m.task[to].signal + sent, m.task[to].alarm);
    case SetAlarm(when) => MarkedKeeps(m, m.current, m.task[m.current].signal, when);
    case Fork(slot) => ForkedKeeps(m, slot);
    case Exit => LeftKeeps(m, ZOMBIE);
    case Release(slot) => ReleasedKeeps(m, slot);
  }

  /** The invariants hold after every step. */
  lemma NextKeeps(m: Machine, op: Op)
    requires Inv(m)
    ensures Inv(Next(m, op))
  {
    if Enabled(m, op) {
      BegunKeeps(m, op);
      if Yields(m, op) {
        ScheduledKeeps(Begun(m, op));
      }
    }
  }

  lemma TickedKeeps(m: Machine)
    requires Inv(m)
    ensures Inv(Ticked(m))
  {
    var t := m.current;
    var left := m.task[t].counter - 1;
    var t' := m.task[t].(counter := if left > 0 then left else 0);
    assert CounterOk(m.task[t]);
    TouchKeeps(m, t, t');
    QueuesKept(m.(task := m.task[t := t']), Ticked(m));
  }

  lemma MarkedKeeps(m: Machine, t: nat, signal: set<nat>, alarm: int)
    requires Inv(m) && t < NR_TASKS
    ensures Inv(m.(task := m.task[t := m.task[t].(signal := signal, alarm := alarm)]))
  {
    var t' := m.task[t].(signal := signal, alarm := alarm);
    assert CounterOk(m.task[t]) && SameWait(m.task[t], t');
    TouchKeeps(m, t, t');
  }

  lemma LeftKeeps(m: Machine, state: int)
    requires Inv(m) && !m.task[m.current].sleeping
    ensures Inv(WithState(m, state))
  {
    TouchKeeps(m, m.current, m.task[m.current].(state := state));
  }

  lemma ForkedKeeps(m: Machine, slot: nat)
    requires Inv(m) && Enabled(m, Fork(slot))
    ensures Inv(Forked(m, slot))
  {
    assert CounterOk(m.task[m.current]);
    if m.task[slot].sleeping {
      SleeperState(m, slot);
    }
    TouchKeeps(m, slot, Forked(m, slot).task[slot]);
  }

  lemma ReleasedKeeps(m: Machine, slot: nat)
    requires Inv(m) && Enabled(m, Release(slot))
    ensures Bounds(Released(m, slot)) && Queues(Released(m, slot))
  {
    if m.task[slot].sleeping {
      SleeperState(m, slot);
    }
    NotInChains(m, slot, m.task[slot].(present := false));
  }
}
