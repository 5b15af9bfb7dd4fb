/** The scheduler and the wait channels of kernel/sched.c, on the task table itself. */
module SchedKernel {
  import opened SchedState
  import opened SchedSteps
  import opened SchedEffects
  import SchedTheorems

  class Kernel {
    const task: array<Task>
    /** The wait queue heads: b_wait, i_wait and the like. */
    const chan: array<int>
    var current: nat
    var jiffies: int
    ghost var m: Machine

    ghost predicate Rep()
      reads this, task, chan
    {
      m.task == task[..] && m.chan == chan[..] && m.current == current && m.jiffies == jiffies
    }

    ghost predicate Valid()
      reads this, task, chan
    {
      Rep() && Inv(m)
    }

    /** Only task 0 exists, and nobody waits. */
    constructor (channels: nat)
      ensures Valid() && current == 0 && chan.Length == channels && fresh(task) && fresh(chan)
      ensures forall i | 0 < i < NR_TASKS :: !task[i].present
    {
      var none := Task(false, RUNNING, 0, 0, 0, {}, {}, NIL, false);
      var first := none.(present := true, counter := 15, priority := 15);
      task := new Task[NR_TASKS](i => if i == 0 then first else none);
      chan := new int[channels](_ => NIL);
      current, jiffies := 0, 0;
      m := Machine(seq(NR_TASKS, i => if i == 0 then first else none), seq(channels, _ => NIL), 0, 0,
                   seq(channels, _ => []), seq(NR_TASKS, _ => []), seq(NR_TASKS, _ => Out));
      new;
      assert task[..] == m.task && chan[..] == m.chan;
      forall t: nat | t < NR_TASKS
        ensures PlaceOk(m, t)
      {
      }
    }

    /** The first loop of schedule: alarms, and signals for interruptible tasks. */
    method Notice()
      modifies task
      ensures task[..] == NoticedAll(old(task[..]), jiffies) && AllNoticed(old(task[..]), task[..], jiffies, false)
    {
      ghost var ts := NoticedAll(task[..], jiffies);
      NoticedAllRight(Machine(task[..], [], 0, jiffies, [], [], []));
      var i := task.Length - 1;
      while i > 0
        invariant -1 <= i < task.Length
        invariant forall j | 0 <= j < task.Length :: task[j] == if j > i then ts[j] else old(task[j])
        invariant i == -1 ==> task.Length == 0
      {
        if task[i].present {
          NoticeOne(i);
        }
        i := i - 1;
      }
    }

    method NoticeOne(i: nat)
      requires i < task.Length
      modifies task
      ensures task[i] == Noticed(old(task[i]), jiffies)
      ensures forall j | 0 <= j < task.Length && j != i :: task[j] == old(task[j])
    {
      var t := task[i];
      if t.alarm != 0 && t.alarm < jiffies {
        t := t.(signal := t.signal + {SIGALRM}, alarm := 0);
      }
      if Deliverable(t) && t.state == INTERRUPTIBLE {
        t := t.(state := RUNNING);
      }
      task[i] := t;
    }

    /** One pass of the scheduler proper. */
    method Choose() returns (c: int, next: nat)
      requires task.Length > 0
      ensures Choice(c, next) == Scan(task[..], 1)
    {
      c, next := -1, 0;
      var i := task.Length - 1;
      while i > 0
        invariant 0 <= i < task.Length
        invariant Choice(c, next) == Scan(task[..], i + 1)
      {
        if task[i].present && task[i].state == RUNNING && task[i].counter > c {
          c, next := task[i].counter, i;
        }
        i := i - 1;
      }
    }

    method Renew()
      modifies task
      ensures task[..] == RenewedAll(old(task[..]))
    {
      ghost var ts := RenewedAll(task[..]);
      var i := task.Length - 1;
      while i > 0
        invariant -1 <= i < task.Length
        invariant forall j | 0 <= j < task.Length :: task[j] == if j > i then ts[j] else old(task[j])
        invariant i == -1 ==> task.Length == 0
      {
        if task[i].present {
          task[i] := task[i].(counter := task[i].counter / 2 + task[i].priority);
        }
        i := i - 1;
      }
    }

    /** schedule: the loop ends after at most one refresh of the counters. */
    method Schedule()
      requires Rep() && Bounds(m) && Queues(m)
      modifies task, `current, `m
      ensures Valid() && m == Scheduled(old(m)) && ScheduledAs(old(task[..]), task[..], jiffies, current)
    {
      ghost var m0 := m;
      ScheduledRight(m0);
      Notice();
      ghost var ts := NoticedAll(m0.task, jiffies);
      assert forall i | 0 <= i < |ts| :: CounterOk(ts[i]);
      OneRefresh(ts);
      var c, next := Choose();
      ghost var refreshed := false;
      while c == 0
        invariant task[..] == if refreshed then RenewedAll(ts) else ts
        invariant refreshed ==> Scan(ts, 1).c == 0
        invariant Choice(c, next) == Scan(task[..], 1)
        decreases !refreshed
      {
        Renew();
        c, next := Choose();
        refreshed := true;
      }
      Chosen(m0);
      current := next;
      m := Scheduled(m0);
      ScheduledKeeps(m0);
    }

    /** sleep_on, up to the moment when the processor is given away. */
    method SleepOn(c: nat)
      requires Valid() && Enabled(m, Op.SleepOn(c))
      modifies task, chan, `current, `m
      ensures Valid() && m == Next(old(m), Op.SleepOn(c))
      ensures chan[..] == old(chan[..])[c := old(current)]
      ensures var asleep := old(task[current].(state := UNINTERRUPTIBLE, sleeping := true, saved := chan[c]));
        ScheduledAs(old(task[..])[old(current) := asleep], task[..], jiffies, current)
    {
      ghost var m0 := m;
      SleptKeeps(m0, c);
      var tmp := chan[c];
      chan[c] := current;
      task[current] := task[current].(saved := tmp, sleeping := true, state := UNINTERRUPTIBLE);
      m := Slept(m0, c);
      assert task[..] == m.task && chan[..] == m.chan;
      Schedule();
    }

    /** The rest of sleep_on, when the task runs again. */
    method Resume()
      requires Valid() && task[current].sleeping
      modifies task, `m
      ensures Valid() && m == Next(old(m), Return)
      ensures var t, next := current, old(task[current].saved);
        NIL <= next < task.Length && !task[t].sleeping && (next != NIL ==> task[next].state == RUNNING) &&
        forall i | 0 <= i < task.Length && i != t && i != next :: task[i] == old(task[i])
    {
      ghost var m0 := m;
      ReturnedKeeps(m0);
      var tmp := task[current].saved;
      task[current] := task[current].(sleeping := false, saved := NIL);
      if tmp != NIL {
        task[tmp] := task[tmp].(state := RUNNING);
      }
      m := Returned(m0);
      assert task[..] == m.task;
    }

    method WakeUp(c: nat)
      requires Valid() && c < chan.Length
      modifies task, chan, `m
      ensures Valid() && m == Next(old(m), Op.WakeUp(c))
      ensures chan[..] == old(chan[..])[c := NIL]
      ensures var head := old(chan[c]);
        NIL <= head < task.Length && task[..] == if head == NIL then old(task[..]) else old(task[..])[head := old(task[head]).(state := RUNNING)]
    {
      ghost var m0 := m;
      WokenKeeps(m0, c);
      if chan[c] != NIL {
        task[chan[c]] := task[chan[c]].(state := RUNNING);
        chan[c] := NIL;
      }
      m := WokenUp(m0, c);
      assert task[..] == m.task && chan[..] == m.chan;
    }

    /** The scheduling part of do_timer. */
    method Tick(user: bool)
      requires Valid() && Enabled(m, Op.Tick(user))
      modifies task, `current, `jiffies, `m
      ensures Valid() && m == Next(old(m), Op.Tick(user)) && jiffies == old(jiffies) + 1
      ensures var ts := old(task[..])[old(current) := Charged(old(task[current]))];
        if user && old(task[current].counter) <= 1 then ScheduledAs(ts, task[..], jiffies, current)
        else task[..] == ts && current == old(current)
    {
      ghost var m0 := m;
      TickedKeeps(m0);
      jiffies := jiffies + 1;
      task[current] := task[current].(counter := task[current].counter - 1);
      var left := task[current].counter > 0;
      if !left {
        task[current] := task[current].(counter := 0);
      }
      m := Ticked(m0);
      assert task[..] == m.task;
      if left || !user {
        return;
      }
      Schedule();
    }

    /** sys_pause, and the end of do_exit. */
    method Leave(state: int)
      requires Valid() && !task[current].sleeping && state in {INTERRUPTIBLE, ZOMBIE}
      requires state == ZOMBIE ==> current != 0
      modifies task, `current, `m
      ensures Valid() && m == Next(old(m), if state == ZOMBIE then Exit else Pause)
      ensures ScheduledAs(old(task[..])[old(current) := old(task[current]).(state := state)], task[..], jiffies, current)
    {
      ghost var m0 := m;
      LeftKeeps(m0, state);
      task[current] := task[current].(state := state);
      m := WithState(m0, state);
      assert task[..] == m.task;
      Schedule();
    }

    /** What copy_process does to the task table. */
    method Fork(slot: nat)
      requires Valid() && Enabled(m, Op.Fork(slot))
      modifies task, `m
      ensures Valid() && m == Next(old(m), Op.Fork(slot)) && ChildOf(old(task[current]), task[slot])
      ensures forall i | 0 <= i < task.Length && i != slot :: task[i] == old(task[i])
    {
      ghost var m0 := m;
      ForkedKeeps(m0, slot);
      task[slot] := task[current];
      task[slot] := task[slot].(state := UNINTERRUPTIBLE, saved := NIL, sleeping := false);
      task[slot] := task[slot].(counter := task[slot].priority, signal := {}, alarm := 0);
      task[slot] := task[slot].(state := RUNNING);
      m := Forked(m0, slot);
      assert task[..] == m.task;
    }

    method Release(slot: nat)
      requires Valid() && Enabled(m, Op.Release(slot))
      modifies task, `current, `m
      ensures Valid() && m == Next(old(m), Op.Release(slot))
      ensures ScheduledAs(old(task[..])[slot := old(task[slot]).(present := false)], task[..], jiffies, current)
    {
      ghost var m0 := m;
      ReleasedKeeps(m0, slot);
      task[slot] := task[slot].(present := false);
      m := Released(m0, slot);
      assert task[..] == m.task;
      Schedule();
    }

    /** A signal is sent, or the running task sets its alarm. */
    method Mark(t: nat, signal: set<nat>, alarm: int)
      requires Valid() && t < task.Length
      modifies task, `m
      ensures Valid() && m == old(m).(task := old(m).task[t := old(m).task[t].(signal := signal, alarm := alarm)])
    {
      MarkedKeeps(m, t, signal, alarm);
      task[t] := task[t].(signal := signal, alarm := alarm);
      m := m.(task := m.task[t := m.task[t].(signal := signal, alarm := alarm)]);
      assert task[..] == m.task;
    }

    method Do(op: Op)
      requires Valid() && Enabled(m, op)
      modifies task, chan, `current, `jiffies, `m
      ensures Valid() && m == Next(old(m), op)
    {
      Uses(m);
      match op
      case Tick(user) => Tick(user);
      case SleepOn(c) => SleepOn(c);
      case Return => Resume();
      case WakeUp(c) => WakeUp(c);
      case Pause => Leave(INTERRUPTIBLE);
      case Signal(to, sent) => Mark(to, task[to].signal + sent, task[to].alarm);
      case SetAlarm(when) => Mark(current, task[current].signal, when);
      case Fork(slot) => Fork(slot);
      case Exit => Leave(ZOMBIE);
      case Release(slot) => Release(slot);
    }

    /** Any run, from any reachable state. Steps that cannot happen are passed over. */
    method Execute(ops: seq<Op>)
      requires Valid()
      modifies task, chan, `current, `jiffies, `m
      ensures Valid() && m == SchedTheorems.Run(old(m), ops)
    {
      ghost var m0 := m;
      var i := 0;
      while i < |ops|
        invariant 0 <= i <= |ops| && Valid()
        invariant SchedTheorems.Run(m0, ops) == SchedTheorems.Run(m, ops[i..])
      {
        assert ops[i..][0] == ops[i] && ops[i..][1..] == ops[i + 1..];
        NextKeeps(m, ops[i]);
        var possible := Possible(ops[i]);
        if possible {
          Do(ops[i]);
        }
        i := i + 1;
      }
    }

    /** Can op happen now? */
    method Possible(op: Op) returns (r: bool)
      requires Valid()
      ensures r <==> Enabled(m, op)
    {
      var free := !task[current].sleeping;
      match op
      case Tick(user) => r := !user || free;
      case SleepOn(c) => r := free && current != 0 && c < chan.Length;
      case Return => r := !free;
      case WakeUp(c) => r := c < chan.Length;
      case Pause => r := free;
      case Signal(to, sent) => r := to < task.Length && task[to].present;
      case SetAlarm(when) => r := free;
      case Fork(slot) => r := free && 0 < slot < task.Length && !task[slot].present;
      case Exit => r := free && current != 0;
      case Release(slot) => r := free && 0 < slot < task.Length && task[slot].present && task[slot].state == ZOMBIE;
    }
  }
}
