/** What schedule and its callers do to the tasks, told by the task table alone. */
module SchedEffects {
  import opened SchedState
  import opened SchedSteps

  /** A signal that the task cannot keep out. */
  predicate Open(t: Task, s: nat) {
    s == 9 || s == 19 || s !in t.blocked
  }

  predicate Expired(t: Task, jiffies: int) {
    t.alarm != 0 && t.alarm < jiffies
  }

  /** A present task before and after the first loop of schedule: an alarm that is over is cleared and its signal,
      SIGALRM, sent; an interruptible sleep ends exactly if there is a signal that is not kept out. */
  predicate NoticedAs(t: Task, t': Task, jiffies: int) {
    && t' == t.(signal := t'.signal, alarm := t'.alarm, state := t'.state, counter := t'.counter)
    && t'.alarm == (if Expired(t, jiffies) then 0 else t.alarm)
    && t'.signal == (if Expired(t, jiffies) then t.signal + {14} else t.signal)
    && t'.state == if t.state == INTERRUPTIBLE && exists s :: s in t'.signal && Open(t, s) then RUNNING else t.state
  }

  /** All present tasks but task 0 are treated so, and their counters refreshed, or not; nothing else changes. */
  ghost predicate AllNoticed(ts: seq<Task>, ts': seq<Task>, jiffies: int, refreshed: bool) {
    && |ts'| == |ts|
    && forall i | 0 <= i < |ts| ::
         if i == 0 || !ts[i].present then ts'[i] == ts[i]
         else NoticedAs(ts[i], ts'[i], jiffies)
              && ts'[i].counter == if refreshed then ts[i].counter / 2 + ts[i].priority else ts[i].counter
  }

  /** Every ready task has used up its time, and there is one. */
  ghost predicate AllSpent(ts: seq<Task>, ts': seq<Task>) {
    && |ts'| == |ts|
    && (exists i :: 0 < i < |ts| && Ready(ts'[i]))
    && (forall i | 0 < i < |ts| && Ready(ts'[i]) :: ts[i].counter == 0)
  }

  /** The ready task with the largest counter, the last of them in the table; task 0 if none is ready. */
  ghost predicate Best(ts: seq<Task>, c: nat) {
    && c < |ts|
    && (c != 0 ==> Ready(ts[c]))
    && (forall i | 0 < i < |ts| && Ready(ts[i]) :: ts[i].counter < ts[c].counter || (ts[i].counter == ts[c].counter && i <= c))
    && (c == 0 ==> forall i | 0 < i < |ts| :: !Ready(ts[i]))
  }

  /** What schedule does. */
  ghost predicate ScheduledAs(ts: seq<Task>, ts': seq<Task>, jiffies: int, current': nat) {
    AllNoticed(ts, ts', jiffies, AllSpent(ts, ts')) && Best(ts', current')
  }

  lemma NoticedRight(t: Task, jiffies: int)
    ensures NoticedAs(t, Noticed(t, jiffies), jiffies)
  {
    NoticedSpec(t, jiffies);
    var t' := Noticed(t, jiffies);
    if s :| s in t'.signal && Open(t, s) {
      assert !(s in t.blocked && s !in {SIGKILL, SIGSTOP});
    }
  }

  lemma NoticedAllRight(m: Machine)
    ensures AllNoticed(m.task, NoticedAll(m.task, m.jiffies), m.jiffies, false)
    ensures AllNoticed(m.task, RenewedAll(NoticedAll(m.task, m.jiffies)), m.jiffies, true)
  {
    forall i | 0 <= i < |m.task|
      ensures NoticedAs(m.task[i], Noticed(m.task[i], m.jiffies), m.jiffies)
    {
      NoticedRight(m.task[i], m.jiffies);
    }
  }

  lemma SpentIs(ts: seq<Task>)
    requires forall i | 0 <= i < |ts| :: CounterOk(ts[i])
    ensures Scan(ts, 1).c == 0 <==> (exists i :: 0 < i < |ts| && Ready(ts[i])) && forall i | 0 < i < |ts| && Ready(ts[i]) :: ts[i].counter == 0
  {
    ScanBest(ts, 1);
  }

  lemma BestRight(ts: seq<Task>)
    requires |ts| > 0 && forall i | 0 <= i < |ts| :: CounterOk(ts[i])
    ensures Scan(ts, 1).c != 0 ==> Scan(ts, 1).next >= 0 && Best(ts, Scan(ts, 1).next)
  {
    ScanBest(ts, 1);
  }

  lemma ScheduledRight(m: Machine)
    requires Bounds(m)
    ensures ScheduledAs(m.task, Scheduled(m).task, m.jiffies, Scheduled(m).current)
  {
    var ts := NoticedAll(m.task, m.jiffies);
    assert forall i | 0 <= i < |ts| :: CounterOk(ts[i]);
    NoticedAllRight(m);
    OneRefresh(ts);
    SpentIs(ts);
    BestRight(Refreshed(ts));
    assert forall i | 0 < i < |ts| :: Ready(ts[i]) == Ready(RenewedAll(ts)[i]);
    var ts' := Refreshed(ts);
    assert forall i | 0 < i < |ts| :: Ready(ts'[i]) == Ready(ts[i]) && (Ready(ts[i]) ==> m.task[i].counter == ts[i].counter);
    assert AllSpent(m.task, ts') <==> Scan(ts, 1).c == 0;
  }

  /** The tick of the clock takes one from what the running task has left. */
  function Charged(t: Task): Task {
    if t.counter > 0 then t.(counter := t.counter - 1) else t
  }

  /** A child has a full counter, no signals and no alarm, and can run. */
  predicate ChildOf(p: Task, t: Task) {
    && t.present == p.present && t.priority == p.priority && t.blocked == p.blocked
    && t.counter == p.priority && t.signal == {} && t.alarm == 0 && t.state == RUNNING && !t.sleeping
  }
}
