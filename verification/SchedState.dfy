/** The tasks of kernel/sched.c as values: who runs, who waits on which channel, and what one step of
    the kernel does to that. A task pointer is an index into the task table, NIL a null pointer. */
module SchedState {
  import opened Sequences

  const NR_TASKS := 64
  const NIL := -1
  const RUNNING := 0
  const INTERRUPTIBLE := 1
  const UNINTERRUPTIBLE := 2
  const ZOMBIE := 3
  const SIGKILL := 9
  const SIGALRM := 14
  const SIGSTOP := 19

  /** A signal mask is the set of its signals. `saved` is the local variable tmp of the sleep_on call in which the task is (`sleeping`). */
  datatype Task = Task(present: bool, state: int, counter: int, priority: int, alarm: int,
                       signal: set<nat>, blocked: set<nat>, saved: int, sleeping: bool)

  /** Specification only: where a task waits. Behind(w): in the chain that starts with the woken task w. */
  datatype Place = Out | On(chan: nat) | Behind(woken: nat)

  /** Beside the kernel's variables: the sleepers of every channel (`queue`), the chain that starts
      with each woken task that is still in sleep_on (`loose`), and the place of every task. */
  datatype Machine = Machine(task: seq<Task>, chan: seq<int>, current: nat, jiffies: int,
                             queue: seq<seq<nat>>, loose: seq<seq<nat>>, place: seq<Place>)

  datatype Op = Tick(user: bool) | SleepOn(chan: nat) | Return | WakeUp(chan: nat) | Pause
              | Signal(to: nat, sent: set<nat>) | SetAlarm(when: int) | Fork(slot: nat) | Exit | Release(slot: nat)

  // ----- schedule -----

  predicate Deliverable(t: Task) {
    t.signal - (t.blocked - {SIGKILL, SIGSTOP}) != {}
  }

  /** The alarm has run out: its signal is sent. */
  function Alarmed(t: Task, jiffies: int): Task {
    if t.alarm != 0 && t.alarm < jiffies then t.(signal := t.signal + {SIGALRM}, alarm := 0) else t
  }

  function Noticed(t: Task, jiffies: int): Task {
    var t1 := Alarmed(t, jiffies);
    if Deliverable(t1) && t1.state == INTERRUPTIBLE then t1.(state := RUNNING) else t1
  }

  function NoticedAll(ts: seq<Task>, jiffies: int): seq<Task> {
    seq(|ts|, i requires 0 <= i < |ts| => if i > 0 && ts[i].present then Noticed(ts[i], jiffies) else ts[i])
  }

  function Renewed(t: Task): Task {
    t.(counter := t.counter / 2 + t.priority)
  }

  function RenewedAll(ts: seq<Task>): seq<Task> {
    seq(|ts|, i requires 0 <= i < |ts| => if i > 0 && ts[i].present then Renewed(ts[i]) else ts[i])
  }

  datatype Choice = Choice(c: int, next: nat)

  predicate Ready(t: Task) {
    t.present && t.state == RUNNING
  }

  /** The scan from the last task down to task i: the largest counter found, and whose it is. */
  function Scan(ts: seq<Task>, i: nat): Choice
    decreases |ts| - i
  {
    if i >= |ts| then Choice(-1, 0)
    else
      var best := Scan(ts, i + 1);
      if Ready(ts[i]) && ts[i].counter > best.c then Choice(ts[i].counter, i) else best
  }

  /** The tasks among which schedule finally chooses. */
  function Refreshed(ts: seq<Task>): seq<Task> {
    if Scan(ts, 1).c != 0 then ts else RenewedAll(ts)
  }

  function Scheduled(m: Machine): Machine {
    var ts := Refreshed(NoticedAll(m.task, m.jiffies));
    m.(task := ts, current := Scan(ts, 1).next)
  }

  // ----- single steps -----

  function Placed(place: seq<Place>, s: seq<nat>, p: Place): seq<Place> {
    seq(|place|, i requires 0 <= i < |place| => if i in s then p else place[i])
  }

  function Tail(s: seq<nat>): seq<nat> {
    if s == [] then [] else s[1..]
  }

  /** sleep_on up to its call of schedule. */
  function Slept(m: Machine, c: nat): Machine
    requires c < |m.chan| && c < |m.queue| && m.current < |m.task| && m.current < |m.place|
  {
    var t := m.current;
    m.(task := m.task[t := m.task[t].(saved := m.chan[c], sleeping := true, state := UNINTERRUPTIBLE)],
       chan := m.chan[c := t], queue := m.queue[c := [t] + m.queue[c]], place := m.place[t := On(c)])
  }

  /** sleep_on after schedule: the task that slept before it is woken too. */
  function Returned(m: Machine): Machine
    requires m.current < |m.task| && m.current < |m.place| && m.current < |m.loose|
    requires NIL <= m.task[m.current].saved < |m.task| && m.task[m.current].saved < |m.loose|
  {
    var t := m.current;
    var next := m.task[t].saved;
    var rest := Tail(m.loose[t]);
    var m1 := m.(task := m.task[t := m.task[t].(sleeping := false, saved := NIL)], loose := m.loose[t := []], place := m.place[t := Out]);
    if next == NIL then m1
    else m1.(task := m1.task[next := m1.task[next].(state := RUNNING)], loose := m1.loose[next := rest],
             place := Placed(m1.place, rest, Behind(next)))
  }

  function WokenUp(m: Machine, c: nat): Machine
    requires c < |m.chan| && c < |m.queue| && NIL <= m.chan[c] < |m.task| && m.chan[c] < |m.loose|
  {
    var h := m.chan[c];
    if h == NIL then m
    else m.(task := m.task[h := m.task[h].(state := RUNNING)], chan := m.chan[c := NIL],
            queue := m.queue[c := []], loose := m.loose[h := m.queue[c]], place := Placed(m.place, m.queue[c], Behind(h)))
  }

  /** do_timer charges the running task, down to zero. */
  function Ticked(m: Machine): Machine
    requires m.current < |m.task|
  {
    var t := m.current;
    var left := m.task[t].counter - 1;
    m.(jiffies := m.jiffies + 1, task := m.task[t := m.task[t].(counter := if left > 0 then left else 0)])
  }

  function WithState(m: Machine, state: int): Machine
    requires m.current < |m.task|
  {
    m.(task := m.task[m.current := m.task[m.current].(state := state)])
  }

  /** copy_process, as far as scheduling sees it: the child starts with a full counter. */
  function Forked(m: Machine, slot: nat): Machine
    requires m.current < |m.task| && slot < |m.task|
  {
    var p := m.task[m.current];
    m.(task := m.task[slot := p.(counter := p.priority, signal := {}, alarm := 0, state := RUNNING, saved := NIL, sleeping := false)])
  }

  function Released(m: Machine, slot: nat): Machine
    requires slot < |m.task|
  {
    m.(task := m.task[slot := m.task[slot].(present := false)])
  }

  /** What can happen next. A task in the middle of sleep_on goes on with it before anything else,
      but interrupts still come in. Task 0 must not sleep, and does not exit. */
  predicate Enabled(m: Machine, op: Op) {
    && m.current < |m.task|
    && var free := !m.task[m.current].sleeping;
    match op
    case Tick(user) => !user || free
    case SleepOn(c) => free && m.current != 0 && c < |m.chan|
    case Return => !free
    case WakeUp(c) => c < |m.chan|
    case Pause => free
    case Signal(to, sent) => to < |m.task| && m.task[to].present
    case SetAlarm(when) => free
    case Fork(slot) => free && 0 < slot < |m.task| && !m.task[slot].present
    case Exit => free && m.current != 0
    case Release(slot) => free && 0 < slot < |m.task| && m.task[slot].present && m.task[slot].state == ZOMBIE
  }

  /** The first part of a step: all of it, or up to its call of schedule. */
  function Begun(m: Machine, op: Op): Machine
    requires Inv(m) && Enabled(m, op)
  {
    Uses(m);
    match op
    case Tick(user) => Ticked(m)
    case SleepOn(c) => Slept(m, c)
    case Return => Returned(m)
    case WakeUp(c) => WokenUp(m, c)
    case Pause => WithState(m, INTERRUPTIBLE)
    case Signal(to, sent) => m.(task := m.task[to := m.task[to].(signal := m.task[to].signal + sent)])
    case SetAlarm(when) => m.(task := m.task[m.current := m.task[m.current].(alarm := when)])
    case Fork(slot) => Forked(m, slot)
    case Exit => WithState(m, ZOMBIE)
    case Release(slot) => Released(m, slot)
  }

  /** Does the step call schedule? A tick does if it interrupts a user program that used up its time. */
  predicate Yields(m: Machine, op: Op)
    requires m.current < |m.task|
  {
    match op
    case Tick(user) => user && m.task[m.current].counter <= 1
    case SleepOn(_) => true
    case Pause => true
    case Exit => true
    case Release(_) => true
    case _ => false
  }

  function Next(m: Machine, op: Op): Machine
    requires Inv(m)
  {
    if !Enabled(m, op) then m
    else if Yields(m, op) then Scheduled(Begun(m, op))
    else Begun(m, op)
  }

  // ----- invariants -----

  /** With a fixed priority p a counter stays below 2p. */
  predicate CounterOk(t: Task) {
    t.present ==> t.priority >= 1 && 0 <= t.counter < 2 * t.priority
  }

  ghost predicate Bounds(m: Machine) {
    && |m.task| == NR_TASKS && m.current < NR_TASKS && m.task[0].present
    && (forall i | 0 <= i < NR_TASKS :: CounterOk(m.task[i]))
  }

  /** The i-th task of a chain is inside sleep_on, and its tmp is the task behind it. */
  predicate LinkAt(ts: seq<Task>, s: seq<nat>, i: nat)
    requires i < |s|
  {
    && 0 < s[i] < |ts| && ts[s[i]].present && ts[s[i]].sleeping
    && ts[s[i]].saved == if i + 1 < |s| then s[i + 1] else NIL
  }

  ghost predicate ChainOk(ts: seq<Task>, s: seq<nat>) {
    Distinct(s) && forall i | 0 <= i < |s| :: LinkAt(ts, s, i)
  }

  /** From position k on, the tasks of s sleep. */
  ghost predicate AsleepFrom(ts: seq<Task>, s: seq<nat>, k: nat) {
    forall i | k <= i < |s| :: s[i] < |ts| && ts[s[i]].state == UNINTERRUPTIBLE
  }

  ghost predicate QueueOk(m: Machine, c: nat)
    requires c < |m.chan| && c < |m.queue|
  {
    var s := m.queue[c];
    m.chan[c] == (if s == [] then NIL else s[0]) && ChainOk(m.task, s) && AsleepFrom(m.task, s, 0)
  }

  ghost predicate LooseOk(m: Machine, w: nat)
    requires w < |m.loose|
  {
    var s := m.loose[w];
    s != [] ==> w < |m.task| && s[0] == w && m.task[w].state == RUNNING && ChainOk(m.task, s) && AsleepFrom(m.task, s, 1)
  }

  function PlaceOf(m: Machine, t: nat): Place {
    if t < |m.place| then m.place[t] else Out
  }

  /** A task that is inside sleep_on is in exactly one chain. */
  ghost predicate PlaceOk(m: Machine, t: nat) {
    && (PlaceOf(m, t) != Out <==> t < |m.task| && m.task[t].sleeping)
    && (forall c: nat | c < |m.queue| :: t in m.queue[c] <==> PlaceOf(m, t) == On(c))
    && (forall w: nat | w < |m.loose| :: t in m.loose[w] <==> PlaceOf(m, t) == Behind(w))
    && (PlaceOf(m, t).On? ==> PlaceOf(m, t).chan < |m.queue|)
    && (PlaceOf(m, t).Behind? ==> PlaceOf(m, t).woken < |m.loose|)
  }

  ghost predicate Queues(m: Machine) {
    && |m.queue| == |m.chan| && |m.loose| == |m.place| == |m.task| == NR_TASKS
    && (forall c: nat | c < |m.chan| :: QueueOk(m, c))
    && (forall w: nat | w < |m.loose| :: LooseOk(m, w))
    && (forall t: nat | t < NR_TASKS :: PlaceOk(m, t))
  }

  /** The running task exists; if it is still inside sleep_on, then as a woken task. */
  ghost predicate CurrentOk(m: Machine) {
    && m.current < |m.task| && m.task[m.current].present
    && PlaceOf(m, m.current) in {Out, Behind(m.current)}
  }

  ghost predicate Inv(m: Machine) {
    Bounds(m) && Queues(m) && CurrentOk(m)
  }

  /** What the steps need to be defined. */
  lemma Uses(m: Machine)
    requires Inv(m)
    ensures |m.loose| == |m.place| == |m.task| && m.current < |m.task| && |m.queue| == |m.chan|
    ensures forall c: nat | c < |m.chan| :: NIL <= m.chan[c] < |m.task|
    ensures m.task[m.current].sleeping ==> NIL <= m.task[m.current].saved < |m.task|
  {
    forall c: nat | c < |m.chan|
      ensures NIL <= m.chan[c] < |m.task|
    {
      assert QueueOk(m, c);
      if m.queue[c] != [] {
        assert LinkAt(m.task, m.queue[c], 0);
      }
    }
    assert PlaceOk(m, m.current);
    if m.task[m.current].sleeping {
      assert LooseOk(m, m.current);
      var s := m.loose[m.current];
      assert LinkAt(m.task, s, 0);
      if |s| > 1 {
        assert LinkAt(m.task, s, 1);
      }
    }
  }
}
