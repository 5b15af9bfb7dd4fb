/** Whole runs. The paging code refines a machine in which every task simply owns its pages: fork copies
    them at once and a store changes the storing task's page only. The one exception is a store by the
    kernel, for which the exact condition is proved. */
module PageRuns {
  import opened PageState
  import opened PageSteps
  import opened PageTheorems
  import opened PageSpecs
  import opened PageCounts
  import opened PageNext
  import opened PageKernel
  import opened PageImage

  /** The simple machine's memory: for every place of every task, the page there. */
  type Space = imap<Loc, Page>

  ghost function SpaceOf(k: State): Space {
    imap x: Loc | ValidLoc(x) :: PageAt(k, x)
  }

  /** The paging state, and the executable of each task. */
  datatype World = World(k: State, exe: seq<nat>)

  ghost predicate Good(w: World) {
    Inv(w.k) && |w.exe| == NR_TASKS
  }

  ghost function WorldOf(m: Memory): World
    reads m, m.executable
  {
    World(m.st, m.executable[..])
  }

  /** What the kernel is asked to do. Places are task-relative; limits are in bytes. A store by the
      kernel is preceded by Verify, but others may run in between. */
  datatype Op =
    | Fork(parent: nat, child: nat, limit: nat)
    | Exec(t: nat, inode: nat, codeLimit: nat, dataLimit: nat)
    | Exit(t: nat, codeLimit: nat, dataLimit: nat)
    | Touch(t: nat, address: nat, endData: nat, count: nat, image: seq<Word>)
    | Store(t: nat, address: nat, j: nat, v: Word)
    | Verify(t: nat, address: nat)
    | KernelStore(t: nat, address: nat, j: nat, v: Word, endData: nat, count: nat, image: seq<Word>)

  predicate Sensible(op: Op) {
    match op
    case Fork(p, c, limit) => p < NR_TASKS && 1 <= c < NR_TASKS && p != c && DirCount(limit) <= (if p == 0 then 1 else DIRS)
    case Exec(t, _, m, n) => 1 <= t < NR_TASKS && DirCount(m) <= DIRS && DirCount(n) <= DIRS
    case Exit(t, m, n) => 1 <= t < NR_TASKS && DirCount(m) <= DIRS && DirCount(n) <= DIRS
    case Touch(t, address, _, _, image) => 1 <= t < NR_TASKS && address < TASK_SIZE && |image| == WORDS
    case Store(t, address, j, _) => 1 <= t < NR_TASKS && address < TASK_SIZE && j < WORDS
    case Verify(t, address) => 1 <= t < NR_TASKS && address < TASK_SIZE
    case KernelStore(t, address, j, _, _, _, image) => 1 <= t < NR_TASKS && address < TASK_SIZE && j < WORDS && |image| == WORDS
  }

  /** The task in whose space an operation acts. */
  function Actor(op: Op): nat {
    match op
    case Fork(_, c, _) => c
    case _ => op.t
  }

  /** What an operation does, as the simple machine sees it. */
  datatype Event =
    | Nothing
    | Copied(parent: nat, child: nat, n: nat)
    | Gone(t: nat, n: nat)
    | Became(at: iset<Loc>, page: Page)

  /** The page at x after an event; the simple machine has pages at valid places only. */
  ghost function After(s: Space, e: Event, x: Loc): Page {
    match e
    case Nothing => if x in s then s[x] else Absent
    case Copied(p, c, n) =>
      var y := if x.t == c && x.a < n then Loc(p, x.a, x.i) else x;
      if y in s then s[y] else Absent
    case Gone(t, n) => if x in s && !(x.t == t && x.a < n) then s[x] else Absent
    case Became(at, page) => if x in at then page else if x in s then s[x] else Absent
  }

  /** One step of the simple machine. */
  ghost function Step(s: Space, e: Event): Space {
    imap x: Loc | ValidLoc(x) :: After(s, e, x)
  }

  ghost function Run(s: Space, log: seq<Event>): Space {
    if log == [] then s else Step(Run(s, log[..|log| - 1]), log[|log| - 1])
  }

  // ----- what each operation does -----

  /** Neither a task structure nor a page table: the slot can take a new task. */
  ghost predicate SlotOpen(k: State, c: nat) {
    TaskPageOf(k, c) == 0 && forall d | DIRS <= d < WORDS && d / DIRS == c :: !Dir(k, d).present
  }

  ghost predicate CanFork(k: State, p: nat, c: nat, limit: nat) {
    SlotOpen(k, c) && FreeCount(k) >= 1 + TablesIn(k, p, DirCount(limit))
  }

  function Replaced(words: seq<Word>, j: nat, v: Word): seq<Word> {
    if j < |words| then words[j := v] else words
  }

  /** A kernel store is not made: the page was never verified, or there is no memory for it. */
  predicate NotStored(w: World, t: nat, address: nat, endData: nat, count: nat) {
    PageAt(w.k, TaskPlace(t, address)).Kernel? || StoreFails(w.k, w.exe, t, address, endData, count)
  }

  /** The places at which a kernel store is seen. */
  ghost function StoreHits(w: World, t: nat, address: nat, endData: nat, count: nat): iset<Loc> {
    iset y: Loc | ValidLoc(y) && Touched(w.k, w.exe, t, address, endData, count, y)
  }

  /** The effect of an operation in a given state. Nothing happens at a page that is there already when
      it is touched, that is not there when it is stored to, or when memory runs out. */
  ghost function EventOf(w: World, op: Op): Event {
    if !Sensible(op) then Nothing else
    match op
    case Fork(p, c, limit) => if CanFork(w.k, p, c, limit) then Copied(p, c, DirCount(limit)) else Nothing
    case Exec(t, _, m, n) => Gone(t, SpaceSize(m, n))
    case Exit(t, m, n) => Gone(t, SpaceSize(m, n))
    case Touch(t, address, endData, count, image) =>
      var x := TaskPlace(t, address);
      if EntryAt(w.k, x).present || NoPageFails(w.k, w.exe, t, address, endData, count) then Nothing
      else Became(iset{x}, Own(TargetPage(w.k, w.exe, t, address, endData, count, image)))
    case Store(t, address, j, v) =>
      var x := TaskPlace(t, address);
      if !EntryAt(w.k, x).present || CopyFails(w.k, x) then Nothing else Became(iset{x}, Stored(w.k, x, j, v))
    case Verify(t, address) =>
      var x := TaskPlace(t, address);
      if CopyFails(w.k, x) then Nothing else Became(iset{x}, Materialized(w.k, x))
    case KernelStore(t, address, j, v, endData, count, image) =>
      if NotStored(w, t, address, endData, count) then Nothing
      else Became(StoreHits(w, t, address, endData, count),
                  Own(Replaced(TargetPage(w.k, w.exe, t, address, endData, count, image), j, v)))
  }

  /** The executables after an operation. */
  ghost function ExeAfter(w: World, op: Op): seq<nat>
    requires |w.exe| == NR_TASKS
  {
    if !Sensible(op) then w.exe else
    match op
    case Fork(p, c, limit) => if CanFork(w.k, p, c, limit) then w.exe[c := w.exe[p]] else w.exe
    case Exec(t, inode, _, _) => w.exe[t := inode]
    case Exit(t, _, _) => w.exe[t := 0]
    case _ => w.exe
  }

  /** Task t has a task structure after the operation. */
  ghost predicate AliveAfter(w: World, op: Op, t: nat) {
    if Sensible(op) && op.Fork? && op.child == t && CanFork(w.k, op.parent, t, op.limit) then true
    else if Sensible(op) && op.Exit? && op.t == t then false
    else TaskPageOf(w.k, t) != 0
  }

  /** The whole state after an operation: frames, counters, tables and flags. */
  ghost function NextState(w: World, op: Op): State {
    if !Sensible(op) then w.k else
    match op
    case Fork(p, c, limit) => if SlotOpen(w.k, c) then ProcessCopied(w.k, p, c, DirCount(limit)) else w.k
    case Exec(t, _, m, n) => SpaceGone(w.k, t, m, n)
    case Exit(t, m, n) => TaskGone(SpaceGone(w.k, t, m, n), t)
    case Touch(t, address, endData, count, image) =>
      if EntryAt(w.k, TaskPlace(t, address)).present then w.k else Faulted(w.k, w.exe, t, address, endData, count, image)
    case Store(t, address, j, v) => UserStored(w.k, TaskPlace(t, address), j, v)
    case Verify(t, address) => Verifying(w.k, TaskPlace(t, address))
    case KernelStore(t, address, j, v, endData, count, image) =>
      if PageAt(w.k, TaskPlace(t, address)).Kernel? then w.k
      else KernelStored(w.k, w.exe, t, address, j, v, endData, count, image)
  }

  ghost function NextWorld(w: World, op: Op): World
    requires |w.exe| == NR_TASKS
  {
    World(NextState(w, op), ExeAfter(w, op))
  }

  /** What the simple machine sees of the operation. */
  ghost predicate Effect(w: World, op: Op, w': World) {
    && Good(w) && Good(w') && w'.exe == ExeAfter(w, op)
    && (forall x: Loc {:trigger PageAt(w'.k, x)} | ValidLoc(x) :: PageAt(w'.k, x) == After(SpaceOf(w.k), EventOf(w, op), x))
    && forall t | 1 <= t < NR_TASKS :: TaskPageOf(w'.k, t) != 0 <==> AliveAfter(w, op, t)
  }

  /** w' is what the operation makes of w, with the effect that its guards prescribe. */
  ghost predicate StepIs(w: World, op: Op, w': World) {
    Effect(w, op, w') && w' == NextWorld(w, op)
  }

  ghost function RunOf(w: World, ops: seq<Op>): World
    requires |w.exe| == NR_TASKS
    ensures |RunOf(w, ops).exe| == NR_TASKS
  {
    if ops == [] then w else NextWorld(RunOf(w, ops[..|ops| - 1]), ops[|ops| - 1])
  }

  /** The worlds between the operations of a run. */
  ghost predicate History(worlds: seq<World>, ops: seq<Op>) {
    var n := |ops|;
    && |worlds| == n + 1
    && if n == 0 then Good(worlds[0]) else History(worlds[..n], ops[..n - 1]) && StepIs(worlds[n - 1], ops[n - 1], worlds[n])
  }

  /** The simple machine's log of such a run. */
  ghost function LogOf(worlds: seq<World>, ops: seq<Op>): seq<Event>
    requires |worlds| == |ops| + 1
  {
    var n := |ops|;
    if n == 0 then [] else LogOf(worlds[..n], ops[..n - 1]) + [EventOf(worlds[n - 1], ops[n - 1])]
  }

  lemma EffectIsStep(w: World, op: Op, w': World)
    requires Effect(w, op, w')
    ensures SpaceOf(w'.k) == Step(SpaceOf(w.k), EventOf(w, op))
  {
  }

  lemma {:induction false} SpacesInRun(worlds: seq<World>, ops: seq<Op>)
    requires History(worlds, ops)
    ensures SpaceOf(worlds[|ops|].k) == Run(SpaceOf(worlds[0].k), LogOf(worlds, ops))
  {
    var n := |ops|;
    if n == 0 {
    } else {
      SpacesInRun(worlds[..n], ops[..n - 1]);
      var log := LogOf(worlds, ops);
      assert log[..|log| - 1] == LogOf(worlds[..n], ops[..n - 1]);
      EffectIsStep(worlds[n - 1], ops[n - 1], worlds[n]);
    }
  }

  lemma {:induction false} WorldsInRun(worlds: seq<World>, ops: seq<Op>)
    requires History(worlds, ops)
    ensures |worlds[0].exe| == NR_TASKS && worlds[|ops|] == RunOf(worlds[0], ops)
  {
    var n := |ops|;
    if n == 0 {
    } else {
      WorldsInRun(worlds[..n], ops[..n - 1]);
    }
  }

  lemma HistoryMore(worlds: seq<World>, ops: seq<Op>, op: Op, w: World)
    requires History(worlds, ops) && StepIs(worlds[|ops|], op, w)
    ensures History(worlds + [w], ops + [op])
  {
    var n, worlds', ops' := |ops|, worlds + [w], ops + [op];
    assert worlds'[..n + 1] == worlds && ops'[..n] == ops;
    assert worlds'[n] == worlds[n] && worlds'[n + 1] == w && ops'[n] == op;
  }

  // ----- isolation -----

  /** A kernel store that other tasks cannot notice. */
  ghost predicate Harmless(w: World, op: Op) {
    op.KernelStore? ==>
      || NotStored(w, op.t, op.address, op.endData, op.count)
      || !Exposed(w.k, w.exe, op.t, op.address, op.endData, op.count)
      || var words := TargetPage(w.k, w.exe, op.t, op.address, op.endData, op.count, op.image); Replaced(words, op.j, op.v) == words
  }

  /** Every operation leaves the pages of all other tasks as they are, unless it is a kernel store to a
      page that others have or will give: exactly then another task sees the store. */
  lemma StepConfined(w: World, op: Op, w': World)
    requires Effect(w, op, w') && Sensible(op)
    ensures (forall y: Loc | ValidLoc(y) && y.t != Actor(op) :: PageAt(w'.k, y) == PageAt(w.k, y)) <==> Harmless(w, op)
  {
    if op.KernelStore? && !NotStored(w, op.t, op.address, op.endData, op.count) {
      StoreConfined(w, op, w');
    } else {
      OthersConfined(w, op, w');
    }
  }

  lemma StoreConfined(w: World, op: Op, w': World)
    requires Effect(w, op, w') && Sensible(op) && op.KernelStore? && !NotStored(w, op.t, op.address, op.endData, op.count)
    ensures (forall y: Loc | ValidLoc(y) && y.t != op.t :: PageAt(w'.k, y) == PageAt(w.k, y)) <==> Harmless(w, op)
  {
    KernelStoreConfined(w.k, w'.k, w.exe, op.t, op.address, op.j, op.v, op.endData, op.count, op.image);
  }

  lemma OthersConfined(w: World, op: Op, w': World)
    requires Effect(w, op, w') && Sensible(op) && (op.KernelStore? ==> NotStored(w, op.t, op.address, op.endData, op.count))
    ensures forall y: Loc | ValidLoc(y) && y.t != Actor(op) :: PageAt(w'.k, y) == PageAt(w.k, y)
  {
  }

  /** Isolation: while other tasks act, and no kernel store on their behalf is exposed, no page of task u
      changes. */
  lemma {:induction false} Isolation(worlds: seq<World>, ops: seq<Op>, u: nat)
    requires History(worlds, ops)
    requires forall i | 0 <= i < |ops| && Sensible(ops[i]) :: Actor(ops[i]) != u && Harmless(worlds[i], ops[i])
    ensures forall x: Loc | ValidLoc(x) && x.t == u :: PageAt(worlds[|ops|].k, x) == PageAt(worlds[0].k, x)
  {
    var n := |ops|;
    if n == 0 {
    } else {
      Isolation(worlds[..n], ops[..n - 1], u);
      var w, op, w' := worlds[n - 1], ops[n - 1], worlds[n];
      if Sensible(op) {
        StepConfined(w, op, w');
      }
    }
  }

  // ----- the operations on the paging code's own state -----

  predicate PageOp(op: Op) {
    op.Touch? || op.Store? || op.Verify? || op.KernelStore?
  }

  lemma NothingStep(w: World, op: Op, w': World)
    requires Good(w) && Good(w') && PageOp(op) && EventOf(w, op) == Nothing
    requires SameView(w.k, w'.k) && w'.k.task == w.k.task && w' == NextWorld(w, op)
    ensures StepIs(w, op, w')
  {
  }

  lemma BecameStep(w: World, op: Op, w': World, at: iset<Loc>, page: Page)
    requires Good(w) && Good(w') && PageOp(op) && EventOf(w, op) == Became(at, page)
    requires forall y: Loc | ValidLoc(y) :: PageAt(w'.k, y) == if y in at then page else PageAt(w.k, y)
    requires w'.k.task == w.k.task && w' == NextWorld(w, op)
    ensures StepIs(w, op, w')
  {
  }

  lemma ForkStep(w: World, p: nat, c: nat, limit: nat, w': World)
    requires Good(w) && Good(w') && Sensible(Fork(p, c, limit)) && CanFork(w.k, p, c, limit)
    requires Forked(w.k, w'.k, p, c, DirCount(limit)) && w' == NextWorld(w, Fork(p, c, limit))
    requires w'.k.task[c] != 0 && w'.k.task == w.k.task[c := w'.k.task[c]]
    ensures StepIs(w, Fork(p, c, limit), w')
  {
  }

  lemma GoneStep(w: World, op: Op, w': World, t: nat, m: nat, n: nat)
    requires Good(w) && Good(w') && Sensible(op) && EventOf(w, op) == Gone(t, SpaceSize(m, n))
    requires Removed(w.k, w'.k, t, SpaceSize(m, n)) && w' == NextWorld(w, op)
    requires w'.k.task == if op.Exit? then w.k.task[t := 0] else w.k.task
    ensures StepIs(w, op, w')
  {
  }

  /** A free task slot. */
  method SlotFree(m: Memory, c: nat) returns (free: bool)
    requires m.Valid() && 1 <= c < NR_TASKS
    ensures free <==> SlotOpen(m.st, c)
  {
    if m.task[c] != 0 {
      return false;
    }
    var a := 0;
    while a < DIRS
      invariant 0 <= a <= DIRS
      invariant forall d | DIRS <= d < WORDS && d / DIRS == c && d % DIRS < a :: !Dir(m.st, d).present
    {
      if m.mem[0][DIRS * c + a].present {
        assert Dir(m.st, DIRS * c + a).present && (DIRS * c + a) / DIRS == c;
        return false;
      }
      a := a + 1;
    }
    return true;
  }

  method DoFork(m: Memory, p: nat, c: nat, limit: nat) returns (ok: bool)
    requires m.Valid() && Sensible(Fork(p, c, limit))
    modifies m.mem, m.mem_map, m.task, m.executable, m`st
    ensures m.Valid() && StepIs(old(WorldOf(m)), Fork(p, c, limit), WorldOf(m))
    ensures ok <==> CanFork(old(m.st), p, c, limit)
    ensures ok ==> OtherTables(old(m.st), m.st, c)
    ensures ok ==> ShowsBelow(old(m.st), m.st, p, c, limit) && KeptBeyond(old(m.st), m.st, c, limit)
    ensures ok ==> FreeCount(m.st) == FreeCount(old(m.st)) - 1 - TablesIn(old(m.st), p, DirCount(limit))
  {
    ghost var w := WorldOf(m);
    ok := SlotFree(m, c);
    if ok {
      ok := m.CopyProcess(c, p, limit);
    }
    if ok {
      ForkStep(w, p, c, limit, WorldOf(m));
    }
  }

  method DoExec(m: Memory, t: nat, inode: nat, codeLimit: nat, dataLimit: nat)
    requires m.Valid() && Sensible(Exec(t, inode, codeLimit, dataLimit))
    modifies m.mem, m.mem_map, m.executable, m`st
    ensures m.Valid() && StepIs(old(WorldOf(m)), Exec(t, inode, codeLimit, dataLimit), WorldOf(m))
    ensures OtherTables(old(m.st), m.st, t) && FreeCount(m.st) >= FreeCount(old(m.st))
  {
    ghost var w := WorldOf(m);
    m.DoExec(t, inode, codeLimit, dataLimit);
    GoneStep(w, Exec(t, inode, codeLimit, dataLimit), WorldOf(m), t, codeLimit, dataLimit);
  }

  /** exit, and the parent's wait that releases the task structure. */
  method DoExit(m: Memory, t: nat, codeLimit: nat, dataLimit: nat)
    requires m.Valid() && Sensible(Exit(t, codeLimit, dataLimit))
    modifies m.mem, m.mem_map, m.task, m.executable, m`st
    ensures m.Valid() && StepIs(old(WorldOf(m)), Exit(t, codeLimit, dataLimit), WorldOf(m))
  {
    ghost var w := WorldOf(m);
    m.DoExit(t, codeLimit, dataLimit);
    if m.task[t] != 0 {
      m.DropTaskPage(t);
    }
    GoneStep(w, Exit(t, codeLimit, dataLimit), WorldOf(m), t, codeLimit, dataLimit);
  }

  /** A touch that finds no page, and gets a new one. */
  predicate MakesPage(w: World, t: nat, address: nat, endData: nat, count: nat) {
    && !EntryAt(w.k, TaskPlace(t, address)).present && !NoPageFails(w.k, w.exe, t, address, endData, count)
    && SharedFor(w.k, w.exe, t, address, endData, count) == 0
  }

  /** What do_no_page maps. */
  lemma TouchedPage(w: World, op: Op, k': State)
    requires Good(w) && op.Touch? && Sensible(op) && !EntryAt(w.k, TaskPlace(op.t, op.address)).present
    requires var p, x := SharedFor(w.k, w.exe, op.t, op.address, op.endData, op.count), TaskPlace(op.t, op.address);
      if p != 0 then SharedPage(w.k, k', x, TaskPlace(p, op.address))
      else Loaded(w.k, k', x, FreshPage(w.exe, op.t, op.address, op.endData, op.image))
    ensures ViewSet(w.k, k', TaskPlace(op.t, op.address),
                    Own(TargetPage(w.k, w.exe, op.t, op.address, op.endData, op.count, op.image)))
  {
  }

  method DoTouch(m: Memory, t: nat, address: nat, endData: nat, count: nat, image: seq<Word>)
    requires m.Valid() && Sensible(Touch(t, address, endData, count, image))
    modifies m.mem, m.mem_map, m`st
    ensures m.Valid() && StepIs(old(WorldOf(m)), Touch(t, address, endData, count, image), WorldOf(m))
    ensures MakesPage(old(WorldOf(m)), t, address, endData, count) ==>
      NewEntry(m.st, TaskPlace(t, address)) && FreeCount(m.st) >= FreeCount(old(m.st)) - 2
  {
    ghost var w, x := WorldOf(m), TaskPlace(t, address);
    LinearPlace(t, address);
    ghost var op := Touch(t, address, endData, count, image);
    var present := m.IsPresent(TASK_SIZE * t + address);
    var r := Fault;
    if !present {
      r := m.DoNoPage(t, address, endData, count, image);
    }
    if r == Done {
      TouchStep(w, op, WorldOf(m), x);
    } else {
      NothingStep(w, op, WorldOf(m));
    }
  }

  lemma TouchStep(w: World, op: Op, w': World, x: Loc)
    requires Good(w) && Good(w') && op.Touch? && Sensible(op) && x == TaskPlace(op.t, op.address) && !EntryAt(w.k, x).present
    requires !NoPageFails(w.k, w.exe, op.t, op.address, op.endData, op.count)
    requires var p := SharedFor(w.k, w.exe, op.t, op.address, op.endData, op.count);
      if p != 0 then SharedPage(w.k, w'.k, x, TaskPlace(p, op.address))
      else Loaded(w.k, w'.k, x, FreshPage(w.exe, op.t, op.address, op.endData, op.image))
    requires w'.k.task == w.k.task && w' == NextWorld(w, op)
    ensures StepIs(w, op, w')
  {
    TouchedPage(w, op, w'.k);
    BecameStep(w, op, w', iset{x}, Own(TargetPage(w.k, w.exe, op.t, op.address, op.endData, op.count, op.image)));
  }

  method DoStore(m: Memory, t: nat, address: nat, j: nat, v: Word)
    requires m.Valid() && Sensible(Store(t, address, j, v))
    modifies m.mem, m.mem_map, m`st
    ensures m.Valid() && StepIs(old(WorldOf(m)), Store(t, address, j, v), WorldOf(m))
  {
    LinearPlace(t, address);
    ghost var k, exe, x := m.st, m.executable[..], PlaceOf(TASK_SIZE * t + address);
    var r := m.UserStore(TASK_SIZE * t + address, j, v);
    assert x == TaskPlace(t, address);
    StoreStep(k, m.st, exe, t, address, j, v, r, x);
  }

  lemma StoreStep(k: State, k': State, exe: seq<nat>, t: nat, address: nat, j: nat, v: Word, r: Outcome, x: Loc)
    requires x == TaskPlace(t, address) && Inv(k) && Inv(k') && |exe| == NR_TASKS && k'.task == k.task
    requires Sensible(Store(t, address, j, v)) && k' == UserStored(k, x, j, v) && (r != Done ==> k' == k)
    requires r == Fault <==> PageAt(k, x) == Absent
    requires r == OutOfMemory <==> CopyFails(k, x)
    requires r == Done ==> ViewSet(k, k', x, Stored(k, x, j, v))
    ensures StepIs(World(k, exe), Store(t, address, j, v), World(k', exe))
  {
    var w, w' := World(k, exe), World(k', exe);
    assert EntryOk(k, DirIndex(x), x.i);
    if r == Done {
      BecameStep(w, Store(t, address, j, v), w', iset{x}, Stored(k, x, j, v));
    } else {
      NothingStep(w, Store(t, address, j, v), w');
    }
  }

  method DoVerify(m: Memory, t: nat, address: nat)
    requires m.Valid() && Sensible(Verify(t, address))
    modifies m.mem, m.mem_map, m`st
    ensures m.Valid() && StepIs(old(WorldOf(m)), Verify(t, address), WorldOf(m))
  {
    ghost var w, x := WorldOf(m), TaskPlace(t, address);
    LinearPlace(t, address);
    var ok := m.WriteVerify(TASK_SIZE * t + address);
    if ok {
      BecameStep(w, Verify(t, address), WorldOf(m), iset{x}, Materialized(w.k, x));
    } else {
      NothingStep(w, Verify(t, address), WorldOf(m));
    }
  }

  /** A frame of the kernel's own is never stored to without write_verify; nothing is done then. */
  method DoKernelStore(m: Memory, t: nat, address: nat, j: nat, v: Word, endData: nat, count: nat, image: seq<Word>)
    requires m.Valid() && Sensible(KernelStore(t, address, j, v, endData, count, image))
    modifies m.mem, m.mem_map, m`st
    ensures m.Valid() && StepIs(old(WorldOf(m)), KernelStore(t, address, j, v, endData, count, image), WorldOf(m))
  {
    ghost var w := WorldOf(m);
    LinearPlace(t, address);
    ghost var op := KernelStore(t, address, j, v, endData, count, image);
    var kernels := m.ShowsKernelFrame(TASK_SIZE * t + address);
    var r := Fault;
    if !kernels {
      r := m.KernelStore(t, address, j, v, endData, count, image);
    }
    if r == Done {
      BecameStep(w, op, WorldOf(m), StoreHits(w, t, address, endData, count),
                 Own(Replaced(TargetPage(w.k, w.exe, t, address, endData, count, image), j, v)));
    } else {
      NothingStep(w, op, WorldOf(m));
    }
  }

  method DoOp(m: Memory, op: Op)
    requires m.Valid()
    modifies m.mem, m.mem_map, m.task, m.executable, m`st
    ensures m.Valid() && StepIs(old(WorldOf(m)), op, WorldOf(m))
  {
    if !Sensible(op) {
      return;
    }
    match op {
      case Fork(p, c, limit) => { var _ := DoFork(m, p, c, limit); }
      case Exec(t, inode, codeLimit, dataLimit) => { DoExec(m, t, inode, codeLimit, dataLimit); }
      case Exit(t, codeLimit, dataLimit) => { DoExit(m, t, codeLimit, dataLimit); }
      case Touch(t, address, endData, count, image) => { DoTouch(m, t, address, endData, count, image); }
      case Store(t, address, j, v) => { DoStore(m, t, address, j, v); }
      case Verify(t, address) => { DoVerify(m, t, address); }
      case KernelStore(t, address, j, v, endData, count, image) => {
        DoKernelStore(m, t, address, j, v, endData, count, image);
      }
    }
  }

  /** One more operation of a run. */
  method DoNext(m: Memory, op: Op, ghost worlds: seq<World>, ghost ops: seq<Op>) returns (ghost more: seq<World>)
    requires m.Valid() && History(worlds, ops) && worlds[|ops|] == WorldOf(m)
    modifies m.mem, m.mem_map, m.task, m.executable, m`st
    ensures m.Valid() && History(more, ops + [op]) && more[0] == worlds[0] && more[|ops| + 1] == WorldOf(m)
  {
    DoOp(m, op);
    HistoryMore(worlds, ops, op, WorldOf(m));
    more := worlds + [WorldOf(m)];
  }

  /** All of them, with the worlds between. */
  method DoAll(m: Memory, ops: seq<Op>) returns (ghost worlds: seq<World>)
    requires m.Valid()
    modifies m.mem, m.mem_map, m.task, m.executable, m`st
    ensures m.Valid() && History(worlds, ops) && worlds[0] == old(WorldOf(m)) && worlds[|ops|] == WorldOf(m)
  {
    if ops == [] {
      worlds := [WorldOf(m)];
    } else {
      var n := |ops| - 1;
      worlds := DoAll(m, ops[..n]);
      worlds := DoNext(m, ops[n], worlds, ops[..n]);
      assert ops[..n] + [ops[n]] == ops;
    }
  }

  /** Refinement: from any valid state, every run of the paging code is a run of the simple machine, each
      operation with the effect that its guards prescribe, and ends in what the tasks now see. */
  method Execute(m: Memory, ops: seq<Op>) returns (ghost worlds: seq<World>)
    requires m.Valid()
    modifies m.mem, m.mem_map, m.task, m.executable, m`st
    ensures m.Valid() && History(worlds, ops) && worlds[0] == old(WorldOf(m)) && worlds[|ops|] == WorldOf(m)
    ensures WorldOf(m) == RunOf(old(WorldOf(m)), ops)
    ensures SpaceOf(m.st) == Run(old(SpaceOf(m.st)), LogOf(worlds, ops))
  {
    worlds := DoAll(m, ops);
    WorldsInRun(worlds, ops);
    SpacesInRun(worlds, ops);
  }

  // ----- a run in which a kernel store is seen by another task -----

  const LIMIT := 0xa_0000

  /** Task 1 executes a program and forks; its child touches the first page of the program; then the
      kernel stores into that page of task 1, which is absent there. */
  function LeakOps(image: seq<Word>, v: Word): seq<Op> {
    TwinOps() + [Touch(2, 0, 4096, 2, image)] + [KernelStore(1, 0, 0, v, 4096, 2, image)]
  }

  function TwinOps(): seq<Op> {
    [Fork(0, 1, LIMIT)] + [Exec(1, 7, LIMIT, LIMIT)] + [Fork(1, 2, LIMIT)]
  }

  /** What holds when only tasks 1 and 2 run the program, and neither has its first page. */
  ghost predicate Twins(w: World) {
    && Good(w) && w.exe[1] == w.exe[2] == 7 && (forall t | 0 <= t < NR_TASKS && t != 1 && t != 2 :: w.exe[t] == 0)
    && PageAt(w.k, Loc(1, 0, 0)) == Absent && TaskPageOf(w.k, 2) != 0
  }

  lemma NobodyShares(w: World, image: seq<Word>)
    requires Twins(w) && PageAt(w.k, Loc(2, 0, 0)) == Absent && FreeCount(w.k) > 2 && |image| == WORDS
    ensures MakesPage(w, 2, 0, 4096, 2) && TargetPage(w.k, w.exe, 2, 0, 4096, 2, image) == image
  {
    TrimmedWhole(image, 4096);
    assert !EntryAt(w.k, Loc(1, 0, 0)).present;
  }

  /** The other one gives the page, and the store reaches its frame. */
  lemma LeakStep(w: World, image: seq<Word>, v: Word, w': World)
    requires Twins(w) && |image| == WORDS && PageAt(w.k, Loc(2, 0, 0)) == Own(image) && CleanAt(w.k, Loc(2, 0, 0))
    requires FreeCount(w.k) > 0 && Effect(w, KernelStore(1, 0, 0, v, 4096, 2, image), w')
    ensures PageAt(w'.k, Loc(2, 0, 0)) == Own(image[0 := v])
  {
    var y := Loc(2, 0, 0);
    assert !EntryAt(w.k, Loc(1, 0, 0)).present && TaskPlace(1, 0) == Loc(1, 0, 0) && TaskPlace(2, 0) == y;
    assert Sharer(w.k, w.exe, 2, 1, 0, 0);
    assert SharedFor(w.k, w.exe, 1, 0, 4096, 2) == 2;
    assert y in StoreHits(w, 1, 0, 4096, 2);
  }

  /** After boot the frames above the kernel are free, and so are all slots but the first. */
  lemma BootIsFree(high: nat)
    requires LOW < high <= LOW + PAGING_PAGES
    ensures FreeCount(Boot(high, LOW)) == high - LOW
    ensures forall c | 1 <= c < NR_TASKS :: SlotOpen(Boot(high, LOW), c)
  {
    var k := Boot(high, LOW);
    ZerosBefore(k.cnt, high - LOW, PAGING_PAGES);
    assert k.cnt[..PAGING_PAGES] == k.cnt;
    assert forall d | DIRS <= d < WORDS :: !Dir(k, d).present;
  }

  /** Slot 2 is open, and there is memory for what follows. */
  ghost predicate Open2(w: World, free: nat) {
    Good(w) && SlotOpen(w.k, 2) && FreeCount(w.k) >= free
  }

  /** A slot stays open while other tasks get or lose page tables. */
  lemma StaysOpen(w: World, w': World, free: nat)
    requires Open2(w, 0) && Good(w') && FreeCount(w'.k) >= free
    requires OtherTables(w.k, w'.k, 1) && TaskPageOf(w'.k, 2) == TaskPageOf(w.k, 2)
    ensures Open2(w', free)
  {
  }

  lemma OneTable(k: State, p: nat)
    ensures DirCount(LIMIT) == 1 && TablesIn(k, p, 1) <= 1
  {
    assert TablesIn(k, p, 0) == 0;
  }

  /** The program of task 1 is executed: its old pages are gone. */
  lemma ExecEmpties(w: World, w': World)
    requires Good(w) && Effect(w, Exec(1, 7, LIMIT, LIMIT), w')
    ensures PageAt(w'.k, Loc(1, 0, 0)) == Absent
  {
  }

  /** Then it forks. */
  lemma ForkTwins(w: World, w': World)
    requires Open2(w, 5) && (forall t | 0 <= t < NR_TASKS :: w.exe[t] == if t == 1 then 7 else 0) && PageAt(w.k, Loc(1, 0, 0)) == Absent
    requires Effect(w, Fork(1, 2, LIMIT), w') && FreeCount(w'.k) > 2
    ensures Twins(w') && PageAt(w'.k, Loc(2, 0, 0)) == Absent
  {
    OneTable(w.k, 1);
    assert CanFork(w.k, 1, 2, LIMIT);
    assert AliveAfter(w, Fork(1, 2, LIMIT), 2);
  }

  lemma TouchTwins(w: World, image: seq<Word>, w': World)
    requires Twins(w) && PageAt(w.k, Loc(2, 0, 0)) == Absent && FreeCount(w.k) > 2 && |image| == WORDS
    requires Effect(w, Touch(2, 0, 4096, 2, image), w') && NewEntry(w'.k, Loc(2, 0, 0)) && FreeCount(w'.k) >= FreeCount(w.k) - 2
    ensures Twins(w') && FreeCount(w'.k) > 0 && PageAt(w'.k, Loc(2, 0, 0)) == Own(image) && CleanAt(w'.k, Loc(2, 0, 0))
  {
    NobodyShares(w, image);
    assert AliveAfter(w, Touch(2, 0, 4096, 2, image), 2);
  }

  /** Task 0 forks. */
  method ForkInit(m: Memory)
    requires m.Valid() && Open2(WorldOf(m), 100) && SlotOpen(m.st, 1) && forall t | 0 <= t < NR_TASKS :: m.executable[t] == 0
    modifies m.mem, m.mem_map, m.task, m.executable, m`st
    ensures m.Valid() && StepIs(old(WorldOf(m)), Fork(0, 1, LIMIT), WorldOf(m))
    ensures Open2(WorldOf(m), 98) && forall t | 0 <= t < NR_TASKS :: m.executable[t] == 0
  {
    ghost var w := WorldOf(m);
    OneTable(m.st, 0);
    var ok := DoFork(m, 0, 1, LIMIT);
    assert !AliveAfter(w, Fork(0, 1, LIMIT), 2);
    StaysOpen(w, WorldOf(m), 98);
  }

  /** From boot to the first task of its own. */
  method MakeFirst() returns (m: Memory, ghost worlds: seq<World>)
    ensures fresh(m) && fresh(m.mem) && fresh(m.mem_map) && fresh(m.task) && fresh(m.executable) && m.Valid()
    ensures History(worlds, [Fork(0, 1, LIMIT)]) && worlds[0].k == Boot(LOW + 100, LOW) && worlds[1] == WorldOf(m)
    ensures Open2(WorldOf(m), 98) && forall t | 0 <= t < NR_TASKS :: m.executable[t] == 0
  {
    m := new Memory(LOW + 100, LOW);
    BootIsFree(LOW + 100);
    ghost var w := WorldOf(m);
    ForkInit(m);
    worlds := [w] + [WorldOf(m)];
    HistoryMore([w], [], Fork(0, 1, LIMIT), WorldOf(m));
    assert [] + [Fork(0, 1, LIMIT)] == [Fork(0, 1, LIMIT)];
  }

  /** It executes a program. */
  method ExecFirst(m: Memory, ghost worlds: seq<World>, ghost ops: seq<Op>) returns (ghost more: seq<World>)
    requires m.Valid() && Open2(WorldOf(m), 98) && forall t | 0 <= t < NR_TASKS :: m.executable[t] == 0
    requires History(worlds, ops) && worlds[|ops|] == WorldOf(m)
    modifies m.mem, m.mem_map, m.executable, m`st
    ensures m.Valid() && History(more, ops + [Exec(1, 7, LIMIT, LIMIT)]) && more == worlds + [WorldOf(m)]
    ensures Open2(WorldOf(m), 98) && PageAt(m.st, Loc(1, 0, 0)) == Absent
    ensures forall t | 0 <= t < NR_TASKS :: m.executable[t] == if t == 1 then 7 else 0
  {
    ghost var w := WorldOf(m);
    DoExec(m, 1, 7, LIMIT, LIMIT);
    assert !AliveAfter(w, Exec(1, 7, LIMIT, LIMIT), 2);
    StaysOpen(w, WorldOf(m), 98);
    ExecEmpties(w, WorldOf(m));
    HistoryMore(worlds, ops, Exec(1, 7, LIMIT, LIMIT), WorldOf(m));
    more := worlds + [WorldOf(m)];
  }

  /** It forks. */
  method ForkFirst(m: Memory, ghost worlds: seq<World>, ghost ops: seq<Op>) returns (ghost more: seq<World>)
    requires m.Valid() && Open2(WorldOf(m), 98) && PageAt(m.st, Loc(1, 0, 0)) == Absent
    requires forall t | 0 <= t < NR_TASKS :: m.executable[t] == if t == 1 then 7 else 0
    requires History(worlds, ops) && worlds[|ops|] == WorldOf(m)
    modifies m.mem, m.mem_map, m.task, m.executable, m`st
    ensures m.Valid() && History(more, ops + [Fork(1, 2, LIMIT)]) && more == worlds + [WorldOf(m)]
    ensures Twins(WorldOf(m)) && PageAt(m.st, Loc(2, 0, 0)) == Absent && FreeCount(m.st) > 2
  {
    ghost var w := WorldOf(m);
    OneTable(m.st, 1);
    var ok := DoFork(m, 1, 2, LIMIT);
    ForkTwins(w, WorldOf(m));
    HistoryMore(worlds, ops, Fork(1, 2, LIMIT), WorldOf(m));
    more := worlds + [WorldOf(m)];
  }

  method TouchTwin(m: Memory, image: seq<Word>)
    requires m.Valid() && |image| == WORDS
    requires Twins(WorldOf(m)) && PageAt(m.st, Loc(2, 0, 0)) == Absent && FreeCount(m.st) > 2
    modifies m.mem, m.mem_map, m`st
    ensures m.Valid() && StepIs(old(WorldOf(m)), Touch(2, 0, 4096, 2, image), WorldOf(m))
    ensures Twins(WorldOf(m)) && FreeCount(m.st) > 0 && PageAt(m.st, Loc(2, 0, 0)) == Own(image) && CleanAt(m.st, Loc(2, 0, 0))
  {
    ghost var w := WorldOf(m);
    NobodyShares(w, image);
    DoTouch(m, 2, 0, 4096, 2, image);
    TouchTwins(w, image, WorldOf(m));
  }

  /** The child touches the first page. */
  method TouchSecond(m: Memory, image: seq<Word>, ghost worlds: seq<World>, ghost ops: seq<Op>) returns (ghost more: seq<World>)
    requires m.Valid() && |image| == WORDS
    requires Twins(WorldOf(m)) && PageAt(m.st, Loc(2, 0, 0)) == Absent && FreeCount(m.st) > 2
    requires History(worlds, ops) && worlds[|ops|] == WorldOf(m)
    modifies m.mem, m.mem_map, m`st
    ensures m.Valid() && History(more, ops + [Touch(2, 0, 4096, 2, image)]) && more == worlds + [WorldOf(m)]
    ensures Twins(WorldOf(m)) && FreeCount(m.st) > 0 && PageAt(m.st, Loc(2, 0, 0)) == Own(image) && CleanAt(m.st, Loc(2, 0, 0))
  {
    TouchTwin(m, image);
    HistoryMore(worlds, ops, Touch(2, 0, 4096, 2, image), WorldOf(m));
    more := worlds + [WorldOf(m)];
  }

  /** The kernel stores into the first page of task 1. */
  method StoreFirst(m: Memory, image: seq<Word>, v: Word, ghost worlds: seq<World>, ghost ops: seq<Op>) returns (ghost more: seq<World>)
    requires m.Valid() && |image| == WORDS
    requires Twins(WorldOf(m)) && FreeCount(m.st) > 0 && PageAt(m.st, Loc(2, 0, 0)) == Own(image) && CleanAt(m.st, Loc(2, 0, 0))
    requires History(worlds, ops) && worlds[|ops|] == WorldOf(m)
    modifies m.mem, m.mem_map, m`st
    ensures m.Valid() && History(more, ops + [KernelStore(1, 0, 0, v, 4096, 2, image)]) && more == worlds + [WorldOf(m)]
    ensures PageAt(m.st, Loc(2, 0, 0)) == Own(image[0 := v])
  {
    ghost var w := WorldOf(m);
    DoKernelStore(m, 1, 0, 0, v, 4096, 2, image);
    LeakStep(w, image, v, WorldOf(m));
    HistoryMore(worlds, ops, KernelStore(1, 0, 0, v, 4096, 2, image), WorldOf(m));
    more := worlds + [WorldOf(m)];
  }

  /** The first three operations. */
  method MakeTwins() returns (m: Memory, ghost worlds: seq<World>)
    ensures fresh(m) && fresh(m.mem) && fresh(m.mem_map) && fresh(m.task) && fresh(m.executable) && m.Valid()
    ensures History(worlds, TwinOps()) && worlds[0].k == Boot(LOW + 100, LOW) && worlds[3] == WorldOf(m)
    ensures Twins(WorldOf(m)) && PageAt(m.st, Loc(2, 0, 0)) == Absent && FreeCount(m.st) > 2
  {
    m, worlds := MakeFirst();
    worlds := ExecFirst(m, worlds, [Fork(0, 1, LIMIT)]);
    worlds := ForkFirst(m, worlds, [Fork(0, 1, LIMIT)] + [Exec(1, 7, LIMIT, LIMIT)]);
  }

  /** From boot, within five operations, another task's page is changed: the store goes to task 1 alone, and
      task 2 sees it. */
  method LeakExample(image: seq<Word>, v: Word) returns (m: Memory, ghost worlds: seq<World>)
    requires |image| == WORDS && image[0] != v
    ensures m.Valid() && History(worlds, LeakOps(image, v)) && worlds[0].k == Boot(LOW + 100, LOW)
    ensures PageAt(worlds[4].k, Loc(2, 0, 0)) == Own(image) && PageAt(worlds[5].k, Loc(2, 0, 0)) == Own(image[0 := v])
  {
    m, worlds := MakeTwins();
    worlds := TouchSecond(m, image, worlds, TwinOps());
    worlds := StoreFirst(m, image, v, worlds, TwinOps() + [Touch(2, 0, 4096, 2, image)]);
  }
}
