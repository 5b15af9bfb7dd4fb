/** The memory state behind mm/memory.c: physical frames, the `mem_map` counters and,
    as specification state, what every frame is used for.

    Addresses are counted in pages: frame `f` is the physical page at `4096 * f`. The page
    directory is frame 0 and page tables are ordinary frames, so a store that reached a page
    table would change a mapping; that it never does is part of the invariant. */
module PageState {

  const LOW := 256            // LOW_MEM >> 12
  const PAGING_PAGES := 3840  // PAGING_MEMORY >> 12
  const WORDS := 1024         // 32-bit words in a page
  const NR_TASKS := 64
  const DIRS := 16            // directory entries (4 MB each) in one task's 64 MB
  const USED := 100
  const KERNEL_PAGES := 160   // 0xA0: the 640 kB that the first fork copies

  /** A 32-bit word, split into its page number and the flag bits that memory.c looks at. */
  datatype Word = Word(page: nat, present: bool, rw: bool, dirty: bool, other: nat)

  const ZERO := Word(0, false, false, false, 0)

  /** `page | 7`: present, writable, user. */
  function Entry7(page: nat): Word {
    Word(page, true, true, false, 1)
  }

  /** What a frame at or above LOW is used for. A user page belongs to one task-relative place. */
  datatype Use =
    | Free
    | Reserved
    | Held
    | TaskPage(t: nat)
    | Table(d: nat)
    | User(a: nat, i: nat)

  /** A snapshot: frame contents, counters, the task pages, and the use of each frame. */
  datatype State = State(mem: seq<seq<Word>>, cnt: seq<nat>, task: seq<nat>, use: seq<Use>)

  predicate Shape(k: State) {
    && LOW < |k.mem| <= LOW + PAGING_PAGES
    && (forall f | 0 <= f < |k.mem| :: |k.mem[f]| == WORDS)
    && |k.cnt| == PAGING_PAGES
    && |k.use| == PAGING_PAGES
    && |k.task| == NR_TASKS
  }

  predicate InRam(k: State, f: nat) {
    LOW <= f < |k.mem|
  }

  /** Directory entry d; the zero word outside the directory. */
  function Dir(k: State, d: nat): Word {
    if 0 < |k.mem| && d < |k.mem[0]| then k.mem[0][d] else ZERO
  }

  /** The page-table entry `i` below directory entry `d`; all zero where there is no table. */
  function Entry(k: State, d: nat, i: nat): Word {
    var t := Dir(k, d);
    if t.present && t.page < |k.mem| && i < |k.mem[t.page]| then k.mem[t.page][i] else ZERO
  }

  function UseOf(k: State, f: nat): Use {
    if LOW <= f < LOW + |k.use| then k.use[f - LOW] else Reserved
  }

  function CountOf(k: State, f: nat): nat {
    if LOW <= f < LOW + |k.cnt| then k.cnt[f - LOW] else USED
  }

  function TaskPageOf(k: State, t: nat): nat {
    if t < |k.task| then k.task[t] else 0
  }

  predicate Names(k: State, t: nat, a: nat, i: nat, f: nat) {
    Entry(k, DIRS * t + a, i).present && Entry(k, DIRS * t + a, i).page == f
  }

  /** The user tasks whose entry at task-relative place (a, i) names frame f. */
  function Sharers(k: State, a: nat, i: nat, f: nat): set<nat> {
    set t: nat | 1 <= t < NR_TASKS && Names(k, t, a, i, f)
  }

  // ----- the invariant -----

  ghost predicate DirOk(k: State, d: nat) {
    Dir(k, d).present ==> InRam(k, Dir(k, d).page) && UseOf(k, Dir(k, d).page) == Table(d)
  }

  /** A present user entry names a low frame read-only, or a user frame of its own place, and
      is writable only as the frame's single reference. */
  ghost predicate EntryOk(k: State, d: nat, i: nat) {
    var e := Entry(k, d, i);
    e.present ==>
      if e.page < LOW then !e.rw
      else InRam(k, e.page) && UseOf(k, e.page) == User(d % DIRS, i) && (e.rw ==> CountOf(k, e.page) == 1)
  }

  ghost predicate FrameOk(k: State, f: nat) {
    var c := CountOf(k, f);
    match UseOf(k, f)
    case Free => c == 0 && f < |k.mem|
    case Reserved => c == USED
    case Held => c == 1 && f < |k.mem|
    case TaskPage(t) => c == 1 && f < |k.mem| && 1 <= t < NR_TASKS && TaskPageOf(k, t) == f
    case Table(d) => c == 1 && f < |k.mem| && DIRS <= d < WORDS && Dir(k, d).present && Dir(k, d).page == f
    case User(a, i) => f < |k.mem| && a < DIRS && i < WORDS && c == |Sharers(k, a, i, f)| && c >= 1
  }

  ghost predicate TaskOk(k: State, t: nat) {
    TaskPageOf(k, t) != 0 ==> InRam(k, TaskPageOf(k, t)) && UseOf(k, TaskPageOf(k, t)) == TaskPage(t)
  }

  /** Task 0's first 160 entries map low frames only, from a table in low memory. */
  ghost predicate KernelOk(k: State) {
    && Dir(k, 0).present
    && 0 < Dir(k, 0).page < LOW
    && forall i | 0 <= i < KERNEL_PAGES :: Entry(k, 0, i).present ==> Entry(k, 0, i).page < LOW
  }

  ghost predicate Inv(k: State) {
    && Shape(k)
    && KernelOk(k)
    && (forall d | DIRS <= d < WORDS :: DirOk(k, d))
    && (forall d, i | DIRS <= d < WORDS && 0 <= i < WORDS :: EntryOk(k, d, i))
    && (forall f | LOW <= f < LOW + PAGING_PAGES :: FrameOk(k, f))
    && (forall t | 1 <= t < NR_TASKS :: TaskOk(k, t))
  }

  /** The page directory as head.s leaves it: four tables that map the first 16 MB onto themselves. */
  function BootDir(): seq<Word> {
    seq(WORDS, d => if 0 <= d < 4 then Entry7(d + 1) else ZERO)
  }

  function BootFrame(f: nat): seq<Word> {
    if f == 0 then BootDir()
    else if f <= 4 then seq(WORDS, i => if 0 <= i then Entry7(WORDS * (f - 1) + i) else ZERO)
    else seq(WORDS, _ => ZERO)
  }

  /** After mem_init: frames from `start` up to `high` are free, the others are the kernel's. */
  ghost function Boot(high: nat, start: nat): (k: State)
    requires LOW < high <= LOW + PAGING_PAGES && LOW <= start <= high
    ensures Inv(k)
    ensures forall x: Loc | ValidLoc(x) && x.t != 0 :: PageAt(k, x) == Absent
  {
    var k := State(seq(high, f => if 0 <= f then BootFrame(f) else []),
          seq(PAGING_PAGES, j => if start <= j + LOW < high then 0 else USED),
          seq(NR_TASKS, _ => 0),
          seq(PAGING_PAGES, j => if start <= j + LOW < high then Free else Reserved));
    assert k.mem[0] == BootDir() && k.mem[1] == BootFrame(1);
    assert forall d | DIRS <= d < WORDS :: !Dir(k, d).present;
    assert forall i | 0 <= i < KERNEL_PAGES :: Entry(k, 0, i) == Entry7(i);
    k
  }

  type GoodState = k: State | Inv(k) ghost witness Boot(LOW + 1, LOW)

  // ----- what a task sees -----

  datatype Loc = Loc(t: nat, a: nat, i: nat)

  /** A page of a task's address space: nothing, a kernel frame shared read-only, or bytes of its own. */
  datatype Page = Absent | Kernel(f: nat) | Own(words: seq<Word>)

  predicate ValidLoc(x: Loc) {
    x.t < NR_TASKS && x.a < DIRS && x.i < WORDS
  }

  function DirIndex(x: Loc): nat {
    DIRS * x.t + x.a
  }

  function EntryAt(k: State, x: Loc): Word {
    Entry(k, DirIndex(x), x.i)
  }

  /** Task 0 is seen only through the pages that its fork copies. */
  function PageAt(k: State, x: Loc): Page {
    var e := EntryAt(k, x);
    if !e.present || (x.t == 0 && (x.a != 0 || x.i >= KERNEL_PAGES)) then Absent
    else if LOW <= e.page < |k.mem| then Own(k.mem[e.page])
    else Kernel(e.page)
  }

  /** Nobody's view changes. */
  ghost predicate SameView(k: State, k': State) {
    forall y: Loc {:trigger PageAt(k', y)} | ValidLoc(y) :: PageAt(k', y) == PageAt(k, y)
  }

  /** The page at x becomes p, and no other page of any task changes. */
  ghost predicate ViewSet(k: State, k': State, x: Loc, p: Page) {
    forall y: Loc {:trigger PageAt(k', y)} | ValidLoc(y) :: PageAt(k', y) == if y == x then p else PageAt(k, y)
  }

  // ----- single changes of the state -----

  function WithWord(mem: seq<seq<Word>>, f: nat, i: nat, w: Word): seq<seq<Word>> {
    if f < |mem| && i < |mem[f]| then mem[f := mem[f][i := w]] else mem
  }

  function WithDir(k: State, d: nat, w: Word): State {
    k.(mem := WithWord(k.mem, 0, d, w))
  }

  function WithEntry(k: State, d: nat, i: nat, w: Word): State {
    k.(mem := WithWord(k.mem, Dir(k, d).page, i, w))
  }

  function WithFrame(k: State, f: nat, words: seq<Word>): State {
    if f < |k.mem| then k.(mem := k.mem[f := words]) else k
  }

  function WithUse(k: State, f: nat, c: nat, u: Use): State {
    if LOW <= f < LOW + |k.cnt| && f < LOW + |k.use| then k.(cnt := k.cnt[f - LOW := c], use := k.use[f - LOW := u]) else k
  }

  /** Writing one entry changes no other entry and no directory entry: every table is its
      directory entry's alone. */
  lemma EntryAfter(k: State, d: nat, i: nat, w: Word)
    requires Inv(k) && DIRS <= d < WORDS && i < WORDS && Dir(k, d).present
    ensures var k' := WithEntry(k, d, i, w);
      && Shape(k')
      && (forall e | 0 <= e < WORDS :: Dir(k', e) == Dir(k, e))
      && (forall e, j | DIRS <= e < WORDS && 0 <= j < WORDS ::
            Entry(k', e, j) == if e == d && j == i then w else Entry(k, e, j))
      && (forall j | 0 <= j < WORDS :: Entry(k', 0, j) == Entry(k, 0, j))
  {
    var k' := WithEntry(k, d, i, w);
    assert DirOk(k, d);
    forall e, j | DIRS <= e < WORDS && 0 <= j < WORDS
      ensures Entry(k', e, j) == if e == d && j == i then w else Entry(k, e, j)
    {
      assert DirOk(k, e);
    }
  }
}
