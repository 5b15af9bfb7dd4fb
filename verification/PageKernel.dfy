/** mm/memory.c and the memory part of kernel/fork.c as methods that update frames and counters
    in place. Each method's contract says what it does to the tasks' views; that no `panic` of
    the source is reached is the precondition of `FreePage`, met at every call. */
module PageKernel {
  import opened PageState
  import opened PageSteps
  import opened PageTheorems
  import opened PageSpecs
  import opened PageCounts
  import opened PageNext
  import opened PageImage

  const TASK_SIZE := 0x400_0000
  const DIR_SIZE := 0x40_0000

  /** How many 4 MB directory entries a size in bytes needs. */
  function DirCount(size: nat): nat {
    (size + 0x3fffff) / DIR_SIZE
  }

  /** Just enough of them. */
  lemma DirCountIs(size: nat)
    ensures var n := DirCount(size); size <= DIR_SIZE * n && (n > 0 ==> DIR_SIZE * (n - 1) < size)
  {
  }

  /** The directory entries of a space with these limits of code and data. */
  function SpaceSize(codeLimit: nat, dataLimit: nat): nat {
    if DirCount(codeLimit) < DirCount(dataLimit) then DirCount(dataLimit) else DirCount(codeLimit)
  }

  /** How a task's memory access ends; OutOfMemory is the source's oom(), which exits the task. */
  datatype Outcome = Done | Fault | OutOfMemory

  /** The place of a linear address. */
  function PlaceOf(address: nat): Loc {
    Place(address / DIR_SIZE, address / 4096 % WORDS)
  }

  /** The place of a task-relative address in task t. */
  function TaskPlace(t: nat, address: nat): Loc {
    Loc(t, address / DIR_SIZE, address / 4096 % WORDS)
  }

  /** A place shows just the 4096 addresses of its page. */
  lemma PlaceIs(t: nat, address: nat, x: Loc)
    requires ValidLoc(x)
    ensures TaskPlace(t, address) == x <==> t == x.t && DIR_SIZE * x.a + 4096 * x.i <= address < DIR_SIZE * x.a + 4096 * x.i + 4096
  {
    var page := address / 4096;
    assert address / DIR_SIZE == page / WORDS;
    assert page == WORDS * (page / WORDS) + page % WORDS;
  }

  // ----- what a range of tables means for addresses -----

  /** Below the limit task c sees what task p saw at the same addresses. */
  ghost predicate ShowsBelow(k: State, k': State, p: nat, c: nat, limit: nat) {
    forall address: nat | address < limit :: PageAt(k', TaskPlace(c, address)) == PageAt(k, TaskPlace(p, address))
  }

  /** Task t sees nothing below the limit. */
  ghost predicate EmptyBelow(k: State, t: nat, limit: nat) {
    forall address: nat | address < limit :: PageAt(k, TaskPlace(t, address)) == Absent
  }

  /** All is as before, but for task t below the limit, rounded up to 4 MB. */
  ghost predicate KeptBeyond(k: State, k': State, t: nat, limit: nat) {
    forall x: Loc {:trigger PageAt(k', x)} | ValidLoc(x) && !(x.t == t && DIR_SIZE * x.a < limit) :: PageAt(k', x) == PageAt(k, x)
  }

  lemma BelowLimit(t: nat, address: nat, limit: nat)
    requires address < limit && t < NR_TASKS && DirCount(limit) <= DIRS
    ensures ValidLoc(TaskPlace(t, address)) && TaskPlace(t, address).a < DirCount(limit)
  {
    DirCountIs(limit);
  }

  lemma ForkedBelow(k: State, k': State, p: nat, c: nat, limit: nat)
    requires Forked(k, k', p, c, DirCount(limit)) && c < NR_TASKS && DirCount(limit) <= DIRS
    ensures ShowsBelow(k, k', p, c, limit) && KeptBeyond(k, k', c, limit)
  {
    forall address: nat | address < limit
      ensures PageAt(k', TaskPlace(c, address)) == PageAt(k, TaskPlace(p, address))
    {
      BelowLimit(c, address, limit);
    }
    DirCountIs(limit);
  }

  lemma RemovedBelow(k: State, k': State, t: nat, limit: nat)
    requires Removed(k, k', t, DirCount(limit)) && t < NR_TASKS && DirCount(limit) <= DIRS
    ensures EmptyBelow(k', t, limit) && KeptBeyond(k, k', t, limit)
  {
    forall address: nat | address < limit
      ensures PageAt(k', TaskPlace(t, address)) == Absent
    {
      BelowLimit(t, address, limit);
    }
    DirCountIs(limit);
  }

  /** Both limits count. */
  lemma RemovedBoth(k: State, k': State, t: nat, m: nat, n: nat)
    requires Removed(k, k', t, SpaceSize(m, n)) && t < NR_TASKS && DirCount(m) <= DIRS && DirCount(n) <= DIRS
    ensures EmptyBelow(k', t, m) && EmptyBelow(k', t, n) && KeptBeyond(k, k', t, if m < n then n else m)
  {
    DirCountIs(m);
    DirCountIs(n);
    forall address: nat | address < m || address < n
      ensures PageAt(k', TaskPlace(t, address)) == Absent
    {
      BelowLimit(t, address, if address < m then m else n);
    }
  }

  lemma LinearPlace(t: nat, address: nat)
    requires address < TASK_SIZE
    ensures PlaceOf(TASK_SIZE * t + address) == TaskPlace(t, address)
  {
    LinearDir(t, address);
    LinearPage(t, address);
  }

  lemma LinearDir(t: nat, address: nat)
    requires address < TASK_SIZE
    ensures (TASK_SIZE * t + address) / DIR_SIZE == DIRS * t + address / DIR_SIZE
  {
    var q, r := address / DIR_SIZE, address % DIR_SIZE;
    assert TASK_SIZE * t + address == DIR_SIZE * (DIRS * t + q) + r;
  }

  lemma LinearPage(t: nat, address: nat)
    ensures (TASK_SIZE * t + address) / 4096 % WORDS == address / 4096 % WORDS
  {
    var q, r := address / 4096, address % 4096;
    assert (TASK_SIZE * t + address) / 4096 == DIRS * WORDS * t + q by {
      assert TASK_SIZE * t + address == 4096 * (DIRS * WORDS * t + q) + r;
    }
    MultipleDropped(DIRS * t, q);
  }

  lemma MultipleDropped(n: nat, q: nat)
    ensures (WORDS * n + q) % WORDS == q % WORDS
  {
    assert WORDS * n + q == WORDS * (n + q / WORDS) + q % WORDS;
  }

  /** Task c sees what task p sees in the first n tables' worth of its space; nobody else is affected. */
  ghost predicate Forked(k: State, k': State, p: nat, c: nat, n: nat) {
    forall x: Loc {:trigger PageAt(k', x)} | ValidLoc(x) ::
      PageAt(k', x) == if x.t == c && x.a < n then PageAt(k, Loc(p, x.a, x.i)) else PageAt(k, x)
  }

  /** The directory entries of all tasks but c are as they were. */
  ghost predicate OtherTables(k: State, k': State, c: nat) {
    forall d | DIRS <= d < WORDS && d / DIRS != c :: Dir(k', d) == Dir(k, d)
  }

  /** Setting up the child's task page leaves all mappings alone. */
  lemma TaskPageFork(k: State, k': State, p: nat, nr: nat, cur: nat, n: nat)
    requires cur < NR_TASKS && n <= (if cur == 0 then 1 else DIRS)
    requires Inv(k) && InRam(k, p) && UseOf(k, p).Free? && 1 <= nr < NR_TASKS && NoTables(k, nr)
    requires var k1 := WithUse(WithFrame(k, p, ZeroPage()), p, 1, Held);
      k' == WithUse(k1, p, 1, TaskPage(nr)).(task := k1.task[nr := p]) && Inv(k1) && Inv(k')
    ensures NoTables(k', nr) && FreeCount(k') == FreeCount(k) - 1 && TablesIn(k', cur, n) == TablesIn(k, cur, n)
    ensures forall d | DIRS <= d < WORDS :: Dir(k', d) == Dir(k, d)
  {
    Alloc(k, p, ZeroPage());
    assert FrameOk(k, p);
    TakenFree(k, p);
    var k1 := WithUse(WithFrame(k, p, ZeroPage()), p, 1, Held);
    assert k'.cnt == k1.cnt;
    forall a: nat | a < n
      ensures HasTable(k', cur, a) == HasTable(k, cur, a)
    {
      assert Dir(k', DIRS * cur + a) == Dir(k1, DIRS * cur + a);
    }
    SameTables(k, k', cur, n);
    forall d | DIRS <= d < WORDS
      ensures Dir(k', d) == Dir(k, d)
    {
      assert Dir(k', d) == Dir(k1, d) == Dir(k, d);
    }
  }

  lemma ForkedAfter(k: State, k1: State, k2: State, p: nat, c: nat, n: nat)
    requires SameView(k, k1) && TablesCopied(k1, k2, p, c, n) && p < NR_TASKS
    ensures Forked(k, k2, p, c, n)
  {
    forall x: Loc | ValidLoc(x)
      ensures PageAt(k2, x) == if x.t == c && x.a < n then PageAt(k, Loc(p, x.a, x.i)) else PageAt(k, x)
    {
      assert PageAt(k1, Loc(p, x.a, x.i)) == PageAt(k, Loc(p, x.a, x.i));
    }
  }

  /** Entry x shows the frame that entry y names, read-only, as y does now. */
  ghost predicate SharedPage(k: State, k': State, x: Loc, y: Loc) {
    && PageAt(k, y).Own? && ViewSet(k, k', x, PageAt(k, y))
    && EntryAt(k', x).present && !EntryAt(k', x).rw && EntryAt(k', x).page == EntryAt(k, y).page
    && (forall z: Loc | ValidLoc(z) && z.t != 0 && z != x ::
          EntryAt(k', z).present == EntryAt(k, z).present && EntryAt(k', z).page == EntryAt(k, z).page)
  }

  /** Making the page table first changes nothing in that. */
  lemma SharedAfterTable(k: State, k1: State, k': State, x: Loc, y: Loc, d: nat)
    requires TableAdded(k, k1, d) && SharedPage(k1, k', x, y) && ValidLoc(x) && ValidLoc(y) && y.t != 0
    ensures SharedPage(k, k', x, y)
  {
    assert EntryAt(k1, y) == EntryAt(k, y) && PageAt(k1, y) == PageAt(k, y);
    forall z: Loc | ValidLoc(z) && z.t != 0
      ensures EntryAt(k1, z) == EntryAt(k, z)
    {
    }
  }

  /** Entry x has a new page, writable. */
  ghost predicate Loaded(k: State, k': State, x: Loc, words: seq<Word>) {
    ViewSet(k, k', x, Own(words)) && NewEntry(k', x)
  }

  /** What put_page stores: present, writable, clean. */
  predicate NewEntry(k: State, x: Loc) {
    EntryAt(k, x).present && EntryAt(k, x).rw && !EntryAt(k, x).dirty
  }

  /** There is a page table for x, or a frame for one. */
  predicate HasRoom(k: State, x: Loc) {
    Dir(k, DirIndex(x)).present || FreeCount(k) > 0
  }

  /** The task from which share_page would take the page; 0 for none. */
  function Giver(k: State, exe: seq<nat>, cur: nat, address: nat, count: nat): nat {
    if cur >= |exe| || exe[cur] == 0 || count < 2 then 0
    else LastSharer(k, exe, cur, TaskPlace(cur, address).a, TaskPlace(cur, address).i, NR_TASKS)
  }

  /** The page is part of the executable, for all that do_no_page knows. */
  predicate OfExecutable(exe: seq<nat>, cur: nat, address: nat, endData: nat) {
    cur < |exe| && exe[cur] != 0 && address - address % 4096 < endData
  }

  /** The task from which a first touch takes the page; 0 if it makes a new one. */
  function SharedFor(k: State, exe: seq<nat>, cur: nat, address: nat, endData: nat, count: nat): nat {
    if OfExecutable(exe, cur, address, endData) then Giver(k, exe, cur, address, count) else 0
  }

  /** What a page that is not shared begins with: the executable's image of it, up to endData. */
  function FreshPage(exe: seq<nat>, cur: nat, address: nat, endData: nat, image: seq<Word>): seq<Word> {
    if OfExecutable(exe, cur, address, endData) then Trimmed(image, KeptBytes(address, endData)) else ZeroPage()
  }

  /** How much of the page lies below endData. */
  function KeptBytes(address: nat, endData: nat): nat {
    var base := address - address % 4096;
    if base < endData then endData - base else 0
  }

  /** The bytes of such a page: those of the image at addresses below endData, and zeros. */
  lemma FreshBytes(exe: seq<nat>, cur: nat, address: nat, endData: nat, image: seq<Word>, b: nat)
    requires |image| == WORDS && b < 4096
    ensures var page := FreshPage(exe, cur, address, endData, image);
      |page| == WORDS && ByteOf(page[b / 4], b % 4) ==
        if cur < |exe| && exe[cur] != 0 && address - address % 4096 + b < endData then ByteOf(image[b / 4], b % 4) else 0
  {
    TrimmedBytes(image, KeptBytes(address, endData), b);
  }

  /** do_no_page runs out of memory. */
  predicate NoPageFails(k: State, exe: seq<nat>, cur: nat, address: nat, endData: nat, count: nat) {
    var x := TaskPlace(cur, address);
    if SharedFor(k, exe, cur, address, endData, count) != 0 then !HasRoom(k, x) else FreeCount(k) < PagesFor(k, x)
  }

  /** do_no_page */
  function Faulted(k: State, exe: seq<nat>, cur: nat, address: nat, endData: nat, count: nat, image: seq<Word>): State {
    var x, p := TaskPlace(cur, address), SharedFor(k, exe, cur, address, endData, count);
    if p != 0 then SharedIn(k, x, TaskPlace(p, address)) else NewPage(k, x, FreshPage(exe, cur, address, endData, image))
  }

  /** do_no_page, if no other task has the page. */
  lemma FaultedNew(k: State, exe: seq<nat>, cur: nat, address: nat, endData: nat, count: nat, image: seq<Word>, words: seq<Word>)
    requires SharedFor(k, exe, cur, address, endData, count) == 0 && words == FreshPage(exe, cur, address, endData, image)
    ensures Faulted(k, exe, cur, address, endData, count, image) == NewPage(k, TaskPlace(cur, address), words)
    ensures NoPageFails(k, exe, cur, address, endData, count) <==> FreeCount(k) < PagesFor(k, TaskPlace(cur, address))
  {
  }

  /** free_page_tables for both limits. */
  function SpaceGone(k: State, t: nat, codeLimit: nat, dataLimit: nat): State {
    TablesGone(TablesGone(k, t, DirCount(codeLimit)), t, DirCount(dataLimit))
  }

  // ----- kernel stores -----

  /** y is a place at which some task sees frame f. */
  predicate Sees(k: State, y: Loc, f: nat) {
    PageAt(k, y).Own? && EntryAt(k, y).page == f
  }

  /** An unchecked store is seen at every place that shows the frame, and nowhere else. */
  lemma RawStoredKeeps(k: State, x: Loc, j: nat, v: Word)
    requires Inv(k) && ValidLoc(x) && x.t != 0 && EntryAt(k, x).present && LOW <= EntryAt(k, x).page && j < WORDS
    ensures Inv(RawStored(k, x, j, v)) && InRam(k, EntryAt(k, x).page)
    ensures var f := EntryAt(k, x).page;
      forall y: Loc | ValidLoc(y) :: PageAt(RawStored(k, x, j, v), y) == if Sees(k, y, f) then Own(k.mem[f][j := v]) else PageAt(k, y)
    ensures var f, t := EntryAt(k, x).page, Dir(k, DirIndex(x)).page;
      && t < |k.mem| && f < |k.mem| && t != f && RawStored(k, x, j, v).cnt == k.cnt && RawStored(k, x, j, v).task == k.task
      && RawStored(k, x, j, v).mem == k.mem[t := k.mem[t][x.i := k.mem[t][x.i].(dirty := true)]][f := k.mem[f][j := v]]
  {
    var w := EntryAt(k, x).(dirty := true);
    var f := w.page;
    assert EntryOk(k, DirIndex(x), x.i) && DirOk(k, DirIndex(x));
    var k1 := WithEntry(k, DirIndex(x), x.i, w);
    SetFlag(k, k1, x, w);
    ReplacedEntries(k, k1, x, w, f);
    assert FrameOk(k1, f);
    var k2 := WithFrame(k1, f, k1.mem[f][j := v]);
    UserFrame(k1, k2, f);
    KernelKept(k1, k2);
    forall y: Loc | ValidLoc(y)
      ensures PageAt(k2, y) == if Sees(k, y, f) then Own(k.mem[f][j := v]) else PageAt(k, y)
    {
      assert PageAt(k1, y) == PageAt(k, y);
      if y.t != 0 {
        assert EntryAt(k2, y) == EntryAt(k1, y);
        assert EntryOk(k1, DirIndex(y), y.i);
      }
    }
  }

  /** Through a writable entry nobody else sees it. */
  lemma StoredIs(k: State, x: Loc, j: nat, v: Word)
    requires Inv(k) && ValidLoc(x) && x.t != 0 && EntryAt(k, x).present && EntryAt(k, x).rw && j < WORDS
    ensures LOW <= EntryAt(k, x).page < |k.mem| && ViewSet(k, RawStored(k, x, j, v), x, Own(Content(k, x)[j := v]))
  {
    assert EntryOk(k, DirIndex(x), x.i);
    RawStoredKeeps(k, x, j, v);
    var f := EntryAt(k, x).page;
    forall y: Loc | ValidLoc(y) && y != x
      ensures !Sees(k, y, f)
    {
      if Sees(k, y, f) {
        SeenOnce(k, x, y);
      }
    }
  }

  lemma SeenOnce(k: State, x: Loc, y: Loc)
    requires Inv(k) && ValidLoc(x) && x.t != 0 && EntryAt(k, x).present && EntryAt(k, x).rw
    requires ValidLoc(y) && Sees(k, y, EntryAt(k, x).page)
    ensures x == y
  {
    assert EntryOk(k, DirIndex(x), x.i);
    if y.t != 0 && x != y {
      SharedIsReadOnly(k, x, y);
    }
  }

  /** The kernel's store runs out of memory. */
  predicate StoreFails(k: State, exe: seq<nat>, cur: nat, address: nat, endData: nat, count: nat) {
    !EntryAt(k, TaskPlace(cur, address)).present && NoPageFails(k, exe, cur, address, endData, count)
  }

  /** The place that shows, before the kernel's store, the page to which it goes: its own, or that of the
      task from which the page is faulted in. */
  function TargetPlace(k: State, exe: seq<nat>, cur: nat, address: nat, endData: nat, count: nat): Loc {
    var p := SharedFor(k, exe, cur, address, endData, count);
    if EntryAt(k, TaskPlace(cur, address)).present || p == 0 then TaskPlace(cur, address) else TaskPlace(p, address)
  }

  /** Others have the page to which the kernel's store goes: more than one entry names it already, or it is
      absent and another task will give it. */
  predicate Exposed(k: State, exe: seq<nat>, cur: nat, address: nat, endData: nat, count: nat) {
    if EntryAt(k, TaskPlace(cur, address)).present then CountOf(k, EntryAt(k, TaskPlace(cur, address)).page) > 1
    else SharedFor(k, exe, cur, address, endData, count) != 0
  }

  /** The words of the page to which the kernel's store goes, before it. */
  function TargetPage(k: State, exe: seq<nat>, cur: nat, address: nat, endData: nat, count: nat, image: seq<Word>): seq<Word> {
    var y := TargetPlace(k, exe, cur, address, endData, count);
    if EntryAt(k, y).present then Content(k, y) else FreshPage(exe, cur, address, endData, image)
  }

  /** The places at which the store is seen: its own, and all that show the frame. */
  predicate Touched(k: State, exe: seq<nat>, cur: nat, address: nat, endData: nat, count: nat, y: Loc) {
    var z := TargetPlace(k, exe, cur, address, endData, count);
    y == TaskPlace(cur, address) || (EntryAt(k, z).present && Sees(k, y, EntryAt(k, z).page))
  }

  ghost predicate StoreDone(k: State, k': State, exe: seq<nat>, cur: nat, address: nat, j: nat, v: Word, endData: nat, count: nat,
                            image: seq<Word>) {
    var words := TargetPage(k, exe, cur, address, endData, count, image);
    && j < |words|
    && forall y: Loc {:trigger PageAt(k', y)} | ValidLoc(y) ::
         PageAt(k', y) == if Touched(k, exe, cur, address, endData, count, y) then Own(words[j := v]) else PageAt(k, y)
  }

  /** put_fs_byte */
  function KernelStored(k: State, exe: seq<nat>, cur: nat, address: nat, j: nat, v: Word, endData: nat, count: nat,
                        image: seq<Word>): State {
    var x := TaskPlace(cur, address);
    if EntryAt(k, x).present then RawStored(k, x, j, v)
    else if NoPageFails(k, exe, cur, address, endData, count) then Faulted(k, exe, cur, address, endData, count, image)
    else RawStored(Faulted(k, exe, cur, address, endData, count, image), x, j, v)
  }

  /** What has to be known before the unchecked store at the end. */
  ghost predicate ReadyToStore(k: State, k1: State, exe: seq<nat>, cur: nat, address: nat, j: nat, v: Word, endData: nat, count: nat,
                               image: seq<Word>) {
    var x := TaskPlace(cur, address);
    && EntryAt(k1, x).present && LOW <= EntryAt(k1, x).page
    && StoreDone(k, RawStored(k1, x, j, v), exe, cur, address, j, v, endData, count, image)
  }

  lemma StoreInPlace(k: State, exe: seq<nat>, cur: nat, address: nat, j: nat, v: Word, endData: nat, count: nat, image: seq<Word>)
    requires Inv(k) && 1 <= cur < NR_TASKS && address < TASK_SIZE && j < WORDS
    requires EntryAt(k, TaskPlace(cur, address)).present && !PageAt(k, TaskPlace(cur, address)).Kernel?
    ensures ReadyToStore(k, k, exe, cur, address, j, v, endData, count, image)
  {
    var x := TaskPlace(cur, address);
    assert EntryOk(k, DirIndex(x), x.i);
    RawStoredKeeps(k, x, j, v);
  }

  lemma StoreAfterFault(k: State, k1: State, exe: seq<nat>, cur: nat, address: nat, j: nat, v: Word, endData: nat, count: nat,
                        image: seq<Word>)
    requires Inv(k) && Inv(k1) && 1 <= cur < NR_TASKS && address < TASK_SIZE && j < WORDS && |image| == WORDS
    requires !EntryAt(k, TaskPlace(cur, address)).present
    requires var p, x := SharedFor(k, exe, cur, address, endData, count), TaskPlace(cur, address);
      if p != 0 then SharedPage(k, k1, x, TaskPlace(p, address)) else Loaded(k, k1, x, FreshPage(exe, cur, address, endData, image))
    ensures ReadyToStore(k, k1, exe, cur, address, j, v, endData, count, image)
  {
    var x, p := TaskPlace(cur, address), SharedFor(k, exe, cur, address, endData, count);
    assert EntryOk(k1, DirIndex(x), x.i);
    if p == 0 {
      assert PageAt(k1, x).Own?;
      StoredIs(k1, x, j, v);
    } else {
      var y := TaskPlace(p, address);
      RawStoredKeeps(k1, x, j, v);
      assert PageAt(k, y) == Own(Content(k, y)) && PageAt(k1, x) == PageAt(k, y);
    }
  }

  /** Whoever sees the page of a task sees it at the same place, and is counted. */
  lemma SeenAtPlace(k: State, x: Loc, y: Loc)
    requires Inv(k) && ValidLoc(x) && x.t != 0 && EntryAt(k, x).present && LOW <= EntryAt(k, x).page
    requires ValidLoc(y) && Sees(k, y, EntryAt(k, x).page)
    ensures y.t in Sharers(k, x.a, x.i, EntryAt(k, x).page)
  {
    assert y.t != 0;
    assert EntryOk(k, DirIndex(x), x.i) && EntryOk(k, DirIndex(y), y.i);
  }

  lemma SharerSees(k: State, x: Loc, t: nat)
    requires Inv(k) && ValidLoc(x) && x.t != 0 && EntryAt(k, x).present && LOW <= EntryAt(k, x).page
    requires t in Sharers(k, x.a, x.i, EntryAt(k, x).page)
    ensures ValidLoc(Loc(t, x.a, x.i)) && Sees(k, Loc(t, x.a, x.i), EntryAt(k, x).page)
  {
    assert EntryOk(k, DirIndex(x), x.i);
  }

  lemma CountedSharers(k: State, x: Loc)
    requires Inv(k) && ValidLoc(x) && x.t != 0 && EntryAt(k, x).present && LOW <= EntryAt(k, x).page
    ensures var s := Sharers(k, x.a, x.i, EntryAt(k, x).page); CountOf(k, EntryAt(k, x).page) == |s| && x.t in s
  {
    assert EntryOk(k, DirIndex(x), x.i) && FrameOk(k, EntryAt(k, x).page);
  }

  lemma OneOfMany(s: set<nat>, t: nat)
    requires t in s
    ensures |s| > 1 <==> exists u :: u in s && u != t
  {
    assert s == s - {t} + {t};
    if |s| > 1 {
      var u :| u in s - {t};
    }
  }

  /** The counter of a page that a task sees tells whether another one sees it. */
  lemma OthersSee(k: State, x: Loc)
    requires Inv(k) && ValidLoc(x) && x.t != 0 && EntryAt(k, x).present && LOW <= EntryAt(k, x).page
    ensures CountOf(k, EntryAt(k, x).page) > 1 <==> exists y: Loc :: ValidLoc(y) && y.t != x.t && Sees(k, y, EntryAt(k, x).page)
  {
    var f := EntryAt(k, x).page;
    var s := Sharers(k, x.a, x.i, f);
    CountedSharers(k, x);
    OneOfMany(s, x.t);
    if u: nat :| u in s && u != x.t {
      SharerSees(k, x, u);
    }
    if y: Loc :| ValidLoc(y) && y.t != x.t && Sees(k, y, f) {
      SeenAtPlace(k, x, y);
    }
  }

  /** Exactly when a kernel store is seen by nobody but its own task: if no other has the page, or the word
      is there already. */
  lemma KernelStoreConfined(k: State, k': State, exe: seq<nat>, cur: nat, address: nat, j: nat, v: Word, endData: nat, count: nat,
                            image: seq<Word>)
    requires Inv(k) && 1 <= cur < NR_TASKS && address < TASK_SIZE && |exe| == NR_TASKS
    requires !PageAt(k, TaskPlace(cur, address)).Kernel?
    requires StoreDone(k, k', exe, cur, address, j, v, endData, count, image)
    ensures (forall y: Loc | ValidLoc(y) && y.t != cur :: PageAt(k', y) == PageAt(k, y)) <==>
      !Exposed(k, exe, cur, address, endData, count) || TargetPage(k, exe, cur, address, endData, count, image)[j] == v
  {
    var words, x := TargetPage(k, exe, cur, address, endData, count, image), TaskPlace(cur, address);
    var z := TargetPlace(k, exe, cur, address, endData, count);
    if EntryAt(k, x).present {
      OthersSee(k, x);
    } else if z != x {
      assert ValidLoc(z) && Sees(k, z, EntryAt(k, z).page);
    }
    assert words[j := v] == words <==> words[j] == v;
    if Exposed(k, exe, cur, address, endData, count) && words[j] != v {
      var y: Loc :| ValidLoc(y) && y.t != cur && Sees(k, y, EntryAt(k, z).page);
      assert Sees(k, y, EntryAt(k, z).page);
      assert EntryAt(k, y).page == EntryAt(k, z).page;
      assert PageAt(k, y) == Own(words) && PageAt(k', y) == Own(words[j := v]);
    }
  }

  /** Directly after write_verify a page is exposed exactly if it is not there yet and part of an executable
      that another task runs, which has it clean in memory. */
  lemma ExposedAfterVerify(k: State, k1: State, exe: seq<nat>, cur: nat, address: nat, endData: nat, count: nat)
    requires Inv(k) && Inv(k1) && 1 <= cur < NR_TASKS && address < TASK_SIZE && |exe| == NR_TASKS
    requires Verified(k, k1, TaskPlace(cur, address)) && (EntryAt(k, TaskPlace(cur, address)).present || k1 == k)
    ensures !PageAt(k1, TaskPlace(cur, address)).Kernel?
    ensures Exposed(k1, exe, cur, address, endData, count) <==>
      && !EntryAt(k, TaskPlace(cur, address)).present
      && exe[cur] != 0 && address - address % 4096 < endData && count >= 2
      && exists p :: Sharer(k, exe, p, cur, TaskPlace(cur, address).a, TaskPlace(cur, address).i)
  {
    var x := TaskPlace(cur, address);
    assert EntryOk(k, DirIndex(x), x.i) && EntryOk(k1, DirIndex(x), x.i);
    assert PageAt(k1, x) == Materialized(k, x);
    if exists p :: Sharer(k, exe, p, cur, x.a, x.i) {
      var p: nat :| Sharer(k, exe, p, cur, x.a, x.i);
      assert p < NR_TASKS;
    }
  }

  /** Verified or not, a page is exposed once another task took it: its entry is read-only then, which the
      kernel's store does not notice. */
  lemma SharedThenExposed(k: State, k': State, exe: seq<nat>, p: nat, cur: nat, address: nat, endData: nat, count: nat)
    requires Inv(k') && 1 <= p < NR_TASKS && 1 <= cur < NR_TASKS && p != cur && address < TASK_SIZE
    requires EntryAt(k, TaskPlace(p, address)).present && SharedPage(k, k', TaskPlace(cur, address), TaskPlace(p, address))
    ensures Exposed(k', exe, p, address, endData, count)
  {
    var x, y := TaskPlace(cur, address), TaskPlace(p, address);
    assert EntryAt(k', y).present && EntryAt(k', y).page == EntryAt(k, y).page;
    assert EntryOk(k', DirIndex(x), x.i) && Sees(k', x, EntryAt(k', y).page);
    OthersSee(k', y);
  }

  /** No store through entry x can fault on the write flag; at most x changed, and only by
      becoming a private copy of the kernel frame it showed. */
  ghost predicate Verified(k: State, k': State, x: Loc) {
    && LowKept(k, k')
    && (EntryAt(k', x).present ==> EntryAt(k', x).rw)
    && ViewSet(k, k', x, Materialized(k, x))
    && (forall e, j | DIRS <= e < WORDS && 0 <= j < WORDS && (e != DirIndex(x) || j != x.i) ::
          Entry(k', e, j) == Entry(k, e, j))
  }

  lemma LowContent(k: State, k': State, x: Loc)
    requires Inv(k) && LowKept(k, k') && ValidLoc(x) && x.t != 0
    requires EntryAt(k', x) == EntryAt(k, x) && EntryAt(k, x).present && EntryAt(k, x).page < LOW
    ensures Content(k', x) == Content(k, x)
  {
    var f := EntryAt(k, x).page;
    assert k'.mem[..LOW][f] == k.mem[..LOW][f];
  }

  /** A linear page of a task other than task 0. */
  predicate OfSomeTask(n: nat) {
    WORDS * DIRS <= n < WORDS * WORDS
  }

  lemma PageStart(n: nat)
    requires OfSomeTask(n)
    ensures PlaceOf(4096 * n) == PlaceOfPage(n) && PageNo(PlaceOfPage(n)) == n
    ensures ValidLoc(PlaceOfPage(n)) && PlaceOfPage(n).t != 0
  {
    assert 4096 * n == DIR_SIZE * (n / WORDS) + 4096 * (n % WORDS);
  }

  /** The pages of an area that ends in the linear address space. */
  lemma AreaInSpace(t: nat, addr: nat, size: int)
    requires 1 <= t && TASK_SIZE * t + addr < TASK_SIZE * NR_TASKS && TASK_SIZE * t + addr + size <= TASK_SIZE * NR_TASKS
    ensures var lo := (TASK_SIZE * t + addr) / 4096;
      addr - addr % 4096 + TASK_SIZE * t == 4096 * lo && OfSomeTask(lo) && lo + Pages(size + addr % 4096) <= WORDS * WORDS
  {
    var lo := WORDS * DIRS * t + addr / 4096;
    assert TASK_SIZE * t + addr == 4096 * lo + addr % 4096;
  }

  lemma PagesLeft(total: int, c: nat, left: int)
    requires left == total - 4096 * c && (left > -4096 || c == 0)
    ensures if left > 0 then c < Pages(total) else c == Pages(total)
  {
  }

  lemma OtherPage(y: Loc, n: nat)
    requires ValidLoc(y) && y != PlaceOfPage(n) && OfSomeTask(n)
    ensures PageNo(y) != n
    ensures DirIndex(y) != DirIndex(PlaceOfPage(n)) || y.i != n % WORDS
  {
  }

  lemma AreaStep(k0: State, k: State, k': State, lo: nat, n: nat)
    requires Inv(k0) && Inv(k) && Inv(k') && lo <= n && OfSomeTask(n)
    requires AreaVerified(k0, k, lo, n) && Verified(k, k', PlaceOfPage(n))
    ensures AreaVerified(k0, k', lo, n + 1)
  {
    var x := PlaceOfPage(n);
    PageStart(n);
    forall y: Loc | ValidLoc(y) && y.t != 0
      ensures if lo <= PageNo(y) < n + 1 then
                (EntryAt(k', y).present ==> EntryAt(k', y).rw) && PageAt(k', y) == Materialized(k0, y)
              else
                EntryAt(k', y) == EntryAt(k0, y) && PageAt(k', y) == PageAt(k0, y)
    {
      if y == x {
        assert EntryAt(k, x) == EntryAt(k0, x) && PageAt(k, x) == PageAt(k0, x);
        if PageAt(k', x) != PageAt(k, x) {
          LowContent(k0, k, x);
        }
      } else {
        OtherPage(y, n);
        assert EntryAt(k', y) == EntryAt(k, y) && PageAt(k', y) == PageAt(k, y);
      }
    }
  }

  /** The stores at the end of un_wp_page, in terms of the arrays. */
  lemma SplitStores(k: State, k1: State, x: Loc, f: nat)
    requires Inv(k) && Inv(k1) && InRam(k, f) && UseOf(k, f).Free?
    requires k1 == WithUse(WithFrame(k, f, ZeroPage()), f, 1, Held)
    requires ValidLoc(x) && x.t != 0 && EntryAt(k, x).present
    ensures var t, g := Dir(k, DirIndex(x)).page, EntryAt(k, x).page;
      var k' := CopyOnWrite(k1, x, f);
      && t < |k1.mem| && g < |k1.mem| && f < |k1.mem| && t != f && g != f && t != g
      && k'.task == k1.task
      && k'.mem == k1.mem[t := k1.mem[t][x.i := Entry7(f)]][f := k1.mem[g]]
  {
    assert DirOk(k, DirIndex(x)) && EntryOk(k, DirIndex(x), x.i);
    Alloc(k, f, ZeroPage());
    var t, g := Dir(k, DirIndex(x)).page, EntryAt(k, x).page;
    var k2 := Unmapped(WithFrame(k1, f, Content(k1, x)), x);
    assert k2.mem == k1.mem[f := k1.mem[g]][t := k1.mem[t][x.i := ZERO]];
    assert k2.mem[0] == k1.mem[0] == k.mem[0];
    assert k1.mem[t][x.i := ZERO][x.i := Entry7(f)] == k1.mem[t][x.i := Entry7(f)];
  }

  lemma SplitCounts(k: State, k1: State, k': State, x: Loc, f: nat, g: nat)
    requires Inv(k) && Inv(k1) && InRam(k, f) && UseOf(k, f).Free?
    requires k1 == WithUse(WithFrame(k, f, ZeroPage()), f, 1, Held)
    requires ValidLoc(x) && x.t != 0 && EntryAt(k, x).present
    requires k' == CopyOnWrite(k1, x, f) && g == EntryAt(k, x).page
    ensures g >= LOW ==> InRam(k1, g) && k1.cnt[g - LOW] > 0
    ensures k'.cnt == if g >= LOW then k1.cnt[g - LOW := k1.cnt[g - LOW] - 1] else k1.cnt
  {
    assert DirOk(k, DirIndex(x)) && EntryOk(k, DirIndex(x), x.i) && FrameOk(k1, f);
    Alloc(k, f, ZeroPage());
    if g >= LOW {
      assert FrameOk(k, g) && FrameOk(k1, g);
    }
    RemapCounts(k1, WithFrame(k1, f, Content(k1, x)), x, f);
  }

  /** The counters after entry x, which shows frame g, comes to show f. */
  lemma RemapCounts(k1: State, w: State, x: Loc, f: nat)
    requires w.cnt == k1.cnt && w.use == k1.use && |w.use| == |w.cnt| && EntryAt(w, x) == EntryAt(k1, x)
    requires var g := EntryAt(k1, x).page; g != f && (g >= LOW ==> g - LOW < |k1.cnt| && k1.cnt[g - LOW] > 0)
    requires LOW <= f < LOW + |k1.cnt| && k1.cnt[f - LOW] == 1
    ensures var g := EntryAt(k1, x).page;
      Mapped(Unmapped(w, x), x, f).cnt == if g >= LOW then k1.cnt[g - LOW := k1.cnt[g - LOW] - 1] else k1.cnt
  {
  }

  lemma DirOf(t: nat, a: nat)
    requires a < DIRS
    ensures (DIRS * t + a) / DIRS == t && (DIRS * t + a) % DIRS == a
  {
  }

  lemma SetAfterSame(k: State, k1: State, k2: State, x: Loc, p: Page)
    requires SameView(k, k1) && ViewSet(k1, k2, x, p)
    ensures ViewSet(k, k2, x, p)
  {
  }

  /** copy_page_tables stops at the n-th table, for want of a frame. */
  lemma CopyStopped(k: State, p: nat, c: nat, n: nat, total: nat)
    requires FreeCount(TablesTried(k, p, c, n)) == 0 && n < total && HasTable(k, p, n)
    requires FreeCount(TablesTried(k, p, c, n)) == FreeCount(k) - TablesIn(k, p, n)
    ensures TablesTried(k, p, c, total) == TablesTried(k, p, c, n) && FreeCount(k) < TablesIn(k, p, total)
  {
    MoreTables(k, p, n + 1, total);
    LastZeroNone(TablesTried(k, p, c, n).cnt);
    TriedNoMore(k, p, c, n, total);
  }

  /** The stores that make up one turn, in terms of the arrays. */
  lemma CopiedStores(k: State, pd: nat, d: nat, i: nat)
    requires Inv(k) && Copyable(k, pd, d, i + 1) && !Entry(k, d, i).present
    ensures var f, t := Dir(k, pd).page, Dir(k, d).page;
      && f < |k.mem| && t < |k.mem| && f != t
      && var w := k.mem[f][i].(rw := false); var k' := CopiedEntry(k, pd, d, i);
      && k'.task == k.task
      && (!w.present ==> k' == k)
      && (w.present && w.page < LOW ==> k'.mem == k.mem[t := k.mem[t][i := w]] && k'.cnt == k.cnt)
      && (w.present && w.page >= LOW ==>
            && InRam(k, w.page)
            && k'.mem == k.mem[t := k.mem[t][i := w]][f := k.mem[f][i := w]]
            && k'.cnt == k.cnt[w.page - LOW := k.cnt[w.page - LOW] + 1])
  {
    assert DirOk(k, d);
    if pd != 0 {
      assert DirOk(k, pd) && EntryOk(k, pd, i);
      EntryAfter(k, pd, i, Entry(k, pd, i).(rw := false));
    }
  }

  /** In terms of tasks: task c shows below its n-th table what task p shows below its own. */
  lemma MirrorIsCopy(k: State, k': State, p: nat, c: nat, n: nat, count: nat)
    requires p < NR_TASKS && 1 <= c < NR_TASKS && n < DIRS && Mirrored(k, k', DIRS * p + n, DIRS * c + n, count)
    requires if p == 0 then n == 0 && count == KERNEL_PAGES && !Dir(k, DIRS * c).present else count == WORDS
    ensures forall x: Loc | ValidLoc(x) ::
              PageAt(k', x) == if x.t == c && x.a == n then PageAt(k, Loc(p, n, x.i)) else PageAt(k, x)
  {
    forall x: Loc | ValidLoc(x)
      ensures PageAt(k', x) == if x.t == c && x.a == n then PageAt(k, Loc(p, n, x.i)) else PageAt(k, x)
    {
      assert DirIndex(x) == DIRS * c + n <==> x.t == c && x.a == n;
      assert Place(DIRS * p + n, x.i) == Loc(p, n, x.i);
    }
  }

  /** While c gets its tables, those of p stay. */
  lemma TableToCopy(k: State, k1: State, p: nat, c: nat, n: nat)
    requires Inv(k) && Inv(k1) && TablesCopied(k, k1, p, c, n)
    requires p < NR_TASKS && p != c && n < DIRS && (p == 0 ==> n == 0)
    ensures HasTable(k1, p, n) == HasTable(k, p, n)
  {
    assert (DIRS * p + n) / DIRS == p;
  }

  lemma NothingToCopy(k: State, p: nat, c: nat, n: nat)
    requires p < NR_TASKS && c < NR_TASKS && n < DIRS && !Dir(k, DIRS * p + n).present && !Dir(k, DIRS * c + n).present
    ensures forall x: Loc | ValidLoc(x) ::
              PageAt(k, x) == if x.t == c && x.a == n then PageAt(k, Loc(p, n, x.i)) else PageAt(k, x)
  {
  }

  class Memory {
    const mem: array<seq<Word>>
    const mem_map: array<nat>
    const task: array<nat>
    /** The inode each task executes, 0 for none. */
    const executable: array<nat>
    /** The snapshot of the arrays, with the use of every frame beside it. */
    ghost var st: GoodState

    ghost predicate Valid()
      reads this, mem, mem_map, task
    {
      && mem_map != task && mem as object != mem_map && mem as object != task
      && executable != task && executable != mem_map && mem as object != executable && executable.Length == NR_TASKS
      && st.mem == mem[..] && st.cnt == mem_map[..] && st.task == task[..]
    }

    /** head.s and mem_init: the kernel maps low memory, frames from `start` to `high` are free. */
    constructor (high: nat, start: nat)
      requires LOW < high <= LOW + PAGING_PAGES && LOW <= start <= high
      ensures Valid() && st == Boot(high, start) && fresh(mem) && fresh(mem_map) && fresh(task) && fresh(executable)
      ensures forall t | 0 <= t < NR_TASKS :: executable[t] == 0
    {
      mem := new seq<Word>[high](f => if 0 <= f then BootFrame(f) else []);
      mem_map := new nat[PAGING_PAGES](_ => USED);
      task := new nat[NR_TASKS](_ => 0);
      executable := new nat[NR_TASKS](_ => 0);
      new;
      var i, left := start - LOW, high - start;
      while left > 0
        modifies mem_map
        invariant 0 <= left && i + left == high - LOW
        invariant forall j | 0 <= j < PAGING_PAGES :: mem_map[j] == if start - LOW <= j < i then 0 else USED
        invariant forall f | 0 <= f < mem.Length :: mem[f] == BootFrame(f)
        invariant forall t | 0 <= t < NR_TASKS :: task[t] == 0 && executable[t] == 0
      {
        mem_map[i] := 0;
        i, left := i + 1, left - 1;
      }
      st := Boot(high, start);
      assert st.mem == mem[..] && st.cnt == mem_map[..] && st.task == task[..];
    }

    /** The last free page, zeroed and marked used; 0 when there is none. */
    method GetFreePage() returns (f: nat)
      requires Valid()
      modifies mem, mem_map, `st
      ensures Valid() && SameView(old(st), st)
      ensures f == 0 <==> FreeCount(old(st)) == 0
      ensures f == LastFree(old(st)) && st == GotPage(old(st))
      ensures f == 0 ==> st == old(st)
      ensures f != 0 ==> old(InRam(st, f) && UseOf(st, f).Free? && mem_map[f - LOW] == 0)
      ensures f != 0 ==> st == WithUse(WithFrame(old(st), f, ZeroPage()), f, 1, Held)
      ensures f != 0 ==> FreeCount(st) == FreeCount(old(st)) - 1
      ensures f != 0 ==> forall g | f - LOW < g < mem_map.Length :: mem_map[g] != 0
    {
      NoZeros(st.cnt);
      LastZeroNone(st.cnt);
      var i := PAGING_PAGES;
      while i > 0 && mem_map[i - 1] != 0
        invariant 0 <= i <= PAGING_PAGES
        invariant forall g | i <= g < PAGING_PAGES :: mem_map[g] != 0
      {
        i := i - 1;
      }
      if i == 0 {
        return 0;
      }
      f := LOW + i - 1;
      ghost var k := st;
      assert FrameOk(k, f);
      LastZeroIs(k.cnt, i - 1);
      mem_map[f - LOW] := 1;
      var j := WORDS;
      while j > 0
        modifies mem
        invariant 0 <= j <= WORDS
        invariant |mem[f]| == WORDS && forall n | j <= n < WORDS :: mem[f][n] == ZERO
        invariant forall g | 0 <= g < mem.Length && g != f :: mem[g] == k.mem[g]
      {
        j := j - 1;
        mem[f] := mem[f][j := ZERO];
      }
      assert mem[f] == ZeroPage();
      Alloc(k, f, ZeroPage());
      TakenFree(k, f);
      st := WithUse(WithFrame(k, f, ZeroPage()), f, 1, Held);
      assert st.mem == mem[..] && st.cnt == mem_map[..];
    }

    /** One reference less. The two panics of the source are excluded by the precondition. */
    method FreePage(f: nat)
      requires LOW <= f ==> f < mem.Length && f < LOW + mem_map.Length && mem_map[f - LOW] > 0
      modifies mem_map
      ensures mem_map[..] == Dropped(old(mem_map[..]), f)
    {
      if f < LOW {
        return;
      }
      mem_map[f - LOW] := mem_map[f - LOW] - 1;
    }
  
    /** One turn of free_page_tables' inner loop: the page, if any, is let go, the entry zeroed. */
    method ReleaseEntry(table: nat, d: nat, nr: nat)
      requires Valid() && DIRS <= d < WORDS && nr < WORDS && Dir(st, d).present && Dir(st, d).page == table
      modifies mem, mem_map, `st
      ensures Valid() && st == Released(old(st), d, nr)
    {
      ghost var k := st;
      ReleasedEntry(k, d, nr);
      var entry := mem[table][nr];
      if entry.present {
        FreePage(entry.page);
      }
      mem[table] := mem[table][nr := ZERO];
      ReleasedInv(k, d, nr);
      st := Released(k, d, nr);
    }

    /** free_page_tables' inner loop: release every page below directory entry d. */
    method FreeEntries(table: nat, d: nat)
      requires Valid() && DIRS <= d < WORDS && Dir(st, d).present && Dir(st, d).page == table
      modifies mem, mem_map, `st
      ensures Valid() && st == ReleasedN(old(st), d, WORDS)
    {
      ghost var k := st;
      var nr := 0;
      while nr < WORDS
        invariant 0 <= nr <= WORDS && Valid()
        invariant st == ReleasedN(k, d, nr) && Dir(st, d) == Dir(k, d)
      {
        ReleaseNext(k, table, d, nr);
        nr := nr + 1;
      }
    }

    method ReleaseNext(ghost k: State, table: nat, d: nat, nr: nat)
      requires Valid() && Inv(k) && DIRS <= d < WORDS && Dir(k, d).present && Dir(k, d).page == table && nr < WORDS
      requires st == ReleasedN(k, d, nr) && Dir(st, d) == Dir(k, d)
      modifies mem, mem_map, `st
      ensures Valid() && st == ReleasedN(k, d, nr + 1) && Dir(st, d) == Dir(k, d)
    {
      ReleasedKeeps(k, d, nr + 1);
      ReleaseEntry(table, d, nr);
    }

    /** One step of free_page_tables' outer loop, at a directory entry that is present. */
    method FreeTable(d: nat)
      requires Valid() && DIRS <= d < WORDS && Dir(st, d).present
      modifies mem, mem_map, `st
      ensures Valid() && Cleared(old(st), st, d, WORDS)
      ensures !Dir(st, d).present && MapsKept(old(st), st, d / DIRS)
      ensures forall e | DIRS <= e < WORDS && e != d :: Dir(st, e) == old(Dir(st, e))
      ensures FreeCount(st) > FreeCount(old(st)) && st == TableGone(old(st), d)
    {
      ghost var k := st;
      var table := mem[0][d].page;
      FreeEntries(table, d);
      ReleasedAll(k, d, WORDS);
      ReleasedFree(k, d, WORDS);
      DropTable(table, d);
    }

    /** The end of free_page_tables' outer loop: the emptied table is freed and unlinked. */
    method DropTable(table: nat, d: nat)
      requires Valid() && DIRS <= d < WORDS && Dir(st, d).present && Dir(st, d).page == table
      requires forall j | 0 <= j < WORDS :: !Entry(st, d, j).present
      modifies mem, mem_map, `st
      ensures Valid() && SameView(old(st), st)
      ensures !Dir(st, d).present && MapsKept(old(st), st, d / DIRS)
      ensures forall e | DIRS <= e < WORDS && e != d :: Dir(st, e) == old(Dir(st, e))
      ensures FreeCount(st) == FreeCount(old(st)) + 1 && st == WithUse(WithDir(old(st), d, ZERO), table, 0, Free)
    {
      ghost var k := st;
      UnlinkTable(k, d);
      ZerosUpdate(k.cnt, table - LOW, 0);
      FreePage(table);
      mem[0] := mem[0][d := ZERO];
      st := WithUse(WithDir(k, d, ZERO), table, 0, Free);
      assert st.mem == mem[..] && st.cnt == mem_map[..];
      assert DirOk(k, d) && FrameOk(k, table);
    }
  
    /** A turn of free_page_tables' outer loop. */
    method FreeTurn(dir: nat, ghost k: GoodState, ghost t: nat, ghost n: nat)
      requires Valid() && 1 <= t < NR_TASKS && n < DIRS && dir == DIRS * t + n
      requires TablesFreed(k, st, t, n) && st == TablesGone(k, t, n)
      modifies mem, mem_map, `st
      ensures Valid() && TablesFreed(k, st, t, n + 1) && FreeCount(st) >= FreeCount(old(st))
      ensures st == TablesGone(k, t, n + 1)
    {
      ghost var k1 := st;
      if mem[0][dir].present {
        FreeTable(dir);
      } else {
        NoTableToFree(k1, dir);
      }
      TableFreed(k, k1, st, t, n);
      GoneMore(k, t, n);
    }

    /** Frees the tables of `size` bytes of task address space at `from`, and the pages below them. */
    method FreePageTables(from: nat, size: nat, ghost t: nat)
      requires Valid() && 1 <= t < NR_TASKS && from == TASK_SIZE * t && DirCount(size) <= DIRS
      modifies mem, mem_map, `st
      ensures Valid() && TablesFreed(old(st), st, t, DirCount(size)) && FreeCount(st) >= FreeCount(old(st))
      ensures st == TablesGone(old(st), t, DirCount(size))
      ensures EmptyBelow(st, t, size) && KeptBeyond(old(st), st, t, size)
    {
      ghost var k := st;
      var dir, left := from / DIR_SIZE, DirCount(size);
      ghost var n := 0;
      while left > 0
        invariant left + n == DirCount(size) && dir == DIRS * t + n && Valid()
        invariant TablesFreed(k, st, t, n) && FreeCount(st) >= FreeCount(k)
        invariant st == TablesGone(k, t, n)
      {
        FreeTurn(dir, k, t, n);
        dir, left, n := dir + 1, left - 1, n + 1;
      }
      RemovedBelow(k, st, t, size);
    }

    /** The inner loop of copy_page_tables: share every present page read-only. */
    method CopyEntries(fromTable: nat, toTable: nat, pd: nat, d: nat, count: nat)
      requires Valid() && Copyable(st, pd, d, count) && Dir(st, pd).page == fromTable && Dir(st, d).page == toTable
      requires forall j | 0 <= j < WORDS :: !Entry(st, d, j).present
      modifies mem, mem_map, `st
      ensures Valid() && st == CopiedN(old(st), pd, d, count)
    {
      ghost var k: GoodState := st;
      for i := 0 to count
        invariant Valid() && st == CopiedN(k, pd, d, i)
        invariant Dir(st, pd) == Dir(k, pd) && Dir(st, d) == Dir(k, d)
      {
        CopyNext(fromTable, toTable, pd, d, i, k);
      }
    }

    method CopyNext(fromTable: nat, toTable: nat, ghost pd: nat, ghost d: nat, i: nat, ghost k: GoodState)
      requires Valid() && Copyable(k, pd, d, i + 1) && st == CopiedN(k, pd, d, i)
      requires Dir(k, pd).page == fromTable && Dir(k, d).page == toTable
      requires Dir(st, pd) == Dir(k, pd) && Dir(st, d) == Dir(k, d)
      requires forall j | 0 <= j < WORDS :: !Entry(k, d, j).present
      modifies mem, mem_map, `st
      ensures Valid() && st == CopiedN(k, pd, d, i + 1) && Dir(st, pd) == Dir(k, pd) && Dir(st, d) == Dir(k, d)
    {
      StillCopyable(k, pd, d, i);
      CopyEntry(fromTable, toTable, pd, d, i);
      DirsKept(k, pd, d, i + 1);
    }

    /** One turn of that loop. Frames at or above LOW_MEM lose the write flag on both sides and
        gain a reference; low ones lose it in the copy only. */
    method CopyEntry(fromTable: nat, toTable: nat, ghost pd: nat, ghost d: nat, i: nat)
      requires Valid() && Copyable(st, pd, d, i + 1) && !Entry(st, d, i).present
      requires Dir(st, pd).page == fromTable && Dir(st, d).page == toTable
      modifies mem, mem_map, `st
      ensures Valid() && st == CopiedEntry(old(st), pd, d, i)
    {
      ghost var k := st;
      CopyStep(k, pd, d, i);
      CopiedStores(k, pd, d, i);
      var thisPage := mem[fromTable][i];
      if !thisPage.present {
        return;
      }
      thisPage := thisPage.(rw := false);
      mem[toTable] := mem[toTable][i := thisPage];
      if thisPage.page >= LOW {
        mem[fromTable] := mem[fromTable][i := thisPage];
        mem_map[thisPage.page - LOW] := mem_map[thisPage.page - LOW] + 1;
      }
      st := CopiedEntry(k, pd, d, i);
      assert st.mem == mem[..] && st.cnt == mem_map[..];
    }

    /** A page table for directory entry d: get_free_page, then the address into the directory. */
    method NewTable(d: nat) returns (f: nat)
      requires Valid() && DIRS <= d < WORDS && !Dir(st, d).present
      modifies mem, mem_map, `st
      ensures Valid() && (f == 0 <==> FreeCount(old(st)) == 0)
      ensures f == 0 ==> st == old(st)
      ensures st == TableMade(old(st), d)
      ensures f != 0 ==> TableAdded(old(st), st, d) && Dir(st, d).page == f && FreeCount(st) == FreeCount(old(st)) - 1
    {
      ghost var k := st;
      f := GetFreePage();
      if f != 0 {
        mem[0] := mem[0][d := Entry7(f)];
        AddTable(k, d, f);
        st := WithTable(k, d, f);
        assert st.mem == mem[..] && st.cnt == mem_map[..];
        TakenFree(k, f);
      }
    }

    /** One step of copy_page_tables' outer loop: a table for the copy, then its entries. */
    method CopyDir(pd: nat, d: nat, count: nat) returns (ok: bool)
      requires Valid() && DIRS <= d < WORDS && !Dir(st, d).present && Dir(st, pd).present
      requires if pd == 0 then d % DIRS == 0 && count == KERNEL_PAGES else DIRS <= pd < WORDS && count == WORDS
      requires pd % DIRS == d % DIRS && pd / DIRS != d / DIRS
      modifies mem, mem_map, `st
      ensures Valid() && (ok <==> FreeCount(old(st)) > 0)
      ensures st == if ok then CopiedN(TableMade(old(st), d), pd, d, count) else old(st)
      ensures ok ==> FreeCount(st) == FreeCount(old(st)) - 1
      ensures ok ==> Mirrored(old(st), st, pd, d, count) && MapsKept(old(st), st, d / DIRS)
      ensures ok ==> forall e | DIRS <= e < WORDS && e != d :: Dir(st, e) == old(Dir(st, e))
    {
      ghost var k := st;
      var fromTable := mem[0][pd].page;
      var toTable := NewTable(d);
      ok := toTable != 0;
      if ok {
        ghost var k1 := st;
        CopyEntries(fromTable, toTable, pd, d, count);
        CopiedAll(k1, pd, d, count);
        CopiedFree(k1, pd, d, count);
        AddThenCopy(k, k1, st, pd, d, count);
      }
    }

    /** One turn of copy_page_tables' outer loop, at directory entry d of task c. */
    method TryDir(pd: nat, d: nat, count: nat, ghost c: nat) returns (ok: bool)
      requires Valid() && DIRS <= d < WORDS && !Dir(st, d).present && c == d / DIRS
      requires if pd == 0 then d % DIRS == 0 && count == KERNEL_PAGES else DIRS <= pd < WORDS && count == WORDS
      requires pd % DIRS == d % DIRS && pd / DIRS != c
      modifies mem, mem_map, `st
      ensures Valid() && (ok <==> !(Dir(old(st), pd).present && FreeCount(old(st)) == 0))
      ensures !ok || !Dir(old(st), pd).present ==> st == old(st)
      ensures ok && Dir(old(st), pd).present ==> FreeCount(st) == FreeCount(old(st)) - 1
      ensures ok && Dir(old(st), pd).present ==> st == CopiedN(TableMade(old(st), d), pd, d, count)
      ensures ok && Dir(old(st), pd).present ==> Mirrored(old(st), st, pd, d, count) && MapsKept(old(st), st, c)
      ensures ok ==> forall e | DIRS <= e < WORDS && e != d :: Dir(st, e) == old(Dir(st, e))
    {
      ok := true;
      if mem[0][pd].present {
        ok := CopyDir(pd, d, count);
      }
    }

    /** The same, at the n-th table of task p. */
    method TryTable(fromDir: nat, toDir: nat, count: nat, ghost p: nat, ghost c: nat, ghost n: nat) returns (ok: bool)
      requires Valid() && p < NR_TASKS && 1 <= c < NR_TASKS && p != c && n < (if p == 0 then 1 else DIRS)
      requires fromDir == DIRS * p + n && toDir == DIRS * c + n && count == (if p == 0 then KERNEL_PAGES else WORDS)
      requires !Dir(st, toDir).present
      modifies mem, mem_map, `st
      ensures Valid() && (ok <==> !(HasTable(old(st), p, n) && FreeCount(old(st)) == 0))
      ensures ok ==> FreeCount(st) == FreeCount(old(st)) - if HasTable(old(st), p, n) then 1 else 0
      ensures st == TableTried(old(st), p, c, n) && (!ok || !HasTable(old(st), p, n) ==> st == old(st))
      ensures ok && HasTable(old(st), p, n) ==> Mirrored(old(st), st, fromDir, toDir, count) && MapsKept(old(st), st, c)
      ensures ok ==> forall e | DIRS <= e < WORDS && e != toDir :: Dir(st, e) == old(Dir(st, e))
    {
      DirOf(p, n);
      DirOf(c, n);
      LastZeroNone(st.cnt);
      TriedIs(st, p, c, n);
      ok := TryDir(fromDir, toDir, count, c);
    }

    /** With what it means for the copy so far. */
    method CopyTurn(fromDir: nat, toDir: nat, count: nat, ghost k: GoodState, ghost p: nat, ghost c: nat, ghost n: nat) returns (ok: bool)
      requires Valid() && p < NR_TASKS && 1 <= c < NR_TASKS && p != c && n < (if p == 0 then 1 else DIRS)
      requires fromDir == DIRS * p + n && toDir == DIRS * c + n && count == (if p == 0 then KERNEL_PAGES else WORDS)
      requires NoTables(k, c) && TablesCopied(k, st, p, c, n)
      modifies mem, mem_map, `st
      ensures Valid() && (ok <==> !(HasTable(old(st), p, n) && FreeCount(old(st)) == 0))
      ensures ok ==> TablesCopied(k, st, p, c, n + 1)
      ensures ok ==> FreeCount(st) == FreeCount(old(st)) - if HasTable(old(st), p, n) then 1 else 0
      ensures st == TableTried(old(st), p, c, n) && (!ok ==> st == old(st))
    {
      ghost var k1 := st;
      ok := TryTable(fromDir, toDir, count, p, c, n);
      if ok {
        if HasTable(k1, p, n) {
          MirrorIsCopy(k1, st, p, c, n, count);
        } else {
          NothingToCopy(k1, p, c, n);
        }
        TableCopied(k, k1, st, p, c, n);
      }
    }

    /** Copies the mappings of `size` bytes at `from` to `to`. -1 means that there are fewer free frames
        than page tables to copy; what was copied until then stays, for the caller to free. */
    method CopyPageTables(from: nat, to: nat, size: nat, ghost p: nat, ghost c: nat) returns (r: int)
      requires Valid() && p < NR_TASKS && 1 <= c < NR_TASKS && p != c
      requires from == TASK_SIZE * p && to == TASK_SIZE * c && DirCount(size) <= (if p == 0 then 1 else DIRS)
      requires NoTables(st, c)
      modifies mem, mem_map, `st
      ensures Valid() && (r == 0 || r == -1) && st == TablesTried(old(st), p, c, DirCount(size))
      ensures r == -1 <==> FreeCount(old(st)) < TablesIn(old(st), p, DirCount(size))
      ensures r == 0 ==> TablesCopied(old(st), st, p, c, DirCount(size))
      ensures r == 0 ==> ShowsBelow(old(st), st, p, c, size) && KeptBeyond(old(st), st, c, size)
      ensures r == 0 ==> FreeCount(st) == FreeCount(old(st)) - TablesIn(old(st), p, DirCount(size))
      ensures r == -1 ==> exists m | 0 <= m < DirCount(size) :: TablesCopied(old(st), st, p, c, m)
    {
      ghost var k := st;
      ghost var n;
      var ok;
      ok, n := TryTables(from / DIR_SIZE, to / DIR_SIZE, DirCount(size), if from == 0 then KERNEL_PAGES else WORDS, p, c);
      if !ok {
        CopyStopped(k, p, c, n, DirCount(size));
        return -1;
      }
      ForkedBelow(k, st, p, c, size);
      return 0;
    }

    /** The turn after n turns. */
    method TryNext(fromDir: nat, toDir: nat, count: nat, ghost k: GoodState, ghost p: nat, ghost c: nat, ghost n: nat) returns (ok: bool)
      requires Valid() && p < NR_TASKS && 1 <= c < NR_TASKS && p != c && n < (if p == 0 then 1 else DIRS) && NoTables(k, c)
      requires fromDir == DIRS * p + n && toDir == DIRS * c + n && count == (if p == 0 then KERNEL_PAGES else WORDS)
      requires TablesCopied(k, st, p, c, n) && FreeCount(st) == FreeCount(k) - TablesIn(k, p, n) && st == TablesTried(k, p, c, n)
      modifies mem, mem_map, `st
      ensures Valid() && (!ok ==> st == old(st) && HasTable(k, p, n) && FreeCount(st) == 0)
      ensures ok ==> TablesCopied(k, st, p, c, n + 1) && FreeCount(st) == FreeCount(k) - TablesIn(k, p, n + 1)
      ensures ok ==> st == TablesTried(k, p, c, n + 1)
    {
      TableToCopy(k, st, p, c, n);
      ok := CopyTurn(fromDir, toDir, count, k, p, c, n);
    }

    /** Its loop over the directory entries; it stops before the n-th. */
    method TryTables(fromDir0: nat, toDir0: nat, total: nat, count: nat, ghost p: nat, ghost c: nat) returns (ok: bool, ghost n: nat)
      requires Valid() && p < NR_TASKS && 1 <= c < NR_TASKS && p != c && NoTables(st, c)
      requires fromDir0 == DIRS * p && toDir0 == DIRS * c && total <= (if p == 0 then 1 else DIRS)
      requires count == if p == 0 then KERNEL_PAGES else WORDS
      modifies mem, mem_map, `st
      ensures Valid() && n <= total && st == TablesTried(old(st), p, c, n)
      ensures TablesCopied(old(st), st, p, c, n) && FreeCount(st) == FreeCount(old(st)) - TablesIn(old(st), p, n)
      ensures if ok then n == total else n < total && HasTable(old(st), p, n) && FreeCount(st) == 0
    {
      ghost var k := st;
      var fromDir, toDir, left := fromDir0, toDir0, total;
      n := 0;
      while left > 0
        invariant 0 <= left && left + n == total && fromDir == DIRS * p + n && toDir == DIRS * c + n && Valid()
        invariant TablesCopied(k, st, p, c, n) && FreeCount(st) == FreeCount(k) - TablesIn(k, p, n)
        invariant st == TablesTried(k, p, c, n)
      {
        ok := TryNext(fromDir, toDir, count, k, p, c, n);
        if !ok {
          return;
        }
        fromDir, toDir, left, n := fromDir + 1, toDir + 1, left - 1, n + 1;
      }
      ok := true;
    }

    /** Makes a read-only entry writable: in place if it is the frame's only reference, else on a
        copy. False means that there is no frame for the copy; nothing changed then. */
    method UnWpPage(table: nat, i: nat, ghost x: Loc) returns (ok: bool)
      requires Valid() && ValidLoc(x) && x.t != 0 && x.i == i && EntryAt(st, x).present
      requires Dir(st, DirIndex(x)).page == table
      modifies mem, mem_map, `st
      ensures Valid() && (!ok <==> NeedsCopy(old(st), x) && FreeCount(old(st)) == 0)
      ensures !ok ==> st == old(st)
      ensures st == Unshared(old(st), x)
      ensures ok ==> Privatized(old(st), st, x)
    {
      ghost var k := st;
      assert DirOk(k, DirIndex(x)) && EntryOk(k, DirIndex(x), i);
      var oldPage := mem[table][i].page;
      assert oldPage >= LOW ==> FrameOk(k, oldPage);
      if oldPage >= LOW && mem_map[oldPage - LOW] == 1 {
        GrantPrivatizes(k, x);
        mem[table] := mem[table][i := mem[table][i].(rw := true)];
        st := WithEntry(k, DirIndex(x), i, EntryAt(k, x).(rw := true));
        assert st.mem == mem[..];
        return true;
      }
      var newPage := GetFreePage();
      if newPage == 0 {
        return false;
      }
      SplitPage(table, i, oldPage, newPage, k, x);
      return true;
    }

    /** The tail of un_wp_page: drop the old page, install the new one, copy the words. */
    method SplitPage(table: nat, i: nat, oldPage: nat, newPage: nat, ghost k: State, ghost x: Loc)
      requires Valid() && Inv(k) && InRam(k, newPage) && UseOf(k, newPage).Free?
      requires st == WithUse(WithFrame(k, newPage, ZeroPage()), newPage, 1, Held)
      requires ValidLoc(x) && x.t != 0 && x.i == i && EntryAt(k, x).present
      requires Dir(k, DirIndex(x)).page == table && EntryAt(k, x).page == oldPage
      requires oldPage < LOW || CountOf(k, oldPage) > 1
      modifies mem, mem_map, `st
      ensures Valid() && Privatized(k, st, x) && st == CopyOnWrite(old(st), x, newPage)
    {
      ghost var k1 := st;
      SplitStores(k, k1, x, newPage);
      SplitCounts(k, k1, CopyOnWrite(k1, x, newPage), x, newPage, EntryAt(k, x).page);
      if oldPage >= LOW {
        mem_map[oldPage - LOW] := mem_map[oldPage - LOW] - 1;
      }
      mem[table] := mem[table][i := Entry7(newPage)];
      mem[newPage] := mem[oldPage];
      CopyPrivatizes(k, k1, x, newPage);
      st := CopyOnWrite(k1, x, newPage);
      assert st.mem == mem[..] && st.cnt == mem_map[..];
    }

    /** Before the kernel stores into user memory: a read-only page there is made writable. */
    method WriteVerify(address: nat) returns (ok: bool)
      requires Valid() && TASK_SIZE <= address < TASK_SIZE * NR_TASKS
      modifies mem, mem_map, `st
      ensures Valid() && (!ok <==> CopyFails(old(st), PlaceOf(address)))
      ensures !ok ==> st == old(st)
      ensures ok ==> Verified(old(st), st, PlaceOf(address)) && st.task == old(st).task
      ensures st == Verifying(old(st), PlaceOf(address))
      ensures !EntryAt(old(st), PlaceOf(address)).present ==> st == old(st)
    {
      ghost var k, x := st, PlaceOf(address);
      var dir, i := address / DIR_SIZE, address / 4096 % WORDS;
      assert DirOk(k, dir);
      if !mem[0][dir].present {
        return true;
      }
      var table := mem[0][dir].page;
      if mem[table][i].present && !mem[table][i].rw {
        ok := UnWpPage(table, i, x);
        if ok {
          PrivateIsMaterialized(k, st, x);
        }
        return ok;
      }
      assert EntryOk(k, dir, i);
      return true;
    }

    /** The loop of verify_area, from the start of linear page lo. */
    method VerifyPages(start0: nat, size: int, ghost lo: nat) returns (ok: bool, ghost n: nat)
      requires Valid() && start0 == 4096 * lo && OfSomeTask(lo) && lo + Pages(size) <= WORDS * WORDS
      modifies mem, mem_map, `st
      ensures Valid() && AreaVerified(old(st), st, lo, n)
      ensures if ok then n == lo + Pages(size) else lo <= n < lo + Pages(size) && CopyFails(st, PlaceOfPage(n))
    {
      ghost var k := st;
      var left, start := size, start0;
      n := lo;
      while left > 0
        invariant Valid() && lo <= n && left == size - 4096 * (n - lo) && start == 4096 * n
        invariant AreaVerified(k, st, lo, n)
        invariant left > -4096 || n == lo
        decreases left
      {
        PagesLeft(size, n - lo, left);
        ok := VerifyPage(start, k, lo, n);
        if !ok {
          return;
        }
        left, start, n := left - 4096, start + 4096, n + 1;
      }
      PagesLeft(size, n - lo, left);
      ok := true;
    }

    /** One page more. */
    method VerifyPage(start: nat, ghost k: State, ghost lo: nat, ghost n: nat) returns (ok: bool)
      requires Valid() && Inv(k) && start == 4096 * n && OfSomeTask(n) && lo <= n
      requires AreaVerified(k, st, lo, n)
      modifies mem, mem_map, `st
      ensures Valid() && (!ok <==> CopyFails(old(st), PlaceOfPage(n)))
      ensures if ok then AreaVerified(k, st, lo, n + 1) else st == old(st)
    {
      ghost var k1 := st;
      PageStart(n);
      ok := WriteVerify(start);
      if ok {
        AreaStep(k, k1, st, lo, n);
      }
    }

    /** write_verify for every page that `size` bytes at address `addr` of task t touch. The source does not
        look at the task's limit: an area beyond its 64 MB goes on into the next task's pages. */
    method VerifyArea(addr: nat, size: int, t: nat) returns (ok: bool, ghost n: nat)
      requires Valid() && 1 <= t && TASK_SIZE * t + addr < TASK_SIZE * NR_TASKS
      requires TASK_SIZE * t + addr + size <= TASK_SIZE * NR_TASKS
      modifies mem, mem_map, `st
      ensures Valid()
      ensures var lo := (TASK_SIZE * t + addr) / 4096; var hi := lo + Pages(size + addr % 4096);
        && AreaVerified(old(st), st, lo, n)
        && if ok then n == hi else lo <= n < hi && CopyFails(st, PlaceOfPage(n))
    {
      AreaInSpace(t, addr, size);
      ok, n := VerifyPages(addr - addr % 4096 + TASK_SIZE * t, size + addr % 4096, (TASK_SIZE * t + addr) / 4096);
    }

    /** A store by user task t: it faults where nothing is mapped; at a read-only page the
        processor enters do_wp_page and then stores. */
    method UserStore(address: nat, j: nat, v: Word) returns (r: Outcome)
      requires Valid() && TASK_SIZE <= address < TASK_SIZE * NR_TASKS && j < WORDS
      modifies mem, mem_map, `st
      ensures Valid() && st == UserStored(old(st), PlaceOf(address), j, v)
      ensures r != Done ==> st == old(st)
      ensures r == Fault <==> PageAt(old(st), PlaceOf(address)) == Absent
      ensures r == OutOfMemory <==> CopyFails(old(st), PlaceOf(address))
      ensures r == Done ==> ViewSet(old(st), st, PlaceOf(address), Stored(old(st), PlaceOf(address), j, v))
    {
      ghost var k, x := st, PlaceOf(address);
      var dir, i := address / DIR_SIZE, address / 4096 % WORDS;
      assert DirOk(k, dir) && EntryOk(k, dir, i);
      if !mem[0][dir].present {
        return Fault;
      }
      var table := mem[0][dir].page;
      if !mem[table][i].present {
        return Fault;
      }
      if !mem[table][i].rw {
        var ok := UnWpPage(table, i, x);
        if !ok {
          return OutOfMemory;
        }
      }
      ghost var k1 := st;
      assert DirOk(k1, dir) && EntryOk(k1, dir, i);
      AllowedStore(address, j, v);
      assert PageAt(k1, x) == Own(Content(k1, x)) && Content(k1, x) == Content(k, x);
      return Done;
    }

    /** Through a writable entry the store is seen at its own place alone. */
    method AllowedStore(address: nat, j: nat, v: Word)
      requires Valid() && TASK_SIZE <= address < TASK_SIZE * NR_TASKS && j < WORDS
      requires EntryAt(st, PlaceOf(address)).present && EntryAt(st, PlaceOf(address)).rw
      modifies mem, `st
      ensures Valid() && st == RawStored(old(st), PlaceOf(address), j, v)
      ensures |Content(old(st), PlaceOf(address))| == WORDS
      ensures ViewSet(old(st), st, PlaceOf(address), Own(Content(old(st), PlaceOf(address))[j := v]))
    {
      StoredIs(st, PlaceOf(address), j, v);
      RawStore(address, j, v);
    }

    /** What the processor does for a store that it allows: the word, and the entry's dirty flag. In
        supervisor mode it does not look at the write flag. */
    method RawStore(address: nat, j: nat, v: Word)
      requires Valid() && TASK_SIZE <= address < TASK_SIZE * NR_TASKS && j < WORDS
      requires EntryAt(st, PlaceOf(address)).present && LOW <= EntryAt(st, PlaceOf(address)).page
      modifies mem, `st
      ensures Valid() && st == RawStored(old(st), PlaceOf(address), j, v)
    {
      ghost var k, x := st, PlaceOf(address);
      var dir, i := address / DIR_SIZE, address / 4096 % WORDS;
      assert DirOk(k, dir) && EntryOk(k, dir, i);
      RawStoredKeeps(k, x, j, v);
      var table := mem[0][dir].page;
      mem[table] := mem[table][i := mem[table][i].(dirty := true)];
      var page := mem[table][i].page;
      mem[page] := mem[page][j := v];
      st := RawStored(k, x, j, v);
      assert st.mem == mem[..];
    }

    /** Maps a frame that the kernel holds, writable, at an address where nothing is mapped. Zero
        means no frame was left for the page table; nothing changed then. */
    method PutPage(page: nat, address: nat) returns (r: nat)
      requires Valid() && TASK_SIZE <= address < TASK_SIZE * NR_TASKS
      requires InRam(st, page) && UseOf(st, page).Held? && !EntryAt(st, PlaceOf(address)).present
      modifies mem, mem_map, `st
      ensures Valid() && (r == 0 || r == page) && st.task == old(st.task)
      ensures r == 0 <==> FreeCount(old(st)) + 1 < PagesFor(old(st), PlaceOf(address))
      ensures st == if r == 0 then old(st) else Mapped(TableMade(old(st), address / DIR_SIZE), PlaceOf(address), page)
      ensures r == page ==> ViewSet(old(st), st, PlaceOf(address), Own(old(st).mem[page]))
      ensures r == page ==> NewEntry(st, PlaceOf(address)) && FreeCount(st) >= FreeCount(old(st)) - 1
      ensures r == page <==> Dir(TableMade(old(st), address / DIR_SIZE), address / DIR_SIZE).present
    {
      ghost var k, x := st, PlaceOf(address);
      var dir := address / DIR_SIZE;
      assert DirOk(k, dir);
      var table := TableFor(dir);
      if table == 0 {
        return 0;
      }
      ghost var k1 := st;
      PutMaps(k1, x, page);
      SetAfterSame(k, k1, Mapped(k1, x, page), x, Own(k1.mem[page]));
      mem[table] := mem[table][address / 4096 % WORDS := Entry7(page)];
      st := Mapped(k1, x, page);
      assert st.mem == mem[..];
      return page;
    }

    /** A zeroed page at an address where nothing is mapped; no frame is lost when memory runs out. */
    method GetEmptyPage(address: nat) returns (r: Outcome)
      requires Valid() && TASK_SIZE <= address < TASK_SIZE * NR_TASKS && !EntryAt(st, PlaceOf(address)).present
      modifies mem, mem_map, `st
      ensures Valid() && r != Fault && st.task == old(st.task) && st == NewPage(old(st), PlaceOf(address), ZeroPage())
      ensures r == Done ==> ViewSet(old(st), st, PlaceOf(address), Own(ZeroPage()))
      ensures r == Done ==> NewEntry(st, PlaceOf(address)) && FreeCount(st) >= FreeCount(old(st)) - 2
      ensures r == OutOfMemory <==> FreeCount(old(st)) < PagesFor(old(st), PlaceOf(address))
      ensures r == OutOfMemory ==> SameView(old(st), st) && st.cnt == old(st.cnt)
    {
      ghost var k := st;
      var tmp := GetFreePage();
      if tmp == 0 {
        return OutOfMemory;
      }
      ghost var k1 := st;
      Alloc(k, tmp, ZeroPage());
      FreshIsZero(k);
      r := InstallPage(tmp, address);
      assert r == OutOfMemory ==> st.cnt == k.cnt by {
        assert FrameOk(k, tmp);
      }
    }

    /** put_page, and free_page when it fails: the end of get_empty_page and of do_no_page. */
    method InstallPage(page: nat, address: nat) returns (r: Outcome)
      requires Valid() && TASK_SIZE <= address < TASK_SIZE * NR_TASKS
      requires InRam(st, page) && UseOf(st, page).Held? && !EntryAt(st, PlaceOf(address)).present
      modifies mem, mem_map, `st
      ensures Valid() && r != Fault && st.task == old(st.task) && st == Installed(old(st), PlaceOf(address), page)
      ensures r == Done ==> ViewSet(old(st), st, PlaceOf(address), Own(old(st).mem[page]))
      ensures r == Done ==> NewEntry(st, PlaceOf(address)) && FreeCount(st) >= FreeCount(old(st)) - 1
      ensures r == OutOfMemory <==> FreeCount(old(st)) + 1 < PagesFor(old(st), PlaceOf(address))
      ensures r == OutOfMemory ==> SameView(old(st), st) && st.cnt == old(st.cnt)[page - LOW := 0]
    {
      ghost var k := st;
      var got := PutPage(page, address);
      if got != 0 {
        return Done;
      }
      Release(k, page);
      FreePage(page);
      st := WithUse(k, page, 0, Free);
      assert st.cnt == mem_map[..];
      return OutOfMemory;
    }

    /** Shares page `address` of task p with task cur if p has it, clean: 1 when it was shared. */
    method TryToShare(address: nat, p: nat, cur: nat) returns (r: int, oom: bool)
      requires Valid() && 1 <= p < NR_TASKS && 1 <= cur < NR_TASKS && p != cur && address < TASK_SIZE
      requires !EntryAt(st, TaskPlace(cur, address)).present
      modifies mem, mem_map, `st
      ensures Valid() && (r == 0 || r == 1) && st.task == old(st.task)
      ensures r == 1 <==> CleanAt(old(st), TaskPlace(p, address)) && HasRoom(old(st), TaskPlace(cur, address))
      ensures oom <==> CleanAt(old(st), TaskPlace(p, address)) && !HasRoom(old(st), TaskPlace(cur, address))
      ensures r == 0 ==> st == old(st)
      ensures r == 1 || oom ==> st == SharedIn(old(st), TaskPlace(cur, address), TaskPlace(p, address))
      ensures r == 1 ==> SharedPage(old(st), st, TaskPlace(cur, address), TaskPlace(p, address))
    {
      ghost var x, y := TaskPlace(cur, address), TaskPlace(p, address);
      var fromDir, toDir := address / DIR_SIZE + DIRS * p, address / DIR_SIZE + DIRS * cur;
      var i := address / 4096 % WORDS;
      assert DirOk(st, fromDir) && DirIndex(x) == toDir && DirIndex(y) == fromDir;
      if !mem[0][fromDir].present {
        return 0, false;
      }
      var from := mem[0][fromDir].page;
      var phys := mem[from][i];
      if !phys.present || phys.dirty || phys.page >= mem.Length || phys.page < LOW {
        return 0, false;
      }
      var ok := GiveTo(from, toDir, i, x, y);
      return if ok then 1 else 0, !ok;
    }

    /** The second half of try_to_share: the page table, and the entry. */
    method GiveTo(from: nat, toDir: nat, i: nat, ghost x: Loc, ghost y: Loc) returns (ok: bool)
      requires Valid() && ValidLoc(x) && x.t != 0 && !EntryAt(st, x).present && DirIndex(x) == toDir
      requires ValidLoc(y) && y.t != 0 && y != x && y.a == x.a && y.i == x.i == i
      requires EntryAt(st, y).present && LOW <= EntryAt(st, y).page && Dir(st, DirIndex(y)).page == from
      modifies mem, mem_map, `st
      ensures Valid() && st.task == old(st.task) && (ok <==> HasRoom(old(st), x))
      ensures st == SharedIn(old(st), x, y) && (!ok ==> st == old(st))
      ensures ok ==> SharedPage(old(st), st, x, y)
    {
      ghost var k := st;
      var to := TableFor(toDir);
      ok := to != 0;
      if ok {
        ghost var k1 := st;
        ShareEntry(from, to, i, x, y);
        SharedAfterTable(k, k1, st, x, y, toDir);
      }
    }

    /** The end of try_to_share: write-protect the entry, duplicate it, count the reference. */
    method ShareEntry(from: nat, to: nat, i: nat, ghost x: Loc, ghost y: Loc)
      requires Valid() && ValidLoc(x) && x.t != 0 && Dir(st, DirIndex(x)).present && !EntryAt(st, x).present
      requires ValidLoc(y) && y.t != 0 && y.a == x.a && y.i == x.i == i
      requires EntryAt(st, y).present && LOW <= EntryAt(st, y).page
      requires Dir(st, DirIndex(y)).page == from && Dir(st, DirIndex(x)).page == to
      modifies mem, mem_map, `st
      ensures Valid() && st.task == old(st.task) && SharedPage(old(st), st, x, y) && st == SharedFrom(old(st), x, y)
    {
      ghost var k := st;
      ShareMaps(k, x, y);
      ShareEntries(k, x, y);
      mem[from] := mem[from][i := mem[from][i].(rw := false)];
      mem[to] := mem[to][i := mem[from][i]];
      var page := mem[from][i].page;
      mem_map[page - LOW] := mem_map[page - LOW] + 1;
      st := SharedFrom(k, x, y);
      assert st.mem == mem[..] && st.cnt == mem_map[..];
    }

    /** The page table of a directory entry, made if there is none; 0 when memory ran out. */
    method TableFor(d: nat) returns (table: nat)
      requires Valid() && DIRS <= d < WORDS
      modifies mem, mem_map, `st
      ensures Valid() && (table == 0 <==> !Dir(old(st), d).present && FreeCount(old(st)) == 0)
      ensures table == 0 ==> st == old(st)
      ensures st == TableMade(old(st), d)
      ensures table != 0 ==> TableAdded(old(st), st, d) && Dir(st, d).page == table
      ensures FreeCount(st) >= FreeCount(old(st)) - 1
    {
      assert DirOk(st, d);
      if mem[0][d].present {
        return mem[0][d].page;
      }
      table := NewTable(d);
    }

    /** Looks, from the last task down, for one running the same executable that can share the page.
        `count` is the executable's i_count. */
    method SharePage(address: nat, cur: nat, count: nat) returns (r: int, oom: bool)
      requires Valid() && 1 <= cur < NR_TASKS && address < TASK_SIZE && !EntryAt(st, TaskPlace(cur, address)).present
      modifies mem, mem_map, `st
      ensures Valid() && (r == 0 || r == 1) && st.task == old(st.task)
      ensures var p := Giver(old(st), executable[..], cur, address, count);
        && (r == 1 <==> p != 0 && HasRoom(old(st), TaskPlace(cur, address)))
        && (oom <==> p != 0 && !HasRoom(old(st), TaskPlace(cur, address)))
        && (r == 1 ==> SharedPage(old(st), st, TaskPlace(cur, address), TaskPlace(p, address)))
      ensures r == 0 ==> st == old(st)
      ensures var p := Giver(old(st), executable[..], cur, address, count);
        st == if p != 0 then SharedIn(old(st), TaskPlace(cur, address), TaskPlace(p, address)) else old(st)
    {
      if executable[cur] == 0 || count < 2 {
        return 0, false;
      }
      ghost var k, x, exe := st, TaskPlace(cur, address), executable[..];
      var p := NR_TASKS - 1;
      while p > 0
        invariant 0 <= p < NR_TASKS && Valid() && st == k
        invariant LastSharer(k, exe, cur, x.a, x.i, NR_TASKS) == LastSharer(k, exe, cur, x.a, x.i, p + 1)
      {
        assert TaskPlace(p, address) == Loc(p, x.a, x.i);
        if task[p] != 0 && p != cur && executable[p] == executable[cur] {
          r, oom := TryToShare(address, p, cur);
          if r == 1 || oom {
            return;
          }
        }
        p := p - 1;
      }
      return 0, false;
    }

    /** A page fault at a place where task cur has nothing mapped. `image` is what bread_page reads
        for that page once the part past end_data is cleared. */
    method DoNoPage(cur: nat, address: nat, endData: nat, count: nat, image: seq<Word>) returns (r: Outcome)
      requires Valid() && 1 <= cur < NR_TASKS && address < TASK_SIZE && |image| == WORDS
      requires !EntryAt(st, TaskPlace(cur, address)).present
      modifies mem, mem_map, `st
      ensures Valid() && r != Fault && st.task == old(st.task)
      ensures st == Faulted(old(st), executable[..], cur, address, endData, count, image)
      ensures r == OutOfMemory <==> NoPageFails(old(st), executable[..], cur, address, endData, count)
      ensures r == OutOfMemory ==> SameView(old(st), st) && st.cnt == old(st.cnt)
      ensures r == Done ==> var p := SharedFor(old(st), executable[..], cur, address, endData, count);
        if p != 0 then SharedPage(old(st), st, TaskPlace(cur, address), TaskPlace(p, address))
        else Loaded(old(st), st, TaskPlace(cur, address), FreshPage(executable[..], cur, address, endData, image))
      ensures r == Done && SharedFor(old(st), executable[..], cur, address, endData, count) == 0 ==>
        FreeCount(st) >= FreeCount(old(st)) - 2
    {
      var tmp := address - address % 4096;
      LinearPlace(cur, address);
      if executable[cur] == 0 || tmp >= endData {
        FaultedNew(st, executable[..], cur, address, endData, count, image, ZeroPage());
        r := GetEmptyPage(TASK_SIZE * cur + address);
        return;
      }
      r := FromExecutable(cur, address, endData, count, image);
    }

    /** The rest of do_no_page, at an address of the executable: share_page, or read the page. */
    method FromExecutable(cur: nat, address: nat, endData: nat, count: nat, image: seq<Word>) returns (r: Outcome)
      requires Valid() && 1 <= cur < NR_TASKS && address < TASK_SIZE && |image| == WORDS
      requires !EntryAt(st, TaskPlace(cur, address)).present && OfExecutable(executable[..], cur, address, endData)
      modifies mem, mem_map, `st
      ensures Valid() && r != Fault && st.task == old(st.task)
      ensures st == Faulted(old(st), executable[..], cur, address, endData, count, image)
      ensures r == OutOfMemory <==> NoPageFails(old(st), executable[..], cur, address, endData, count)
      ensures r == OutOfMemory ==> SameView(old(st), st) && st.cnt == old(st.cnt)
      ensures r == Done ==> var p := SharedFor(old(st), executable[..], cur, address, endData, count);
        if p != 0 then SharedPage(old(st), st, TaskPlace(cur, address), TaskPlace(p, address))
        else Loaded(old(st), st, TaskPlace(cur, address), FreshPage(executable[..], cur, address, endData, image))
      ensures r == Done && SharedFor(old(st), executable[..], cur, address, endData, count) == 0 ==>
        FreeCount(st) >= FreeCount(old(st)) - 2
    {
      var tmp := address - address % 4096;
      LinearPlace(cur, address);
      var shared, oom := SharePage(address, cur, count);
      if shared == 1 {
        return Done;
      }
      if oom {
        return OutOfMemory;
      }
      FaultedNew(st, executable[..], cur, address, endData, count, image, Trimmed(image, endData - tmp));
      r := LoadImage(TASK_SIZE * cur + address, image, endData - tmp);
    }

    /** A store by the kernel into user memory, as put_fs_byte does it after write_verify: it faults only
        where nothing is mapped, and is then made again, without regard to the write flag. Others may have
        run since the page was verified; a kernel frame cannot have come back. */
    method KernelStore(cur: nat, address: nat, j: nat, v: Word, endData: nat, count: nat, image: seq<Word>) returns (r: Outcome)
      requires Valid() && 1 <= cur < NR_TASKS && address < TASK_SIZE && j < WORDS && |image| == WORDS
      requires !PageAt(st, TaskPlace(cur, address)).Kernel?
      modifies mem, mem_map, `st
      ensures Valid() && r != Fault && st.task == old(st).task
      ensures st == KernelStored(old(st), executable[..], cur, address, j, v, endData, count, image)
      ensures r == OutOfMemory <==> StoreFails(old(st), executable[..], cur, address, endData, count)
      ensures r == OutOfMemory ==> SameView(old(st), st) && st.cnt == old(st).cnt
      ensures r == Done ==> StoreDone(old(st), st, executable[..], cur, address, j, v, endData, count, image)
    {
      LinearPlace(cur, address);
      r := Settle(cur, address, j, v, endData, count, image);
      if r == Done {
        RawStore(TASK_SIZE * cur + address, j, v);
      }
    }

    /** The page is there, or is faulted in. */
    method Settle(cur: nat, address: nat, j: nat, v: Word, endData: nat, count: nat, image: seq<Word>) returns (r: Outcome)
      requires Valid() && 1 <= cur < NR_TASKS && address < TASK_SIZE && j < WORDS && |image| == WORDS
      requires !PageAt(st, TaskPlace(cur, address)).Kernel?
      modifies mem, mem_map, `st
      ensures Valid() && r != Fault && st.task == old(st).task
      ensures st == if EntryAt(old(st), TaskPlace(cur, address)).present then old(st)
        else Faulted(old(st), executable[..], cur, address, endData, count, image)
      ensures r == OutOfMemory <==> StoreFails(old(st), executable[..], cur, address, endData, count)
      ensures r == OutOfMemory ==> SameView(old(st), st) && st.cnt == old(st).cnt
      ensures r == Done ==> ReadyToStore(old(st), st, executable[..], cur, address, j, v, endData, count, image)
    {
      LinearPlace(cur, address);
      var present := IsPresent(TASK_SIZE * cur + address);
      if present {
        StoreInPlace(st, executable[..], cur, address, j, v, endData, count, image);
        r := Done;
      } else {
        r := FaultIn(cur, address, j, v, endData, count, image);
      }
    }

    method IsPresent(address: nat) returns (present: bool)
      requires Valid() && TASK_SIZE <= address < TASK_SIZE * NR_TASKS
      ensures present <==> EntryAt(st, PlaceOf(address)).present
    {
      var dir := address / DIR_SIZE;
      assert DirOk(st, dir);
      present := mem[0][dir].present && mem[mem[0][dir].page][address / 4096 % WORDS].present;
    }

    method ShowsKernelFrame(address: nat) returns (yes: bool)
      requires Valid() && TASK_SIZE <= address < TASK_SIZE * NR_TASKS
      ensures yes <==> PageAt(st, PlaceOf(address)).Kernel?
    {
      yes := IsPresent(address);
      var dir, i := address / DIR_SIZE, address / 4096 % WORDS;
      assert DirOk(st, dir) && EntryOk(st, dir, i);
      yes := yes && mem[mem[0][dir].page][i].page < LOW;
    }

    /** The fault of a kernel store at an absent page. */
    method FaultIn(cur: nat, address: nat, j: nat, v: Word, endData: nat, count: nat, image: seq<Word>) returns (r: Outcome)
      requires Valid() && 1 <= cur < NR_TASKS && address < TASK_SIZE && j < WORDS && |image| == WORDS
      requires !EntryAt(st, TaskPlace(cur, address)).present
      modifies mem, mem_map, `st
      ensures Valid() && r != Fault && st.task == old(st).task
      ensures st == Faulted(old(st), executable[..], cur, address, endData, count, image)
      ensures r == OutOfMemory <==> StoreFails(old(st), executable[..], cur, address, endData, count)
      ensures r == OutOfMemory ==> SameView(old(st), st) && st.cnt == old(st).cnt
      ensures r == Done ==> ReadyToStore(old(st), st, executable[..], cur, address, j, v, endData, count, image)
    {
      ghost var k := st;
      r := DoNoPage(cur, address, endData, count, image);
      if r == Done {
        StoreAfterFault(k, st, executable[..], cur, address, j, v, endData, count, image);
      }
    }

    /** The last part of do_no_page: read the page from the executable into a fresh frame. */
    method LoadImage(address: nat, image: seq<Word>, keep: nat) returns (r: Outcome)
      requires Valid() && TASK_SIZE <= address < TASK_SIZE * NR_TASKS && |image| == WORDS
      requires !EntryAt(st, PlaceOf(address)).present
      modifies mem, mem_map, `st
      ensures Valid() && r != Fault && st.task == old(st.task) && st == NewPage(old(st), PlaceOf(address), Trimmed(image, keep))
      ensures r == OutOfMemory <==> FreeCount(old(st)) < PagesFor(old(st), PlaceOf(address))
      ensures r == OutOfMemory ==> SameView(old(st), st) && st.cnt == old(st.cnt)
      ensures r == Done ==> Loaded(old(st), st, PlaceOf(address), Trimmed(image, keep)) && FreeCount(st) >= FreeCount(old(st)) - 2
    {
      ghost var k := st;
      var page := GetFreePage();
      if page == 0 {
        return OutOfMemory;
      }
      ghost var k1 := st;
      Alloc(k, page, ZeroPage());
      Fill(k1, page, Trimmed(image, keep));
      mem[page] := image;
      ZeroTail(page, keep);
      st := WithFrame(k1, page, Trimmed(image, keep));
      assert st.mem == mem[..];
      r := InstallPage(page, address);
      assert r == OutOfMemory ==> st.cnt == k.cnt by {
        assert FrameOk(k, page);
      }
    }

    /** The bytes from `keep` on are cleared, from the top; those above are zero already. */
    method ZeroTail(page: nat, keep: nat)
      requires page < mem.Length && |mem[page]| == WORDS
      modifies mem
      ensures mem[..] == old(mem[..])[page := Trimmed(old(mem[page]), keep)]
    {
      ghost var image, m := mem[page], mem[..];
      TrimmedWhole(image, 4096);
      var b := 4096;
      while b > keep
        invariant b <= 4096 && (keep <= b || b == 4096)
        invariant mem[..] == m[page := Trimmed(image, b)]
      {
        b := b - 1;
        TrimmedMore(image, b);
        mem[page] := mem[page][b / 4 := Cut(mem[page][b / 4], b % 4)];
      }
      TrimmedWhole(image, 4096);
      if keep > 4096 {
        TrimmedWhole(image, keep);
      }
    }

    /** copy_mem: fork's copy of the address space. A failed copy is taken back completely. */
    method CopyMem(nr: nat, cur: nat, dataLimit: nat) returns (ok: bool)
      requires Valid() && cur < NR_TASKS && 1 <= nr < NR_TASKS && nr != cur && NoTables(st, nr)
      requires DirCount(dataLimit) <= (if cur == 0 then 1 else DIRS)
      modifies mem, mem_map, `st
      ensures Valid() && st.task == old(st.task) && st == SpaceCopied(old(st), cur, nr, DirCount(dataLimit))
      ensures !ok <==> FreeCount(old(st)) < TablesIn(old(st), cur, DirCount(dataLimit))
      ensures ok ==> TablesCopied(old(st), st, cur, nr, DirCount(dataLimit))
      ensures ok ==> ShowsBelow(old(st), st, cur, nr, dataLimit) && KeptBeyond(old(st), st, nr, dataLimit)
      ensures ok ==> FreeCount(st) == FreeCount(old(st)) - TablesIn(old(st), cur, DirCount(dataLimit))
      ensures !ok ==> SameView(old(st), st) && st.cnt == old(st.cnt) && NoTables(st, nr)
    {
      ghost var k := st;
      var oldBase, newBase := TASK_SIZE * cur, TASK_SIZE * nr;
      var r := CopyPageTables(oldBase, newBase, dataLimit, cur, nr);
      ok := r == 0;
      if !ok {
        ghost var k1 := st;
        ghost var m :| 0 <= m < DirCount(dataLimit) && TablesCopied(k, k1, cur, nr, m);
        FreePageTables(newBase, dataLimit, nr);
        UndoneCopy(k, k1, st, cur, nr, m, DirCount(dataLimit));
      }
    }

    /** The page for a new task's structure; 0 if no frame is free. */
    method NewTask(nr: nat, ghost cur: nat, ghost n: nat) returns (p: nat)
      requires Valid() && cur < NR_TASKS && 1 <= nr < NR_TASKS && nr != cur && NoTables(st, nr) && task[nr] == 0
      requires n <= (if cur == 0 then 1 else DIRS)
      modifies mem, mem_map, task, `st
      ensures Valid() && (p == 0 <==> FreeCount(old(st)) == 0) && (p == 0 ==> st == old(st))
      ensures p == LastFree(old(st)) && st == TaskMade(old(st), nr)
      ensures p != 0 ==> InRam(old(st), p) && SameView(old(st), st) && st.task == old(st.task)[nr := p]
      ensures p != 0 ==> old(st.cnt)[p - LOW] == 0 && st.cnt == old(st.cnt)[p - LOW := 1]
      ensures p != 0 ==> NoTables(st, nr) && FreeCount(st) == FreeCount(old(st)) - 1 && TablesIn(st, cur, n) == TablesIn(old(st), cur, n)
      ensures p != 0 ==> forall d | DIRS <= d < WORDS :: Dir(st, d) == Dir(old(st), d)
    {
      ghost var k := st;
      p := GetFreePage();
      if p == 0 {
        return;
      }
      ghost var k1 := st;
      Alloc(k, p, ZeroPage());
      SetTask(k1, nr, p);
      assert FrameOk(k, p);
      task[nr] := p;
      st := WithUse(k1, p, 1, TaskPage(nr)).(task := k1.task[nr := p]);
      assert st.task == task[..] && st.cnt == mem_map[..];
      TaskPageFork(k, st, p, nr, cur, n);
    }

    /** The memory part of copy_process: a page for the child's task structure, a copy of which names the
        executable, then its space. It fails exactly if there are fewer free frames than these take. */
    method CopyProcess(nr: nat, cur: nat, dataLimit: nat) returns (ok: bool)
      requires Valid() && cur < NR_TASKS && 1 <= nr < NR_TASKS && nr != cur && NoTables(st, nr) && task[nr] == 0
      requires DirCount(dataLimit) <= (if cur == 0 then 1 else DIRS)
      modifies mem, mem_map, task, executable, `st
      ensures Valid() && (!ok <==> FreeCount(old(st)) < 1 + TablesIn(old(st), cur, DirCount(dataLimit)))
      ensures st == ProcessCopied(old(st), cur, nr, DirCount(dataLimit))
      ensures executable[..] == if ok then old(executable[..])[nr := old(executable[cur])] else old(executable[..])
      ensures ok ==> Forked(old(st), st, cur, nr, DirCount(dataLimit)) && OtherTables(old(st), st, nr)
      ensures ok ==> ShowsBelow(old(st), st, cur, nr, dataLimit) && KeptBeyond(old(st), st, nr, dataLimit)
      ensures ok ==> task[nr] != 0 && st.task == old(st.task)[nr := task[nr]]
      ensures ok ==> FreeCount(st) == FreeCount(old(st)) - 1 - TablesIn(old(st), cur, DirCount(dataLimit))
      ensures !ok ==> SameView(old(st), st) && st.cnt == old(st.cnt) && st.task == old(st.task) && NoTables(st, nr)
    {
      ghost var k := st;
      var p := NewTask(nr, cur, DirCount(dataLimit));
      if p == 0 {
        return false;
      }
      ghost var k2 := st;
      ok := CopyMem(nr, cur, dataLimit);
      if ok {
        ForkedAfter(k, k2, st, cur, nr, DirCount(dataLimit));
        ForkedBelow(k, st, cur, nr, dataLimit);
        executable[nr] := executable[cur];
        return;
      }
      DropTaskPage(nr);
    }

    /** task[nr] = NULL; free_page(p): the failed fork's way out, and release(). */
    method DropTaskPage(nr: nat)
      requires Valid() && 1 <= nr < NR_TASKS && task[nr] != 0
      modifies mem_map, task, `st
      ensures Valid() && SameView(old(st), st) && st.task == old(st.task)[nr := 0]
      ensures LOW <= old(st).task[nr] && st.cnt == Dropped(old(st.cnt), old(st).task[nr])
      ensures CountOf(old(st), old(st).task[nr]) == 1 && st == TaskGone(old(st), nr)
      ensures forall d | DIRS <= d < WORDS :: Dir(st, d) == Dir(old(st), d)
    {
      ghost var k := st;
      ClearTask(k, nr);
      var p := task[nr];
      task[nr] := 0;
      ghost var k1 := WithUse(k, p, 1, Held).(task := k.task[nr := 0]);
      Release(k1, p);
      FreePage(p);
      st := WithUse(k1, p, 0, Free);
      assert st.task == task[..];
      assert st.cnt == mem_map[..];
    }

    /** Both limits' worth of page tables go. */
    method ClearSpace(t: nat, codeLimit: nat, dataLimit: nat)
      requires Valid() && 1 <= t < NR_TASKS && DirCount(codeLimit) <= DIRS && DirCount(dataLimit) <= DIRS
      modifies mem, mem_map, `st
      ensures Valid() && FreeCount(st) >= FreeCount(old(st))
      ensures TablesFreed(old(st), st, t, SpaceSize(codeLimit, dataLimit))
      ensures EmptyBelow(st, t, codeLimit) && EmptyBelow(st, t, dataLimit)
      ensures KeptBeyond(old(st), st, t, if codeLimit < dataLimit then dataLimit else codeLimit)
      ensures st == SpaceGone(old(st), t, codeLimit, dataLimit)
    {
      ghost var k := st;
      FreePageTables(TASK_SIZE * t, codeLimit, t);
      ghost var k1 := st;
      FreePageTables(TASK_SIZE * t, dataLimit, t);
      TablesFreedTwice(k, k1, st, t, DirCount(codeLimit), DirCount(dataLimit));
      RemovedBoth(k, st, t, codeLimit, dataLimit);
    }

    /** The memory part of do_exit: the space goes, and the executable is let go. */
    method DoExit(t: nat, codeLimit: nat, dataLimit: nat)
      requires Valid() && 1 <= t < NR_TASKS && DirCount(codeLimit) <= DIRS && DirCount(dataLimit) <= DIRS
      modifies mem, mem_map, executable, `st
      ensures Valid() && TablesFreed(old(st), st, t, SpaceSize(codeLimit, dataLimit))
      ensures EmptyBelow(st, t, codeLimit) && EmptyBelow(st, t, dataLimit)
      ensures KeptBeyond(old(st), st, t, if codeLimit < dataLimit then dataLimit else codeLimit)
      ensures st == SpaceGone(old(st), t, codeLimit, dataLimit)
      ensures executable[..] == old(executable[..])[t := 0]
    {
      ClearSpace(t, codeLimit, dataLimit);
      executable[t] := 0;
    }

    /** The memory part of do_execve up to the new argument pages: another executable, and the old
        program's space goes. */
    method DoExec(t: nat, inode: nat, codeLimit: nat, dataLimit: nat)
      requires Valid() && 1 <= t < NR_TASKS && DirCount(codeLimit) <= DIRS && DirCount(dataLimit) <= DIRS
      modifies mem, mem_map, executable, `st
      ensures Valid() && TablesFreed(old(st), st, t, SpaceSize(codeLimit, dataLimit)) && FreeCount(st) >= FreeCount(old(st))
      ensures EmptyBelow(st, t, codeLimit) && EmptyBelow(st, t, dataLimit)
      ensures KeptBeyond(old(st), st, t, if codeLimit < dataLimit then dataLimit else codeLimit)
      ensures st == SpaceGone(old(st), t, codeLimit, dataLimit)
      ensures executable[..] == old(executable[..])[t := inode]
    {
      executable[t] := inode;
      ClearSpace(t, codeLimit, dataLimit);
    }
  }
}
