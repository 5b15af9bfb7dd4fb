/** The loops of memory.c as functions on snapshots, with what they do to the views and maps. */
module PageSpecs {
  import opened PageState
  import opened PageSteps
  import opened PageTheorems

  function ZeroPage(): seq<Word> {
    seq(WORDS, _ => ZERO)
  }

  /** From k to k' the first i pages below directory entry d are gone, and nothing else is seen to change. */
  ghost predicate Cleared(k: State, k': State, d: nat, i: nat) {
    forall x: Loc {:trigger PageAt(k', x)} | ValidLoc(x) :: PageAt(k', x) == if DirIndex(x) == d && x.i < i then Absent else PageAt(k, x)
  }

  /** From k to k' the pages below the first n directory entries of task t are gone, no others. */
  ghost predicate Removed(k: State, k': State, t: nat, n: nat) {
    forall x: Loc {:trigger PageAt(k', x)} | ValidLoc(x) :: PageAt(k', x) == if x.t == t && x.a < n then Absent else PageAt(k, x)
  }

  /** The counters after free_page(f): low frames are not counted. */
  function Dropped(cnt: seq<nat>, f: nat): seq<nat> {
    if LOW <= f < LOW + |cnt| && cnt[f - LOW] > 0 then cnt[f - LOW := cnt[f - LOW] - 1] else cnt
  }

  /** The place of entry i below directory entry d. */
  function Place(d: nat, i: nat): (x: Loc)
    ensures DirIndex(x) == d
    ensures DIRS <= d < WORDS && i < WORDS ==> ValidLoc(x) && x.t != 0
  {
    Loc(d / DIRS, d % DIRS, i)
  }

  /** Only the entry at x changed: no other entry's page, no directory entry, none of the frames
      that the kernel holds. */
  ghost predicate OneEntry(k: State, k': State, x: Loc) {
    && ValidLoc(x) && x.t != 0
    && Shape(k) && Shape(k') && |k'.mem| == |k.mem| && k'.task == k.task
    && (forall e | 0 <= e < WORDS :: Dir(k', e) == Dir(k, e))
    && (forall e, j | DIRS <= e < WORDS && 0 <= j < WORDS && (e != DirIndex(x) || j != x.i) ::
          Entry(k', e, j).present == Entry(k, e, j).present && Entry(k', e, j).page == Entry(k, e, j).page)
    && (forall f | LOW <= f < LOW + PAGING_PAGES ::
          UseOf(k', f).Held? == UseOf(k, f).Held? && UseOf(k', f).Reserved? == UseOf(k, f).Reserved?)
  }

  /** From k to k' the first nr entries below directory entry d were released. */
  ghost predicate FreedSoFar(k: State, k': State, d: nat, nr: nat) {
    && MapsKept(k, k', d / DIRS)
    && (forall e | DIRS <= e < WORDS :: Dir(k', e) == Dir(k, e))
    && (forall j | 0 <= j < nr :: !Entry(k', d, j).present)
    && Cleared(k, k', d, nr)
  }

  /** The state after entry nr below d was cleared, its page let go if there was one. */
  function Released(k: State, d: nat, nr: nat): State {
    if Entry(k, d, nr).present then Unmapped(k, Place(d, nr)) else WithEntry(k, d, nr, ZERO)
  }

  /** After the first n entries below d were released, one after the other. */
  function ReleasedN(k: State, d: nat, n: nat): State {
    if n == 0 then k else Released(ReleasedN(k, d, n - 1), d, n - 1)
  }

  lemma {:induction false} ReleasedAll(k: State, d: nat, n: nat)
    requires Inv(k) && DIRS <= d < WORDS && n <= WORDS && Dir(k, d).present
    ensures Inv(ReleasedN(k, d, n)) && FreedSoFar(k, ReleasedN(k, d, n), d, n)
  {
    if n == 0 {
    } else {
      ReleasedAll(k, d, n - 1);
      FreedStep(k, ReleasedN(k, d, n - 1), d, n - 1);
    }
  }

  /** The part of ReleasedAll that the loop needs. */
  lemma ReleasedKeeps(k: State, d: nat, n: nat)
    requires Inv(k) && DIRS <= d < WORDS && n <= WORDS && Dir(k, d).present
    ensures Inv(ReleasedN(k, d, n)) && Dir(ReleasedN(k, d, n), d) == Dir(k, d)
  {
    ReleasedAll(k, d, n);
  }

  /** The two stores that make up the release of one entry, and why free_page cannot panic there. */
  lemma ReleasedEntry(k: State, d: nat, nr: nat)
    requires Inv(k) && DIRS <= d < WORDS && nr < WORDS && Dir(k, d).present
    ensures InRam(k, Dir(k, d).page)
    ensures var t := Dir(k, d).page; var e := k.mem[t][nr];
      && (e.present && e.page >= LOW ==> InRam(k, e.page) && k.cnt[e.page - LOW] > 0)
      && Released(k, d, nr).task == k.task
      && Released(k, d, nr).mem == k.mem[t := k.mem[t][nr := ZERO]]
      && Released(k, d, nr).cnt == if e.present then Dropped(k.cnt, e.page) else k.cnt
  {
    assert DirOk(k, d);
    if Entry(k, d, nr).present {
      Unmap(k, Place(d, nr));
    }
  }

  lemma FreedStep(k0: State, k: State, d: nat, nr: nat)
    requires Inv(k) && DIRS <= d < WORDS && nr < WORDS && Dir(k0, d).present && FreedSoFar(k0, k, d, nr)
    ensures Inv(Released(k, d, nr)) && FreedSoFar(k0, Released(k, d, nr), d, nr + 1)
  {
    var x := Place(d, nr);
    var k' := Released(k, d, nr);
    assert DirOk(k, d);
    if Entry(k, d, nr).present {
      Unmap(k, x);
      UnmapKept(k, x);
    } else {
      MapLow(k, x, ZERO);
      ReplacedEntries(k, k', x, ZERO, 0);
    }
    KeptStep(k0, k, k', x);
    ClearStep(k0, k, k', x);
  }

  lemma ReleasedInv(k: State, d: nat, nr: nat)
    requires Inv(k) && DIRS <= d < WORDS && nr < WORDS && Dir(k, d).present
    ensures Inv(Released(k, d, nr))
  {
    if Entry(k, d, nr).present {
      Unmap(k, Place(d, nr));
    } else {
      MapLow(k, Place(d, nr), ZERO);
    }
  }

  lemma KeptStep(k0: State, k: State, k': State, x: Loc)
    requires MapsKept(k0, k, x.t) && OneEntry(k, k', x)
    ensures MapsKept(k0, k', x.t)
  {
    assert DirIndex(x) / DIRS == x.t;
  }

  lemma ClearStep(k0: State, k: State, k': State, x: Loc)
    requires ValidLoc(x) && Cleared(k0, k, DirIndex(x), x.i) && ViewSet(k, k', x, Absent)
    ensures Cleared(k0, k', DirIndex(x), x.i + 1)
  {
    forall y: Loc | ValidLoc(y)
      ensures PageAt(k', y) == if DirIndex(y) == DirIndex(x) && y.i < x.i + 1 then Absent else PageAt(k0, y)
    {
    }
  }

  /** Unmapping one entry of a task leaves every other task's mappings alone. */
  lemma UnmapKept(k: State, x: Loc)
    requires Inv(k) && ValidLoc(x) && x.t != 0 && EntryAt(k, x).present
    ensures OneEntry(k, Unmapped(k, x), x)
    ensures !EntryAt(Unmapped(k, x), x).present
  {
    assert EntryOk(k, DirIndex(x), x.i);
    var f := if EntryAt(k, x).page < LOW then 0 else EntryAt(k, x).page;
    if f != 0 {
      UnmapFrame(k, x);
    }
    ReplacedEntries(k, Unmapped(k, x), x, ZERO, f);
  }

  // ----- copy_page_tables -----

  /** From k to k' the first i pages below directory entry d show what those below pd show. */
  ghost predicate Mirrored(k: State, k': State, pd: nat, d: nat, i: nat) {
    forall x: Loc {:trigger PageAt(k', x)} | ValidLoc(x) ::
      PageAt(k', x) == if DirIndex(x) == d && x.i < i then PageAt(k, Place(pd, x.i)) else PageAt(k, x)
  }

  ghost predicate CopiedSoFar(k: State, k': State, pd: nat, d: nat, i: nat) {
    && MapsKept(k, k', d / DIRS)
    && (forall e | 0 <= e < WORDS :: Dir(k', e) == Dir(k, e))
    && (forall j | i <= j < WORDS :: !Entry(k', d, j).present)
    && Mirrored(k, k', pd, d, i)
  }

  /** One turn of the inner loop of copy_page_tables, from table pd to table d. */
  function CopiedEntry(k: State, pd: nat, d: nat, i: nat): State {
    var w := Entry(k, pd, i).(rw := false);
    if !w.present then k
    else if w.page < LOW then WithEntry(k, d, i, w)
    else Shared(WithEntry(k, pd, i, w), Place(d, i), w)
  }

  function CopiedN(k: State, pd: nat, d: nat, n: nat): State {
    if n == 0 then k else CopiedEntry(CopiedN(k, pd, d, n - 1), pd, d, n - 1)
  }

  /** Directory entry pd of one task can be copied to directory entry d of another. */
  ghost predicate Copyable(k: State, pd: nat, d: nat, n: nat) {
    && DIRS <= d < WORDS && Dir(k, d).present
    && (if pd == 0 then d % DIRS == 0 && n <= KERNEL_PAGES else DIRS <= pd < WORDS && n <= WORDS)
    && pd % DIRS == d % DIRS && pd / DIRS != d / DIRS
    && Dir(k, pd).present
  }

  lemma CopyStep(k: State, pd: nat, d: nat, i: nat)
    requires Inv(k) && Copyable(k, pd, d, i + 1) && !Entry(k, d, i).present
    ensures var k' := CopiedEntry(k, pd, d, i);
      && Inv(k')
      && OneEntry(k, k', Place(d, i))
      && ViewSet(k, k', Place(d, i), PageAt(k, Place(pd, i)))
  {
    var x, y := Place(d, i), Place(pd, i);
    var e := Entry(k, pd, i);
    var w := e.(rw := false);
    if !e.present {
    } else if w.page < LOW {
      MapLow(k, x, w);
      ReplacedEntries(k, CopiedEntry(k, pd, d, i), x, w, 0);
    } else {
      var k1 := WithEntry(k, pd, i, w);
      assert pd != 0;
      Protect(k, y);
      ReplacedEntries(k, k1, y, w, 0);
      Share(k1, x, y, w);
      ShareFrame(k1, x, y, w);
      ReplacedEntries(k1, Shared(k1, x, w), x, w, w.page);
    }
  }

  lemma {:induction false} CopiedAll(k: State, pd: nat, d: nat, n: nat)
    requires Inv(k) && Copyable(k, pd, d, n)
    requires forall j | 0 <= j < WORDS :: !Entry(k, d, j).present
    ensures Inv(CopiedN(k, pd, d, n)) && CopiedSoFar(k, CopiedN(k, pd, d, n), pd, d, n)
  {
    if n == 0 {
    } else {
      CopiedAll(k, pd, d, n - 1);
      CopiedStep(k, CopiedN(k, pd, d, n - 1), pd, d, n - 1);
    }
  }

  lemma CopiedStep(k0: State, k: State, pd: nat, d: nat, i: nat)
    requires Inv(k) && Copyable(k0, pd, d, i + 1) && CopiedSoFar(k0, k, pd, d, i)
    ensures Inv(CopiedEntry(k, pd, d, i)) && CopiedSoFar(k0, CopiedEntry(k, pd, d, i), pd, d, i + 1)
  {
    CopyStep(k, pd, d, i);
    KeptStep(k0, k, CopiedEntry(k, pd, d, i), Place(d, i));
    MirrorStep(k0, k, CopiedEntry(k, pd, d, i), pd, d, i);
  }

  /** The part of CopiedAll that the loop needs. */
  lemma CopiedKeeps(k: State, pd: nat, d: nat, n: nat)
    requires Inv(k) && Copyable(k, pd, d, n)
    requires forall j | 0 <= j < WORDS :: !Entry(k, d, j).present
    ensures Inv(CopiedN(k, pd, d, n))
    ensures Dir(CopiedN(k, pd, d, n), d) == Dir(k, d) && Dir(CopiedN(k, pd, d, n), pd) == Dir(k, pd)
    ensures n < WORDS ==> !Entry(CopiedN(k, pd, d, n), d, n).present
  {
    CopiedAll(k, pd, d, n);
  }

  lemma StillCopyable(k: State, pd: nat, d: nat, n: nat)
    requires Inv(k) && Copyable(k, pd, d, n + 1) && forall j | 0 <= j < WORDS :: !Entry(k, d, j).present
    ensures var k' := CopiedN(k, pd, d, n); Inv(k') && Copyable(k', pd, d, n + 1) && !Entry(k', d, n).present
  {
    CopiedKeeps(k, pd, d, n);
  }

  lemma DirsKept(k: State, pd: nat, d: nat, n: nat)
    requires Inv(k) && Copyable(k, pd, d, n) && forall j | 0 <= j < WORDS :: !Entry(k, d, j).present
    ensures Dir(CopiedN(k, pd, d, n), d) == Dir(k, d) && Dir(CopiedN(k, pd, d, n), pd) == Dir(k, pd)
  {
    CopiedKeeps(k, pd, d, n);
  }

  lemma MirrorStep(k0: State, k: State, k': State, pd: nat, d: nat, i: nat)
    requires DIRS <= d < WORDS && i < WORDS && pd / DIRS != d / DIRS && pd < WORDS
    requires Mirrored(k0, k, pd, d, i) && ViewSet(k, k', Place(d, i), PageAt(k, Place(pd, i)))
    ensures Mirrored(k0, k', pd, d, i + 1)
  {
    assert PageAt(k, Place(pd, i)) == PageAt(k0, Place(pd, i));
    forall x: Loc | ValidLoc(x)
      ensures PageAt(k', x) == if DirIndex(x) == d && x.i < i + 1 then PageAt(k0, Place(pd, x.i)) else PageAt(k0, x)
    {
    }
  }

  // ----- whole ranges of directory entries -----

  /** The first n tables of task t are gone, and with them what the task saw there. */
  ghost predicate TablesFreed(k: State, k': State, t: nat, n: nat) {
    && MapsKept(k, k', t)
    && Removed(k, k', t, n)
    && (forall d | DIRS <= d < WORDS && d / DIRS == t :: if d % DIRS < n then !Dir(k', d).present else Dir(k', d) == Dir(k, d))
  }

  lemma TableFreed(k0: State, k: State, k': State, t: nat, n: nat)
    requires 1 <= t < NR_TASKS && n < DIRS && TablesFreed(k0, k, t, n)
    requires MapsKept(k, k', t) && Cleared(k, k', DIRS * t + n, WORDS) && !Dir(k', DIRS * t + n).present
    requires forall e | DIRS <= e < WORDS && e != DIRS * t + n :: Dir(k', e) == Dir(k, e)
    ensures TablesFreed(k0, k', t, n + 1)
  {
    forall x: Loc | ValidLoc(x)
      ensures PageAt(k', x) == if x.t == t && x.a < n + 1 then Absent else PageAt(k0, x)
    {
      assert DirIndex(x) == DIRS * t + n <==> x.t == t && x.a == n;
    }
  }

  lemma NoTableToFree(k: State, d: nat)
    requires !Dir(k, d).present
    ensures Cleared(k, k, d, WORDS)
  {
  }

  /** Task c shows what task p shows in the first n tables' worth of its space. */
  ghost predicate TablesCopied(k: State, k': State, p: nat, c: nat, n: nat) {
    && MapsKept(k, k', c)
    && (forall x: Loc {:trigger PageAt(k', x)} | ValidLoc(x) ::
          PageAt(k', x) == if x.t == c && x.a < n then PageAt(k, Loc(p, x.a, x.i)) else PageAt(k, x))
    && (forall d | DIRS <= d < WORDS && d / DIRS == c && d % DIRS >= n :: Dir(k', d) == Dir(k, d))
  }

  /** One more table was copied, or there was none to copy. */
  lemma TableCopied(k0: State, k: State, k': State, p: nat, c: nat, n: nat)
    requires p < NR_TASKS && 1 <= c < NR_TASKS && p != c && n < DIRS && TablesCopied(k0, k, p, c, n)
    requires MapsKept(k, k', c)
    requires forall x: Loc | ValidLoc(x) ::
               PageAt(k', x) == if x.t == c && x.a == n then PageAt(k, Loc(p, n, x.i)) else PageAt(k, x)
    requires forall e | DIRS <= e < WORDS && e != DIRS * c + n :: Dir(k', e) == Dir(k, e)
    ensures TablesCopied(k0, k', p, c, n + 1)
  {
    forall x: Loc | ValidLoc(x)
      ensures PageAt(k', x) == if x.t == c && x.a < n + 1 then PageAt(k0, Loc(p, x.a, x.i)) else PageAt(k0, x)
    {
      assert PageAt(k, Loc(p, x.a, x.i)) == PageAt(k0, Loc(p, x.a, x.i));
    }
  }

  /** A copy that is taken back, complete or not, leaves every counter and every view as it was. */
  lemma UndoneCopy(k0: State, k: State, k': State, p: nat, c: nat, m: nat, n: nat)
    requires Inv(k0) && Inv(k') && p < NR_TASKS && 1 <= c < NR_TASKS && p != c && m <= n <= DIRS
    requires NoTables(k0, c) && TablesCopied(k0, k, p, c, m) && TablesFreed(k, k', c, n)
    ensures k'.cnt == k0.cnt && SameView(k0, k') && NoTables(k', c)
  {
    assert MapsKept(k0, k', c);
    forall x: Loc | ValidLoc(x)
      ensures PageAt(k', x) == PageAt(k0, x)
    {
      if x.t == c {
        assert !Dir(k0, DirIndex(x)).present;
      }
    }
    CountersDetermined(k0, k', c);
  }

  /** Directory entry d has a page table, an empty one if it had none; nothing is seen to change. */
  ghost predicate TableAdded(k: State, k': State, d: nat) {
    && Shape(k) && Shape(k') && |k'.mem| == |k.mem| && k'.task == k.task
    && Dir(k', d).present
    && (forall e | 0 <= e < WORDS && e != d :: Dir(k', e) == Dir(k, e))
    && (forall e, j | DIRS <= e < WORDS && 0 <= j < WORDS :: Entry(k', e, j) == Entry(k, e, j))
    && (forall f | LOW <= f < LOW + PAGING_PAGES ::
          UseOf(k', f).Held? == UseOf(k, f).Held? && UseOf(k', f).Reserved? == UseOf(k, f).Reserved?)
    && (forall f | LOW <= f < |k.mem| && UseOf(k, f).Held? :: k'.mem[f] == k.mem[f])
    && SameView(k, k')
  }

  /** get_free_page followed by storing the table's address in the directory. */
  function WithTable(k: State, d: nat, f: nat): State {
    WithUse(WithDir(WithUse(WithFrame(k, f, ZeroPage()), f, 1, Held), d, Entry7(f)), f, 1, Table(d))
  }

  lemma AddTable(k: State, d: nat, f: nat)
    requires Inv(k) && DIRS <= d < WORDS && !Dir(k, d).present && InRam(k, f) && UseOf(k, f).Free?
    ensures Inv(WithTable(k, d, f)) && TableAdded(k, WithTable(k, d, f), d)
    ensures Dir(WithTable(k, d, f), d).page == f
  {
    Alloc(k, f, ZeroPage());
    var k1 := WithUse(WithFrame(k, f, ZeroPage()), f, 1, Held);
    LinkTable(k1, d, f);
  }

  lemma AddThenCopy(k0: State, k: State, k': State, pd: nat, d: nat, n: nat)
    requires TableAdded(k0, k, d) && DIRS <= d < WORDS && pd < WORDS && CopiedSoFar(k, k', pd, d, n)
    ensures Mirrored(k0, k', pd, d, n) && MapsKept(k0, k', d / DIRS)
    ensures forall e | DIRS <= e < WORDS && e != d :: Dir(k', e) == Dir(k0, e)
  {
    forall x: Loc | ValidLoc(x)
      ensures PageAt(k', x) == if DirIndex(x) == d && x.i < n then PageAt(k0, Place(pd, x.i)) else PageAt(k0, x)
    {
      if x.i < n {
        assert PageAt(k, Place(pd, x.i)) == PageAt(k0, Place(pd, x.i));
      }
    }
  }

  // ----- un_wp_page and put_page -----

  /** The words behind a present entry. */
  function Content(k: State, x: Loc): seq<Word> {
    if EntryAt(k, x).page < |k.mem| then k.mem[EntryAt(k, x).page] else []
  }

  /** The kernel's own low frames, page directory included, are untouched. */
  ghost predicate LowKept(k: State, k': State) {
    |k'.mem| == |k.mem| > LOW && k'.mem[..LOW] == k.mem[..LOW]
  }

  /** Entry x now names a page of its own, writable, with the words it had; no other entry changed. */
  ghost predicate Privatized(k: State, k': State, x: Loc) {
    && LowKept(k, k')
    && EntryAt(k', x).present && EntryAt(k', x).rw
    && ViewSet(k, k', x, Own(Content(k, x)))
    && OneEntry(k, k', x)
    && (forall e, j | DIRS <= e < WORDS && 0 <= j < WORDS && (e != DirIndex(x) || j != x.i) ::
          Entry(k', e, j) == Entry(k, e, j))
  }

  lemma GrantPrivatizes(k: State, x: Loc)
    requires Inv(k) && ValidLoc(x) && x.t != 0 && EntryAt(k, x).present
    requires LOW <= EntryAt(k, x).page && CountOf(k, EntryAt(k, x).page) == 1
    ensures var k' := WithEntry(k, DirIndex(x), x.i, EntryAt(k, x).(rw := true));
      Inv(k') && Privatized(k, k', x)
  {
    var w := EntryAt(k, x).(rw := true);
    assert EntryOk(k, DirIndex(x), x.i) && DirOk(k, DirIndex(x));
    Grant(k, x);
    ReplacedEntries(k, WithEntry(k, DirIndex(x), x.i, w), x, w, 0);
  }

  /** The state after un_wp_page copied the page of x to the fresh frame f. */
  function CopyOnWrite(k: State, x: Loc, f: nat): State {
    Mapped(Unmapped(WithFrame(k, f, Content(k, x)), x), x, f)
  }

  lemma HeldStays(k: State, x: Loc, f: nat)
    requires Inv(k) && ValidLoc(x) && x.t != 0 && EntryAt(k, x).present && InRam(k, f) && UseOf(k, f).Held?
    ensures UseOf(Unmapped(k, x), f).Held? && Unmapped(k, x).mem[f] == k.mem[f]
    ensures forall e, j | DIRS <= e < WORDS && 0 <= j < WORDS && (e != DirIndex(x) || j != x.i) ::
              Entry(Unmapped(k, x), e, j) == Entry(k, e, j)
  {
    assert EntryOk(k, DirIndex(x), x.i) && DirOk(k, DirIndex(x));
    var e := EntryAt(k, x);
    if e.page >= LOW {
      UnmapFrame(k, x);
    }
    ReplacedEntries(k, Unmapped(k, x), x, ZERO, if e.page < LOW then 0 else e.page);
  }

  /** The new frame, filled. */
  lemma CopyFilled(k0: State, k: State, k1: State, x: Loc, f: nat)
    requires Inv(k0) && InRam(k0, f) && UseOf(k0, f).Free?
    requires k == WithUse(WithFrame(k0, f, ZeroPage()), f, 1, Held)
    requires ValidLoc(x) && x.t != 0 && EntryAt(k0, x).present && k1 == WithFrame(k, f, Content(k0, x))
    ensures Inv(k) && Content(k, x) == Content(k0, x)
    ensures Inv(k1) && InRam(k1, f) && UseOf(k1, f).Held? && k1.mem[f] == Content(k0, x)
    ensures SameView(k0, k1) && LowKept(k0, k1) && k1.task == k0.task
    ensures forall d | 0 <= d < WORDS :: Dir(k1, d) == Dir(k0, d)
    ensures forall d, i | DIRS <= d < WORDS && 0 <= i < WORDS :: Entry(k1, d, i) == Entry(k0, d, i)
    ensures forall g | LOW <= g < LOW + PAGING_PAGES :: UseOf(k1, g) == if g == f then Held else UseOf(k0, g)
  {
    assert EntryOk(k0, DirIndex(x), x.i) && DirOk(k0, DirIndex(x));
    Alloc(k0, f, ZeroPage());
    assert Content(k, x) == Content(k0, x);
    Fill(k, f, Content(k, x));
  }

  /** Entry x comes to show frame f. */
  lemma Remapped(k1: State, k': State, x: Loc, f: nat)
    requires Inv(k1) && ValidLoc(x) && x.t != 0 && EntryAt(k1, x).present && InRam(k1, f) && UseOf(k1, f).Held?
    requires k' == Mapped(Unmapped(k1, x), x, f)
    ensures Inv(k') && ViewSet(k1, k', x, Own(k1.mem[f])) && LowKept(k1, k') && k'.task == k1.task
    ensures forall d | 0 <= d < WORDS :: Dir(k', d) == Dir(k1, d)
    ensures forall e, j | DIRS <= e < WORDS && 0 <= j < WORDS ::
      Entry(k', e, j) == if e == DirIndex(x) && j == x.i then Entry7(f) else Entry(k1, e, j)
    ensures forall g | LOW <= g < LOW + PAGING_PAGES ::
      UseOf(k', g).Held? == (g != f && UseOf(k1, g).Held?) && UseOf(k', g).Reserved? == UseOf(k1, g).Reserved?
  {
    var k2 := Unmapped(k1, x);
    assert EntryOk(k1, DirIndex(x), x.i) && DirOk(k1, DirIndex(x));
    Unmap(k1, x);
    UnmapKept(k1, x);
    HeldStays(k1, x, f);
    MapNew(k2, x, f);
    MapFrame(k2, x, f);
    ReplacedEntries(k2, k', x, Entry7(f), f);
  }

  lemma CopyPrivatizes(k0: State, k: State, x: Loc, f: nat)
    requires Inv(k0) && InRam(k0, f) && UseOf(k0, f).Free?
    requires k == WithUse(WithFrame(k0, f, ZeroPage()), f, 1, Held)
    requires ValidLoc(x) && x.t != 0 && EntryAt(k0, x).present
    requires EntryAt(k0, x).page < LOW || CountOf(k0, EntryAt(k0, x).page) > 1
    ensures Inv(k) && Inv(CopyOnWrite(k, x, f)) && Privatized(k0, CopyOnWrite(k, x, f), x)
  {
    var k1, k' := WithFrame(k, f, Content(k0, x)), CopyOnWrite(k, x, f);
    CopyFilled(k0, k, k1, x, f);
    Remapped(k1, k', x, f);
  }

  /** A kernel frame seen at x becomes a private copy; a page of its own, or no page, stays. */
  function Materialized(k: State, x: Loc): Page {
    if PageAt(k, x).Kernel? then Own(Content(k, x)) else PageAt(k, x)
  }

  /** The page at x after word j of it was replaced. */
  function Stored(k: State, x: Loc, j: nat, v: Word): Page {
    if j < |Content(k, x)| then Own(Content(k, x)[j := v]) else PageAt(k, x)
  }

  lemma PrivateIsMaterialized(k: State, k': State, x: Loc)
    requires Inv(k) && ValidLoc(x) && x.t != 0 && EntryAt(k, x).present && Privatized(k, k', x)
    ensures ViewSet(k, k', x, Materialized(k, x))
  {
    assert EntryOk(k, DirIndex(x), x.i);
  }

  /** put_page at an absent entry whose table exists. */
  lemma PutMaps(k: State, x: Loc, f: nat)
    requires Inv(k) && ValidLoc(x) && x.t != 0 && Dir(k, DirIndex(x)).present && !EntryAt(k, x).present
    requires InRam(k, f) && UseOf(k, f).Held?
    ensures Dir(k, DirIndex(x)).page < |k.mem|
    ensures Inv(Mapped(k, x, f)) && ViewSet(k, Mapped(k, x, f), x, Own(k.mem[f]))
    ensures CountOf(k, f) == 1 && Mapped(k, x, f).cnt == k.cnt && Mapped(k, x, f).task == k.task
  {
    assert DirOk(k, DirIndex(x)) && FrameOk(k, f);
    MapNew(k, x, f);
  }

  /** The state after try_to_share write-protected entry y and gave entry x the same word. */
  function SharedFrom(k: State, x: Loc, y: Loc): State {
    Shared(WithEntry(k, DirIndex(y), y.i, EntryAt(k, y).(rw := false)), x, EntryAt(k, y).(rw := false))
  }

  lemma ShareMaps(k: State, x: Loc, y: Loc)
    requires Inv(k) && ValidLoc(x) && x.t != 0 && Dir(k, DirIndex(x)).present && !EntryAt(k, x).present
    requires ValidLoc(y) && y.t != 0 && y.a == x.a && y.i == x.i
    requires EntryAt(k, y).present && LOW <= EntryAt(k, y).page
    ensures Inv(SharedFrom(k, x, y)) && ViewSet(k, SharedFrom(k, x, y), x, PageAt(k, y)) && PageAt(k, y).Own?
    ensures var f, t := Dir(k, DirIndex(y)).page, Dir(k, DirIndex(x)).page;
      && f < |k.mem| && t < |k.mem| && f != t
      && var w := k.mem[f][x.i].(rw := false); var k' := SharedFrom(k, x, y);
      && w == EntryAt(k, y).(rw := false) && InRam(k, w.page)
      && k'.task == k.task
      && k'.mem == k.mem[f := k.mem[f][x.i := w]][t := k.mem[t][x.i := w]]
      && k'.cnt == k.cnt[w.page - LOW := k.cnt[w.page - LOW] + 1]
  {
    assert DirOk(k, DirIndex(x)) && DirOk(k, DirIndex(y)) && EntryOk(k, DirIndex(y), y.i);
    var w := EntryAt(k, y).(rw := false);
    var k1 := WithEntry(k, DirIndex(y), y.i, w);
    Protect(k, y);
    ReplacedEntries(k, k1, y, w, 0);
    Share(k1, x, y, w);
  }

  /** The other entries name what they named. */
  lemma ShareEntries(k: State, x: Loc, y: Loc)
    requires Inv(k) && ValidLoc(x) && x.t != 0 && Dir(k, DirIndex(x)).present && !EntryAt(k, x).present
    requires ValidLoc(y) && y.t != 0 && y.a == x.a && y.i == x.i
    requires EntryAt(k, y).present && LOW <= EntryAt(k, y).page
    ensures EntryAt(SharedFrom(k, x, y), x) == EntryAt(k, y).(rw := false)
    ensures forall z: Loc | ValidLoc(z) && z.t != 0 && z != x ::
      EntryAt(SharedFrom(k, x, y), z).present == EntryAt(k, z).present && EntryAt(SharedFrom(k, x, y), z).page == EntryAt(k, z).page
  {
    assert DirOk(k, DirIndex(x)) && DirOk(k, DirIndex(y)) && EntryOk(k, DirIndex(y), y.i);
    var w := EntryAt(k, y).(rw := false);
    var k1 := WithEntry(k, DirIndex(y), y.i, w);
    Protect(k, y);
    ReplacedEntries(k, k1, y, w, 0);
    ShareFrame(k1, x, y, w);
    ReplacedEntries(k1, Shared(k1, x, w), x, w, w.page);
  }

  lemma TablesFreedTwice(k0: State, k: State, k': State, t: nat, m: nat, n: nat)
    requires 1 <= t < NR_TASKS && m <= DIRS && n <= DIRS
    requires TablesFreed(k0, k, t, m) && TablesFreed(k, k', t, n)
    ensures TablesFreed(k0, k', t, if m < n then n else m)
  {
    forall x: Loc | ValidLoc(x)
      ensures PageAt(k', x) == if x.t == t && x.a < (if m < n then n else m) then Absent else PageAt(k0, x)
    {
    }
  }

  // ----- verify_area -----

  /** The number of a page in the linear address space, and the place of page n. */
  function PageNo(x: Loc): nat {
    WORDS * DirIndex(x) + x.i
  }

  function PlaceOfPage(n: nat): Loc {
    Place(n / WORDS, n % WORDS)
  }

  /** How many pages `total` bytes span, from the start of the first. */
  function Pages(total: int): nat {
    if total <= 0 then 0 else (total - 1) / 4096 + 1
  }

  /** The linear pages lo to hi take stores without a write fault; nothing else changed. */
  ghost predicate AreaVerified(k: State, k': State, lo: nat, hi: nat) {
    && LowKept(k, k')
    && forall y: Loc {:trigger PageAt(k', y)} {:trigger EntryAt(k', y)} | ValidLoc(y) && y.t != 0 ::
      if lo <= PageNo(y) < hi then
        (EntryAt(k', y).present ==> EntryAt(k', y).rw) && PageAt(k', y) == Materialized(k, y)
      else
        EntryAt(k', y) == EntryAt(k, y) && PageAt(k', y) == PageAt(k, y)
  }
}
