/** Every elementary change that memory.c makes keeps the invariant; each lemma also says what
    the change does to the tasks' views. */
module PageSteps {
  import opened PageState

  lemma SameSharers(k: State, k': State, a: nat, i: nat, f: nat)
    requires Shape(k) && Shape(k') && a < DIRS && i < WORDS
    requires forall t | 1 <= t < NR_TASKS :: Names(k', t, a, i, f) == Names(k, t, a, i, f)
    ensures Sharers(k', a, i, f) == Sharers(k, a, i, f)
  {
  }

  /** Task 0's table is untouched when its frame and its directory entry are. */
  lemma KernelKept(k: State, k': State)
    requires Shape(k) && KernelOk(k) && Shape(k')
    requires Dir(k', 0) == Dir(k, 0) && k'.mem[Dir(k, 0).page] == k.mem[Dir(k, 0).page]
    ensures KernelOk(k')
    ensures forall x: Loc | ValidLoc(x) && x.t == 0 :: PageAt(k', x) == PageAt(k, x)
  {
    assert forall i | 0 <= i < KERNEL_PAGES :: Entry(k', 0, i) == Entry(k, 0, i);
    forall x: Loc | ValidLoc(x) && x.t == 0
      ensures PageAt(k', x) == PageAt(k, x)
    {
      if x.a == 0 && x.i < KERNEL_PAGES {
        assert EntryAt(k', x) == Entry(k, 0, x.i);
      }
    }
  }

  lemma TasksKept(k: State, k': State, f: nat)
    requires Inv(k) && Shape(k') && |k'.mem| == |k.mem| && k'.task == k.task
    requires f != 0 ==> LOW <= f < LOW + PAGING_PAGES && !UseOf(k, f).TaskPage?
    requires forall g | LOW <= g < LOW + PAGING_PAGES && g != f :: UseOf(k', g) == UseOf(k, g)
    ensures forall t | 1 <= t < NR_TASKS :: TaskOk(k', t)
  {
    forall t | 1 <= t < NR_TASKS
      ensures TaskOk(k', t)
    {
      assert TaskOk(k, t);
    }
  }

  /** A change confined to a frame that the kernel holds or that is free is seen by nobody. */
  lemma UnseenFrame(k: State, k': State, f: nat)
    requires Inv(k) && InRam(k, f) && (UseOf(k, f).Free? || UseOf(k, f).Held?)
    requires Shape(k') && |k'.mem| == |k.mem| && k'.task == k.task
    requires forall g | 0 <= g < |k.mem| && g != f :: k'.mem[g] == k.mem[g]
    requires forall g | LOW <= g < LOW + PAGING_PAGES && g != f :: CountOf(k', g) == CountOf(k, g) && UseOf(k', g) == UseOf(k, g)
    requires (UseOf(k', f).Free? && CountOf(k', f) == 0) || (UseOf(k', f).Held? && CountOf(k', f) == 1)
    ensures Inv(k')
    ensures forall d, i | DIRS <= d < WORDS && 0 <= i < WORDS :: Entry(k', d, i) == Entry(k, d, i)
    ensures SameView(k, k')
  {
    forall d | DIRS <= d < WORDS
      ensures DirOk(k', d) && Dir(k', d) == Dir(k, d)
    {
      assert DirOk(k, d);
    }
    forall d, i | DIRS <= d < WORDS && 0 <= i < WORDS
      ensures Entry(k', d, i) == Entry(k, d, i) && EntryOk(k', d, i)
    {
      assert DirOk(k, d);
      assert EntryOk(k, d, i);
    }
    forall g | LOW <= g < LOW + PAGING_PAGES
      ensures FrameOk(k', g)
    {
      assert FrameOk(k, g);
      if UseOf(k, g).User? && g != f {
        SameSharers(k, k', UseOf(k, g).a, UseOf(k, g).i, g);
      }
    }
    TasksKept(k, k', f);
    KernelKept(k, k');
    forall x: Loc | ValidLoc(x)
      ensures PageAt(k', x) == PageAt(k, x)
    {
      if x.t != 0 {
        assert EntryOk(k, DirIndex(x), x.i);
      }
    }
  }

  /** get_free_page: a free frame, zeroed and marked used, is held by the kernel. */
  lemma Alloc(k: State, f: nat, zeros: seq<Word>)
    requires Inv(k) && InRam(k, f) && UseOf(k, f).Free? && |zeros| == WORDS
    ensures var k' := WithUse(WithFrame(k, f, zeros), f, 1, Held);
      && Inv(k') && SameView(k, k')
      && (forall d | DIRS <= d < WORDS :: Dir(k', d) == Dir(k, d))
      && (forall d, i | DIRS <= d < WORDS && 0 <= i < WORDS :: Entry(k', d, i) == Entry(k, d, i))
  {
    UnseenFrame(k, WithUse(WithFrame(k, f, zeros), f, 1, Held), f);
  }

  /** free_page on a frame that only the kernel holds. */
  lemma Release(k: State, f: nat)
    requires Inv(k) && InRam(k, f) && UseOf(k, f).Held?
    ensures CountOf(k, f) == 1
    ensures var k' := WithUse(k, f, 0, Free);
      && Inv(k') && SameView(k, k')
      && (forall d | DIRS <= d < WORDS :: Dir(k', d) == Dir(k, d))
      && (forall d, i | DIRS <= d < WORDS && 0 <= i < WORDS :: Entry(k', d, i) == Entry(k, d, i))
  {
    assert FrameOk(k, f);
    UnseenFrame(k, WithUse(k, f, 0, Free), f);
  }

  /** The kernel fills a frame that it holds. */
  lemma Fill(k: State, f: nat, words: seq<Word>)
    requires Inv(k) && InRam(k, f) && UseOf(k, f).Held? && |words| == WORDS
    ensures var k' := WithFrame(k, f, words);
      && Inv(k') && SameView(k, k')
      && (forall d | DIRS <= d < WORDS :: Dir(k', d) == Dir(k, d))
      && (forall d, i | DIRS <= d < WORDS && 0 <= i < WORDS :: Entry(k', d, i) == Entry(k, d, i))
  {
    assert FrameOk(k, f);
    UnseenFrame(k, WithFrame(k, f, words), f);
  }

  /** A held frame becomes a task's own page, or the page goes back to the kernel. */
  lemma SetTask(k: State, t: nat, f: nat)
    requires Inv(k) && 1 <= t < NR_TASKS && TaskPageOf(k, t) == 0 && InRam(k, f) && UseOf(k, f).Held?
    ensures var k' := WithUse(k, f, 1, TaskPage(t)).(task := k.task[t := f]);
      Inv(k') && SameView(k, k')
  {
    var k' := WithUse(k, f, 1, TaskPage(t)).(task := k.task[t := f]);
    forall s | 1 <= s < NR_TASKS
      ensures TaskOk(k', s)
    {
      assert TaskOk(k, s);
    }
    KeepsEntries(k, k', f);
  }

  lemma ClearTask(k: State, t: nat)
    requires Inv(k) && 1 <= t < NR_TASKS && TaskPageOf(k, t) != 0
    ensures InRam(k, TaskPageOf(k, t)) && CountOf(k, TaskPageOf(k, t)) == 1
    ensures var k' := WithUse(k, TaskPageOf(k, t), 1, Held).(task := k.task[t := 0]);
      Inv(k') && SameView(k, k')
  {
    assert TaskOk(k, t) && FrameOk(k, TaskPageOf(k, t));
    var k' := WithUse(k, TaskPageOf(k, t), 1, Held).(task := k.task[t := 0]);
    forall s | 1 <= s < NR_TASKS
      ensures TaskOk(k', s)
    {
      assert TaskOk(k, s);
      if TaskPageOf(k, s) != 0 {
        assert FrameOk(k, TaskPageOf(k, s));
      }
    }
    KeepsEntries(k, k', TaskPageOf(k, t));
  }

  /** Changing only the bookkeeping of one frame that is in no page table and not a user page. */
  lemma KeepsEntries(k: State, k': State, f: nat)
    requires Inv(k) && InRam(k, f) && (UseOf(k, f).Held? || UseOf(k, f).TaskPage?)
    requires Shape(k') && k'.mem == k.mem
    requires forall g | LOW <= g < LOW + PAGING_PAGES && g != f :: CountOf(k', g) == CountOf(k, g) && UseOf(k', g) == UseOf(k, g)
    requires FrameOk(k', f)
    requires UseOf(k', f).Held? || UseOf(k', f).TaskPage?
    requires forall t | 1 <= t < NR_TASKS :: TaskOk(k', t)
    requires forall g | LOW <= g < LOW + PAGING_PAGES && g != f && UseOf(k, g).TaskPage? && FrameOk(k, g) :: FrameOk(k', g)
    ensures Inv(k') && SameView(k, k')
  {
    forall d | DIRS <= d < WORDS
      ensures DirOk(k', d)
    {
      assert DirOk(k, d);
    }
    forall d, i | DIRS <= d < WORDS && 0 <= i < WORDS
      ensures EntryOk(k', d, i)
    {
      assert EntryOk(k, d, i);
    }
    forall g | LOW <= g < LOW + PAGING_PAGES
      ensures FrameOk(k', g)
    {
      assert FrameOk(k, g);
      if UseOf(k, g).User? {
        SameSharers(k, k', UseOf(k, g).a, UseOf(k, g).i, g);
      }
    }
    KernelKept(k, k');
    forall x: Loc | ValidLoc(x)
      ensures PageAt(k', x) == PageAt(k, x)
    {
    }
  }

  /** A zeroed held frame becomes the page table of an empty directory entry. */
  lemma LinkTable(k: State, d: nat, f: nat)
    requires Inv(k) && DIRS <= d < WORDS && !Dir(k, d).present
    requires InRam(k, f) && UseOf(k, f).Held? && k.mem[f] == seq(WORDS, _ => ZERO)
    ensures var k' := WithUse(WithDir(k, d, Entry7(f)), f, 1, Table(d));
      && Inv(k')
      && (forall e, j | DIRS <= e < WORDS && 0 <= j < WORDS :: Entry(k', e, j) == Entry(k, e, j))
      && SameView(k, k')
  {
    var k' := WithUse(WithDir(k, d, Entry7(f)), f, 1, Table(d));
    DirChange(k, k', d, f);
  }

  /** A page table without present entries is unlinked and its frame freed. */
  lemma UnlinkTable(k: State, d: nat)
    requires Inv(k) && DIRS <= d < WORDS && Dir(k, d).present
    requires forall j | 0 <= j < WORDS :: !Entry(k, d, j).present
    ensures InRam(k, Dir(k, d).page) && CountOf(k, Dir(k, d).page) == 1
    ensures var k' := WithUse(WithDir(k, d, ZERO), Dir(k, d).page, 0, Free);
      && Inv(k')
      && (forall e, j | DIRS <= e < WORDS && 0 <= j < WORDS && e != d :: Entry(k', e, j) == Entry(k, e, j))
      && SameView(k, k')
  {
    var f := Dir(k, d).page;
    assert DirOk(k, d) && FrameOk(k, f);
    var k' := WithUse(WithDir(k, d, ZERO), f, 0, Free);
    DirChange(k, k', d, f);
  }

  /** Only directory entry d and the bookkeeping of frame f change, and no entry below d is
      present before or after. */
  ghost predicate DirReplaced(k: State, k': State, d: nat, f: nat)
  {
    && DIRS <= d < WORDS && InRam(k, f)
    && (if UseOf(k, f).Held? then !Dir(k, d).present else UseOf(k, f) == Table(d))
    && Shape(k') && |k'.mem| == |k.mem| && k'.task == k.task
    && (forall g | 1 <= g < |k.mem| :: k'.mem[g] == k.mem[g])
    && (forall e | 0 <= e < WORDS && e != d :: Dir(k', e) == Dir(k, e))
    && (forall g | LOW <= g < LOW + PAGING_PAGES && g != f :: CountOf(k', g) == CountOf(k, g) && UseOf(k', g) == UseOf(k, g))
    && (forall j | 0 <= j < WORDS :: !Entry(k, d, j).present && !Entry(k', d, j).present)
  }

  lemma DirFrames(k: State, k': State, d: nat, f: nat, g: nat)
    requires Inv(k) && DirReplaced(k, k', d, f) && LOW <= g < LOW + PAGING_PAGES && g != f
    ensures FrameOk(k', g)
  {
    assert FrameOk(k, g) && FrameOk(k, f);
    match UseOf(k, g)
    case User(a, i) =>
      forall t | 1 <= t < NR_TASKS
        ensures Names(k', t, a, i, g) == Names(k, t, a, i, g)
      {
        assert DirOk(k, DIRS * t + a);
      }
      SameSharers(k, k', a, i, g);
    case _ =>
  }

  lemma DirChange(k: State, k': State, d: nat, f: nat)
    requires Inv(k) && DirReplaced(k, k', d, f)
    requires DirOk(k', d) && FrameOk(k', f) && (UseOf(k', f).Free? || UseOf(k', f) == Table(d))
    ensures Inv(k')
    ensures forall e, j | DIRS <= e < WORDS && 0 <= j < WORDS && e != d :: Entry(k', e, j) == Entry(k, e, j)
    ensures SameView(k, k')
  {
    forall e | DIRS <= e < WORDS
      ensures DirOk(k', e)
    {
      assert DirOk(k, e);
    }
    forall e, j | DIRS <= e < WORDS && 0 <= j < WORDS
      ensures EntryOk(k', e, j) && (e != d ==> Entry(k', e, j) == Entry(k, e, j))
    {
      assert EntryOk(k, e, j) && DirOk(k, e);
    }
    forall g | LOW <= g < LOW + PAGING_PAGES && g != f
      ensures FrameOk(k', g)
    {
      DirFrames(k, k', d, f, g);
    }
    TasksKept(k, k', f);
    DirViews(k, k', d, f);
  }

  lemma DirViews(k: State, k': State, d: nat, f: nat)
    requires Inv(k) && DirReplaced(k, k', d, f)
    ensures KernelOk(k') && SameView(k, k')
  {
    KernelKept(k, k');
    forall x: Loc | ValidLoc(x)
      ensures PageAt(k', x) == PageAt(k, x)
    {
      if x.t != 0 && DirIndex(x) != d {
        assert EntryOk(k, DirIndex(x), x.i) && DirOk(k, DirIndex(x));
      }
    }
  }

  // ----- changes of one page-table entry -----

  /** k' is k with entry x replaced by w and with new bookkeeping for frame f at most; f is 0
      when the bookkeeping stays as it is. */
  ghost predicate EntryReplaced(k: State, k': State, x: Loc, w: Word, f: nat)
  {
    && ValidLoc(x) && x.t != 0 && Dir(k, DirIndex(x)).present
    && (f == 0 || LOW <= f < LOW + PAGING_PAGES)
    && Shape(k')
    && k'.mem == WithEntry(k, DirIndex(x), x.i, w).mem
    && k'.task == k.task
    && (forall g | LOW <= g < LOW + PAGING_PAGES && g != f :: CountOf(k', g) == CountOf(k, g) && UseOf(k', g) == UseOf(k, g))
  }

  lemma ReplacedEntries(k: State, k': State, x: Loc, w: Word, f: nat)
    requires Inv(k) && EntryReplaced(k, k', x, w, f)
    ensures forall e | 0 <= e < WORDS :: Dir(k', e) == Dir(k, e)
    ensures forall e, j | DIRS <= e < WORDS && 0 <= j < WORDS ::
              Entry(k', e, j) == if e == DirIndex(x) && j == x.i then w else Entry(k, e, j)
  {
    var k1 := WithEntry(k, DirIndex(x), x.i, w);
    EntryAfter(k, DirIndex(x), x.i, w);
    forall e | 0 <= e < WORDS
      ensures Dir(k', e) == Dir(k1, e)
    {
    }
    forall e, j | 0 <= e < WORDS && 0 <= j < WORDS
      ensures Entry(k', e, j) == Entry(k1, e, j)
    {
    }
  }

  /** The sharers of a frame at the changed place gain or lose the task whose entry changed. */
  lemma ReplacedSharers(k: State, k': State, x: Loc, w: Word, f: nat)
    requires Inv(k) && EntryReplaced(k, k', x, w, f)
    ensures Sharers(k', x.a, x.i, f) ==
            if w.present && w.page == f then Sharers(k, x.a, x.i, f) + {x.t} else Sharers(k, x.a, x.i, f) - {x.t}
  {
    ReplacedEntries(k, k', x, w, f);
    forall t | 1 <= t < NR_TASKS
      ensures Names(k', t, x.a, x.i, f) == if t == x.t then w.present && w.page == f else Names(k, t, x.a, x.i, f)
    {
    }
  }

  lemma {:induction false} SharersBound(s: set<nat>, n: nat)
    requires n >= 1 && forall t | t in s :: 1 <= t < n
    ensures |s| <= n - 1
  {
    if n <= 1 {
    } else {
      SharersBound(s - {n - 1}, n - 1);
    }
  }

  lemma GainedSharer(k: State, k': State, x: Loc, w: Word, f: nat)
    requires Inv(k) && EntryReplaced(k, k', x, w, f) && w.present && w.page == f && !EntryAt(k, x).present
    ensures |Sharers(k', x.a, x.i, f)| == |Sharers(k, x.a, x.i, f)| + 1 <= NR_TASKS - 1
  {
    ReplacedSharers(k, k', x, w, f);
    assert x.t !in Sharers(k, x.a, x.i, f);
    SharersBound(Sharers(k', x.a, x.i, f), NR_TASKS);
  }

  /** Frames other than f keep their sharers when the old and the new word name f or low memory. */
  lemma ReplacedFrames(k: State, k': State, x: Loc, w: Word, f: nat, g: nat)
    requires Inv(k) && EntryReplaced(k, k', x, w, f)
    requires EntryAt(k, x).present ==> EntryAt(k, x).page < LOW || EntryAt(k, x).page == f
    requires w.present ==> w.page < LOW || w.page == f
    requires LOW <= g < LOW + PAGING_PAGES && g != f
    ensures FrameOk(k', g)
  {
    ReplacedEntries(k, k', x, w, f);
    assert FrameOk(k, g);
    match UseOf(k, g)
    case User(a, i) =>
      SameSharers(k, k', a, i, g);
    case _ =>
  }

  lemma ReplacedViews(k: State, k': State, x: Loc, w: Word, f: nat)
    requires Inv(k) && EntryReplaced(k, k', x, w, f)
    ensures forall y: Loc | ValidLoc(y) && y != x :: PageAt(k', y) == PageAt(k, y)
    ensures KernelOk(k')
  {
    ReplacedEntries(k, k', x, w, f);
    assert DirOk(k, DirIndex(x));
    KernelKept(k, k');
    forall y: Loc | ValidLoc(y) && y != x
      ensures PageAt(k', y) == PageAt(k, y)
    {
      if y.t != 0 {
        assert EntryOk(k, DirIndex(y), y.i);
      }
    }
  }

  /** What is left to show after one entry of task x.t changed together with the bookkeeping
      of at most one user frame f of that place. */
  lemma EntryChange(k: State, k': State, x: Loc, w: Word, f: nat)
    requires Inv(k) && EntryReplaced(k, k', x, w, f)
    requires EntryAt(k, x).present ==> EntryAt(k, x).page < LOW || EntryAt(k, x).page == f
    requires w.present ==> w.page < LOW || w.page == f
    requires EntryOk(k', DirIndex(x), x.i)
    requires f != 0 ==> (UseOf(k, f).Held? || UseOf(k, f) == User(x.a, x.i)) && FrameOk(k', f)
    requires f != 0 ==> forall d | DIRS <= d < WORDS && d != DirIndex(x) && Entry(k, d, x.i).page == f :: EntryOk(k', d, x.i)
    ensures Inv(k')
    ensures forall y: Loc | ValidLoc(y) && y != x :: PageAt(k', y) == PageAt(k, y)
  {
    ReplacedEntries(k, k', x, w, f);
    ReplacedViews(k, k', x, w, f);
    TasksKept(k, k', f);
    forall e | DIRS <= e < WORDS
      ensures DirOk(k', e)
    {
      assert DirOk(k, e);
    }
    forall e, j | DIRS <= e < WORDS && 0 <= j < WORDS
      ensures EntryOk(k', e, j)
    {
      assert EntryOk(k, e, j);
    }
    forall g | LOW <= g < LOW + PAGING_PAGES
      ensures FrameOk(k', g)
    {
      if g != f {
        ReplacedFrames(k, k', x, w, f, g);
      }
    }
  }

  /** A kernel frame may be mapped read-only at an absent entry, without being counted. */
  lemma MapLow(k: State, x: Loc, w: Word)
    requires Inv(k) && ValidLoc(x) && x.t != 0 && Dir(k, DirIndex(x)).present && !EntryAt(k, x).present
    requires w.present ==> w.page < LOW && !w.rw
    ensures var k' := WithEntry(k, DirIndex(x), x.i, w);
      && Inv(k')
      && ViewSet(k, k', x, if w.present then Kernel(w.page) else Absent)
  {
    var k' := WithEntry(k, DirIndex(x), x.i, w);
    ReplacedEntries(k, k', x, w, 0);
    EntryChange(k, k', x, w, 0);
  }

  function Mapped(k: State, x: Loc, f: nat): State {
    WithUse(WithEntry(k, DirIndex(x), x.i, Entry7(f)), f, 1, User(x.a, x.i))
  }

  lemma MapFrame(k: State, x: Loc, f: nat)
    requires Inv(k) && ValidLoc(x) && x.t != 0 && Dir(k, DirIndex(x)).present && !EntryAt(k, x).present
    requires InRam(k, f) && UseOf(k, f).Held?
    ensures EntryReplaced(k, Mapped(k, x, f), x, Entry7(f), f) && FrameOk(Mapped(k, x, f), f)
  {
    HeldIsUnmapped(k, f);
    assert Sharers(k, x.a, x.i, f) == {};
    assert DirOk(k, DirIndex(x));
    GainedSharer(k, Mapped(k, x, f), x, Entry7(f), f);
  }

  /** put_page: a frame held by the kernel becomes the page of an absent entry, writable. */
  lemma MapNew(k: State, x: Loc, f: nat)
    requires Inv(k) && ValidLoc(x) && x.t != 0 && Dir(k, DirIndex(x)).present && !EntryAt(k, x).present
    requires InRam(k, f) && UseOf(k, f).Held?
    ensures Inv(Mapped(k, x, f)) && ViewSet(k, Mapped(k, x, f), x, Own(k.mem[f]))
  {
    var k' := Mapped(k, x, f);
    MapFrame(k, x, f);
    ReplacedEntries(k, k', x, Entry7(f), f);
    HeldIsUnmapped(k, f);
    EntryChange(k, k', x, Entry7(f), f);
    assert DirOk(k, DirIndex(x));
  }

  lemma HeldIsUnmapped(k: State, f: nat)
    requires Inv(k) && InRam(k, f) && !UseOf(k, f).User?
    ensures forall d, i | DIRS <= d < WORDS && 0 <= i < WORDS && Entry(k, d, i).present :: Entry(k, d, i).page != f
  {
    forall d, i | DIRS <= d < WORDS && 0 <= i < WORDS && Entry(k, d, i).present
      ensures Entry(k, d, i).page != f
    {
      assert EntryOk(k, d, i);
    }
  }

  /** Two entries of the same place that name one frame are both read-only. */
  lemma SharedIsReadOnly(k: State, x: Loc, y: Loc)
    requires Inv(k) && ValidLoc(x) && ValidLoc(y) && x.t != 0 && y.t != 0 && x != y
    requires EntryAt(k, x).present && EntryAt(k, y).present && EntryAt(k, x).page == EntryAt(k, y).page >= LOW
    ensures !EntryAt(k, x).rw && !EntryAt(k, y).rw
    ensures x.a == y.a && x.i == y.i && InRam(k, EntryAt(k, x).page) && CountOf(k, EntryAt(k, x).page) >= 2
  {
    var f := EntryAt(k, x).page;
    assert EntryOk(k, DirIndex(x), x.i) && EntryOk(k, DirIndex(y), y.i) && FrameOk(k, f);
    assert x.t in Sharers(k, x.a, x.i, f) && y.t in Sharers(k, x.a, x.i, f);
    Cardinality2(Sharers(k, x.a, x.i, f), x.t, y.t);
  }

  lemma Cardinality2(s: set<nat>, a: nat, b: nat)
    requires a in s && b in s && a != b
    ensures |s| >= 2
  {
    assert |{a, b}| == 2;
    assert |s - {a, b}| == |s| - 2;
  }

  /** Clearing the write flag changes no view. */
  lemma Protect(k: State, x: Loc)
    requires Inv(k) && ValidLoc(x) && x.t != 0 && EntryAt(k, x).present
    ensures var k' := WithEntry(k, DirIndex(x), x.i, EntryAt(k, x).(rw := false));
      Inv(k') && SameView(k, k')
  {
    var w := EntryAt(k, x).(rw := false);
    var k' := WithEntry(k, DirIndex(x), x.i, w);
    SetFlag(k, k', x, w);
  }

  /** Setting the write flag of a frame's only reference changes no view. */
  lemma Grant(k: State, x: Loc)
    requires Inv(k) && ValidLoc(x) && x.t != 0 && EntryAt(k, x).present
    requires LOW <= EntryAt(k, x).page < |k.mem| && CountOf(k, EntryAt(k, x).page) == 1
    ensures var k' := WithEntry(k, DirIndex(x), x.i, EntryAt(k, x).(rw := true));
      Inv(k') && SameView(k, k')
  {
    var w := EntryAt(k, x).(rw := true);
    var k' := WithEntry(k, DirIndex(x), x.i, w);
    SetFlag(k, k', x, w);
  }

  lemma SetFlag(k: State, k': State, x: Loc, w: Word)
    requires Inv(k) && ValidLoc(x) && x.t != 0 && EntryAt(k, x).present
    requires w.present && w.page == EntryAt(k, x).page
    requires k' == WithEntry(k, DirIndex(x), x.i, w)
    requires w.rw ==> LOW <= w.page < |k.mem| && CountOf(k, w.page) == 1
    ensures Inv(k') && SameView(k, k')
  {
    assert EntryOk(k, DirIndex(x), x.i) && DirOk(k, DirIndex(x));
    var f := if w.page < LOW then 0 else w.page;
    ReplacedEntries(k, k', x, w, f);
    if f != 0 {
      assert FrameOk(k, f);
      assert FrameOk(k', f) by {
        SameSharers(k, k', x.a, x.i, f);
      }
      forall d | DIRS <= d < WORDS && d != DirIndex(x) && Entry(k, d, x.i).page == f
        ensures EntryOk(k', d, x.i)
      {
        assert EntryOk(k, d, x.i);
      }
    }
    EntryChange(k, k', x, w, f);
    FlagView(k, k', x, w, f);
  }

  lemma FlagView(k: State, k': State, x: Loc, w: Word, f: nat)
    requires Inv(k) && EntryReplaced(k, k', x, w, f) && EntryAt(k, x).present
    requires w.present && w.page == EntryAt(k, x).page
    requires forall y: Loc | ValidLoc(y) && y != x :: PageAt(k', y) == PageAt(k, y)
    ensures SameView(k, k')
  {
    ReplacedEntries(k, k', x, w, f);
    assert EntryOk(k, DirIndex(x), x.i) && DirOk(k, DirIndex(x));
    assert PageAt(k', x) == PageAt(k, x);
  }

  /** Entry y can be shared at x as word w: same place, present, read-only, not a kernel frame. */
  ghost predicate Shareable(k: State, x: Loc, y: Loc, w: Word) {
    && Inv(k)
    && ValidLoc(x) && x.t != 0 && Dir(k, DirIndex(x)).present && !EntryAt(k, x).present
    && ValidLoc(y) && y.t != 0 && y.a == x.a && y.i == x.i
    && EntryAt(k, y).present && !EntryAt(k, y).rw && EntryAt(k, y).page >= LOW
    && w.present && !w.rw && w.page == EntryAt(k, y).page
  }

  function Shared(k: State, x: Loc, w: Word): State {
    WithUse(WithEntry(k, DirIndex(x), x.i, w), w.page, CountOf(k, w.page) + 1, User(x.a, x.i))
  }

  lemma ShareFrame(k: State, x: Loc, y: Loc, w: Word)
    requires Shareable(k, x, y, w)
    ensures InRam(k, w.page) && CountOf(k, w.page) < NR_TASKS - 1
    ensures UseOf(k, w.page) == User(x.a, x.i)
    ensures EntryReplaced(k, Shared(k, x, w), x, w, w.page) && FrameOk(Shared(k, x, w), w.page)
  {
    var f := w.page;
    assert EntryOk(k, DirIndex(y), y.i) && FrameOk(k, f) && DirOk(k, DirIndex(x));
    GainedSharer(k, Shared(k, x, w), x, w, f);
  }

  /** copy_page_tables and try_to_share: an absent entry gets a read-only reference to a frame
      that another entry y already names read-only, and the frame's counter goes up. */
  lemma Share(k: State, x: Loc, y: Loc, w: Word)
    requires Shareable(k, x, y, w)
    ensures InRam(k, w.page) && CountOf(k, w.page) < NR_TASKS - 1
    ensures Inv(Shared(k, x, w)) && ViewSet(k, Shared(k, x, w), x, PageAt(k, y))
  {
    var f := w.page;
    var k' := Shared(k, x, w);
    ShareFrame(k, x, y, w);
    ReplacedEntries(k, k', x, w, f);
    forall d | DIRS <= d < WORDS && d != DirIndex(x) && Entry(k, d, x.i).page == f
      ensures EntryOk(k', d, x.i)
    {
      assert EntryOk(k, d, x.i);
      if Entry(k, d, x.i).present {
        ReadersOnly(k, y, d);
      }
    }
    EntryChange(k, k', x, w, f);
    ShareView(k, x, y, w);
  }

  lemma ShareView(k: State, x: Loc, y: Loc, w: Word)
    requires Shareable(k, x, y, w)
    ensures Shape(Shared(k, x, w)) && PageAt(Shared(k, x, w), x) == PageAt(k, y)
  {
    ShareFrame(k, x, y, w);
    ReplacedEntries(k, Shared(k, x, w), x, w, w.page);
    assert DirOk(k, DirIndex(x));
  }

  /** One read-only reference means that every reference is read-only. */
  lemma ReadersOnly(k: State, y: Loc, d: nat)
    requires Inv(k) && ValidLoc(y) && y.t != 0 && EntryAt(k, y).present && !EntryAt(k, y).rw && EntryAt(k, y).page >= LOW
    requires DIRS <= d < WORDS && Entry(k, d, y.i).present && Entry(k, d, y.i).page == EntryAt(k, y).page
    ensures !Entry(k, d, y.i).rw && d % DIRS == y.a
  {
    var z := Loc(d / DIRS, d % DIRS, y.i);
    assert DirIndex(z) == d;
    if z != y {
      SharedIsReadOnly(k, y, z);
    }
  }

  /** The state after one entry is cleared and the frame it named, if counted, is let go. */
  function Unmapped(k: State, x: Loc): State {
    var e := EntryAt(k, x);
    var k1 := WithEntry(k, DirIndex(x), x.i, ZERO);
    var c := CountOf(k, e.page);
    if e.page < LOW || c == 0 then k1 else WithUse(k1, e.page, c - 1, if c == 1 then Free else UseOf(k, e.page))
  }

  lemma Unmap(k: State, x: Loc)
    requires Inv(k) && ValidLoc(x) && x.t != 0 && EntryAt(k, x).present
    ensures EntryAt(k, x).page < LOW || (InRam(k, EntryAt(k, x).page) && CountOf(k, EntryAt(k, x).page) >= 1)
    ensures Inv(Unmapped(k, x)) && ViewSet(k, Unmapped(k, x), x, Absent)
  {
    assert EntryOk(k, DirIndex(x), x.i);
    var e := EntryAt(k, x);
    var f := if e.page < LOW then 0 else e.page;
    var k' := Unmapped(k, x);
    if f != 0 {
      UnmapFrame(k, x);
      UnmapOthers(k, x);
    }
    ReplacedEntries(k, k', x, ZERO, f);
    EntryChange(k, k', x, ZERO, f);
  }

  lemma UnmapFrame(k: State, x: Loc)
    requires Inv(k) && ValidLoc(x) && x.t != 0 && EntryAt(k, x).present && EntryAt(k, x).page >= LOW
    ensures InRam(k, EntryAt(k, x).page) && CountOf(k, EntryAt(k, x).page) >= 1
    ensures UseOf(k, EntryAt(k, x).page) == User(x.a, x.i)
    ensures EntryReplaced(k, Unmapped(k, x), x, ZERO, EntryAt(k, x).page)
    ensures FrameOk(Unmapped(k, x), EntryAt(k, x).page)
  {
    var f := EntryAt(k, x).page;
    assert EntryOk(k, DirIndex(x), x.i) && FrameOk(k, f);
    assert x.t in Sharers(k, x.a, x.i, f);
    ReplacedSharers(k, Unmapped(k, x), x, ZERO, f);
  }

  lemma UnmapOthers(k: State, x: Loc)
    requires Inv(k) && ValidLoc(x) && x.t != 0 && EntryAt(k, x).present && EntryAt(k, x).page >= LOW
    ensures Shape(Unmapped(k, x))
    ensures forall d | DIRS <= d < WORDS && d != DirIndex(x) && Entry(k, d, x.i).page == EntryAt(k, x).page ::
              EntryOk(Unmapped(k, x), d, x.i)
  {
    var f := EntryAt(k, x).page;
    var k' := Unmapped(k, x);
    assert EntryOk(k, DirIndex(x), x.i) && FrameOk(k, f);
    ReplacedEntries(k, k', x, ZERO, f);
    forall d | DIRS <= d < WORDS && d != DirIndex(x) && Entry(k, d, x.i).page == f
      ensures EntryOk(k', d, x.i)
    {
      assert EntryOk(k, d, x.i);
      if Entry(k, d, x.i).present {
        var z := Loc(d / DIRS, d % DIRS, x.i);
        assert DirIndex(z) == d;
        SharedIsReadOnly(k, x, z);
      }
    }
  }

  /** A word stored through a writable entry is seen through that entry and no other. */
  lemma StoreWord(k: State, x: Loc, j: nat, v: Word)
    requires Inv(k) && ValidLoc(x) && x.t != 0 && EntryAt(k, x).present && EntryAt(k, x).rw && j < WORDS
    ensures InRam(k, EntryAt(k, x).page)
    ensures var f := EntryAt(k, x).page; var k' := WithFrame(k, f, k.mem[f][j := v]);
      && Inv(k')
      && ViewSet(k, k', x, Own(k.mem[f][j := v]))
  {
    assert EntryOk(k, DirIndex(x), x.i);
    var f := EntryAt(k, x).page;
    assert FrameOk(k, f);
    var k' := WithFrame(k, f, k.mem[f][j := v]);
    UserFrame(k, k', f);
    KernelKept(k, k');
    forall y: Loc | ValidLoc(y) && y != x
      ensures PageAt(k', y) == PageAt(k, y)
    {
      if y.t != 0 && EntryAt(k, y).present {
        assert EntryOk(k, DirIndex(y), y.i);
        if EntryAt(k, y).page == f {
          SharedIsReadOnly(k, x, y);
        }
      }
    }
  }

  /** Changing the words of a user page changes no mapping: a user page is never a page table. */
  lemma UserFrame(k: State, k': State, f: nat)
    requires Inv(k) && InRam(k, f) && UseOf(k, f).User?
    requires Shape(k') && |k'.mem| == |k.mem| && k'.cnt == k.cnt && k'.use == k.use && k'.task == k.task
    requires forall g | 0 <= g < |k.mem| && g != f :: k'.mem[g] == k.mem[g]
    ensures Inv(k')
    ensures forall d, i | DIRS <= d < WORDS && 0 <= i < WORDS :: Entry(k', d, i) == Entry(k, d, i)
  {
    forall d | DIRS <= d < WORDS
      ensures DirOk(k', d) && Dir(k', d) == Dir(k, d)
    {
      assert DirOk(k, d);
    }
    forall d, i | DIRS <= d < WORDS && 0 <= i < WORDS
      ensures Entry(k', d, i) == Entry(k, d, i) && EntryOk(k', d, i)
    {
      assert DirOk(k, d) && EntryOk(k, d, i);
    }
    forall g | LOW <= g < LOW + PAGING_PAGES
      ensures FrameOk(k', g)
    {
      assert FrameOk(k, g);
      if UseOf(k, g).User? {
        SameSharers(k, k', UseOf(k, g).a, UseOf(k, g).i, g);
      }
    }
    TasksKept(k, k', 0);
    KernelKept(k, k');
  }
}
