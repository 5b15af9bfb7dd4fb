/** What the invariant means for the `mem_map` counters: they count references, never wrap,
    and are determined by the page tables alone. */
module PageTheorems {
  import opened PageState
  import opened PageSteps

  /** All user entries, of any task and any place, that name frame f. */
  ghost function AllRefs(k: State, f: nat): set<Loc>
  {
    set t, a, i | 1 <= t < NR_TASKS && 0 <= a < DIRS && 0 <= i < WORDS && Names(k, t, a, i, f) :: Loc(t, a, i)
  }

  ghost function TableRefs(k: State, f: nat): set<nat>
  {
    set d: nat | DIRS <= d < WORDS && Dir(k, d).present && Dir(k, d).page == f
  }

  ghost function KernelUses(k: State, f: nat): nat
    requires Shape(k) && LOW <= f < LOW + PAGING_PAGES
  {
    match UseOf(k, f)
    case Held => 1
    case TaskPage(_) => 1
    case Reserved => USED
    case _ => 0
  }

  lemma SameCardinality(s: set<nat>, r: set<Loc>, a: nat, i: nat)
    requires r == set t | t in s :: Loc(t, a, i)
    ensures |r| == |s|
    decreases |s|
  {
    if s == {} {
    } else {
      var t :| t in s;
      var r' := set u | u in s - {t} :: Loc(u, a, i);
      assert r == r' + {Loc(t, a, i)};
      SameCardinality(s - {t}, r', a, i);
    }
  }

  /** All references to a user frame stand at its one task-relative place. */
  lemma RefsAtOnePlace(k: State, f: nat)
    requires Inv(k) && InRam(k, f)
    ensures match UseOf(k, f)
      case User(a, i) => a < DIRS && i < WORDS && AllRefs(k, f) == set t | t in Sharers(k, a, i, f) :: Loc(t, a, i)
      case _ => AllRefs(k, f) == {}
  {
    assert FrameOk(k, f);
    forall x | x in AllRefs(k, f)
      ensures UseOf(k, f) == User(x.a, x.i)
    {
      assert EntryOk(k, DirIndex(x), x.i);
    }
    match UseOf(k, f)
    case User(a, i) =>
      forall x | x in AllRefs(k, f)
        ensures x in set t | t in Sharers(k, a, i, f) :: Loc(t, a, i)
      {
        assert x == Loc(x.t, a, i) && x.t in Sharers(k, a, i, f);
      }
    case _ =>
  }

  lemma TableRefsOf(k: State, f: nat)
    requires Inv(k) && InRam(k, f)
    ensures TableRefs(k, f) == if UseOf(k, f).Table? then {UseOf(k, f).d} else {}
  {
    assert FrameOk(k, f);
    forall d | d in TableRefs(k, f)
      ensures UseOf(k, f) == Table(d)
    {
      assert DirOk(k, d);
    }
  }

  /** The counter of every frame is the number of present user entries naming it, plus one if it
      is a page table, plus the kernel's own uses; it is at most 100, so an unsigned char holds it. */
  lemma CounterCountsReferences(k: State, f: nat)
    requires Inv(k) && InRam(k, f)
    ensures CountOf(k, f) == |AllRefs(k, f)| + |TableRefs(k, f)| + KernelUses(k, f)
    ensures CountOf(k, f) <= USED
    ensures !UseOf(k, f).Reserved? ==> CountOf(k, f) <= NR_TASKS - 1
  {
    assert FrameOk(k, f);
    RefsAtOnePlace(k, f);
    TableRefsOf(k, f);
    match UseOf(k, f)
    case User(a, i) =>
      SameCardinality(Sharers(k, a, i, f), AllRefs(k, f), a, i);
      SharersBound(Sharers(k, a, i, f), NR_TASKS);
    case _ =>
  }

  /** A writable user entry is the only reference to its frame, in any task. */
  lemma WritableIsPrivate(k: State, x: Loc, y: Loc)
    requires Inv(k) && ValidLoc(x) && ValidLoc(y) && x.t != 0 && y.t != 0
    requires EntryAt(k, x).present && EntryAt(k, x).rw && EntryAt(k, y).present
    requires EntryAt(k, y).page == EntryAt(k, x).page
    ensures InRam(k, EntryAt(k, x).page) && !UseOf(k, EntryAt(k, x).page).Table?
    ensures y == x
  {
    assert EntryOk(k, DirIndex(x), x.i);
    if x != y {
      SharedIsReadOnly(k, x, y);
    }
  }

  /** Outside task t, k' maps what k maps, write flags aside; the kernel holds the same frames. */
  ghost predicate MapsKept(k: State, k': State, t: nat) {
    && Shape(k) && Shape(k') && |k'.mem| == |k.mem| && k'.task == k.task
    && (forall d | DIRS <= d < WORDS && d / DIRS != t :: Dir(k', d) == Dir(k, d))
    && (forall d, i | DIRS <= d < WORDS && 0 <= i < WORDS && d / DIRS != t ::
          Entry(k', d, i).present == Entry(k, d, i).present && Entry(k', d, i).page == Entry(k, d, i).page)
    && (forall f | LOW <= f < LOW + PAGING_PAGES ::
          UseOf(k', f).Held? == UseOf(k, f).Held? && UseOf(k', f).Reserved? == UseOf(k, f).Reserved?)
  }

  ghost predicate NoTables(k: State, t: nat)
    requires Shape(k) && t < NR_TASKS
  {
    forall d | DIRS <= d < WORDS && d / DIRS == t :: !Dir(k, d).present
  }

  lemma SharersKept(k: State, k': State, t: nat, a: nat, i: nat, f: nat)
    requires MapsKept(k, k', t) && 1 <= t < NR_TASKS && a < DIRS && i < WORDS
    requires NoTables(k, t) && NoTables(k', t)
    ensures Sharers(k', a, i, f) == Sharers(k, a, i, f)
  {
    forall s | 1 <= s < NR_TASKS
      ensures Names(k', s, a, i, f) == Names(k, s, a, i, f)
    {
      assert (DIRS * s + a) / DIRS == s;
    }
    SameSharers(k, k', a, i, f);
  }

  lemma UserCounterKept(k: State, k': State, t: nat, f: nat, a: nat, i: nat)
    requires Inv(k) && Inv(k') && MapsKept(k, k', t) && 1 <= t < NR_TASKS
    requires NoTables(k, t) && NoTables(k', t) && LOW <= f < LOW + PAGING_PAGES && UseOf(k, f) == User(a, i)
    ensures CountOf(k', f) == CountOf(k, f) && UseOf(k', f) == User(a, i)
  {
    assert FrameOk(k, f) && FrameOk(k', f);
    SharersKept(k, k', t, a, i, f);
    var s :| s in Sharers(k, a, i, f);
    assert EntryOk(k', DIRS * s + a, i);
  }

  lemma CounterKept(k: State, k': State, t: nat, f: nat)
    requires Inv(k) && Inv(k') && MapsKept(k, k', t) && 1 <= t < NR_TASKS
    requires NoTables(k, t) && NoTables(k', t) && LOW <= f < LOW + PAGING_PAGES
    requires UseOf(k, f).Table? || UseOf(k, f).User? || UseOf(k, f).TaskPage?
    ensures CountOf(k', f) == CountOf(k, f)
    ensures UseOf(k', f).Table? || UseOf(k', f).User? || UseOf(k', f).TaskPage?
  {
    assert FrameOk(k, f) && FrameOk(k', f);
    match UseOf(k, f)
    case Table(d) =>
      assert DirOk(k', d);
    case User(a, i) => UserCounterKept(k, k', t, f, a, i);
    case TaskPage(s) =>
      assert TaskOk(k', s);
  }

  /** The counters are a function of the mappings: two states that map the same, and in which
      task t maps nothing, have equal counters. */
  lemma CountersDetermined(k: State, k': State, t: nat)
    requires Inv(k) && Inv(k') && MapsKept(k, k', t) && 1 <= t < NR_TASKS
    requires NoTables(k, t) && NoTables(k', t)
    ensures k'.cnt == k.cnt
  {
    assert MapsKept(k', k, t);
    forall j | 0 <= j < PAGING_PAGES
      ensures k'.cnt[j] == k.cnt[j]
    {
      var f := j + LOW;
      assert FrameOk(k, f) && FrameOk(k', f);
      assert CountOf(k, f) == k.cnt[j] && CountOf(k', f) == k'.cnt[j];
      if UseOf(k, f).Table? || UseOf(k, f).User? || UseOf(k, f).TaskPage? {
        CounterKept(k, k', t, f);
      } else if UseOf(k', f).Table? || UseOf(k', f).User? || UseOf(k', f).TaskPage? {
        CounterKept(k', k, t, f);
      }
    }
  }
}
