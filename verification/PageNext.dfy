/** What each operation makes of the whole state: frames, counters, tables and flags. get_free_page gives
    the last free frame, so nothing is left open. */
module PageNext {
  import opened PageState
  import opened PageSteps
  import opened PageTheorems
  import opened PageSpecs
  import opened PageCounts

  /** The frame of the last counter that is zero, 0 if there is none. */
  function LastZero(cnt: seq<nat>): nat {
    if cnt == [] then 0 else if cnt[|cnt| - 1] == 0 then LOW + |cnt| - 1 else LastZero(cnt[..|cnt| - 1])
  }

  function LastFree(k: State): nat {
    LastZero(k.cnt)
  }

  lemma {:induction false} LastZeroIs(cnt: seq<nat>, i: nat)
    requires i < |cnt| && cnt[i] == 0 && forall j | i < j < |cnt| :: cnt[j] != 0
    ensures LastZero(cnt) == LOW + i
  {
    if i == |cnt| - 1 {
    } else {
      LastZeroIs(cnt[..|cnt| - 1], i);
    }
  }

  lemma {:induction false} LastZeroNone(cnt: seq<nat>)
    ensures LastZero(cnt) == 0 <==> Zeros(cnt) == 0
    ensures LastZero(cnt) != 0 ==> LOW <= LastZero(cnt) < LOW + |cnt| && cnt[LastZero(cnt) - LOW] == 0
  {
    if cnt == [] {
    } else {
      LastZeroNone(cnt[..|cnt| - 1]);
    }
  }

  /** get_free_page */
  function GotPage(k: State): State {
    var f := LastFree(k);
    if f == 0 then k else WithUse(WithFrame(k, f, ZeroPage()), f, 1, Held)
  }

  lemma FreshIsZero(k: State)
    requires InRam(k, LastFree(k))
    ensures WithFrame(GotPage(k), LastFree(k), ZeroPage()) == GotPage(k)
  {
  }

  /** A turn of free_page_tables. */
  function TableGone(k: State, d: nat): State {
    if Dir(k, d).present then WithUse(WithDir(ReleasedN(k, d, WORDS), d, ZERO), Dir(k, d).page, 0, Free) else k
  }

  function TablesGone(k: State, t: nat, n: nat): State {
    if n == 0 then k else TableGone(TablesGone(k, t, n - 1), DIRS * t + n - 1)
  }

  lemma GoneMore(k: State, t: nat, n: nat)
    ensures TablesGone(k, t, n + 1) == TableGone(TablesGone(k, t, n), DIRS * t + n)
  {
  }

  /** The page table for directory entry d is made, if there is none and a frame for it. */
  function TableMade(k: State, d: nat): State {
    if Dir(k, d).present || LastFree(k) == 0 then k else WithTable(k, d, LastFree(k))
  }

  /** A turn of copy_page_tables, at the n-th table of task p; without memory nothing happens. */
  function TableTried(k: State, p: nat, c: nat, n: nat): State {
    if !HasTable(k, p, n) || LastFree(k) == 0 then k
    else CopiedN(TableMade(k, DIRS * c + n), DIRS * p + n, DIRS * c + n, if p == 0 then KERNEL_PAGES else WORDS)
  }

  lemma TriedIs(k: State, p: nat, c: nat, n: nat)
    ensures !HasTable(k, p, n) || LastFree(k) == 0 ==> TableTried(k, p, c, n) == k
    ensures HasTable(k, p, n) && LastFree(k) != 0 ==>
      TableTried(k, p, c, n) == CopiedN(TableMade(k, DIRS * c + n), DIRS * p + n, DIRS * c + n, if p == 0 then KERNEL_PAGES else WORDS)
  {
  }

  function TablesTried(k: State, p: nat, c: nat, n: nat): State {
    if n == 0 then k else TableTried(TablesTried(k, p, c, n - 1), p, c, n - 1)
  }

  /** Without memory all further turns do nothing. */
  lemma {:induction false} TriedNoMore(k: State, p: nat, c: nat, m: nat, n: nat)
    requires m <= n && LastFree(TablesTried(k, p, c, m)) == 0
    ensures TablesTried(k, p, c, n) == TablesTried(k, p, c, m)
  {
    if m == n {
    } else {
      TriedNoMore(k, p, c, m, n - 1);
    }
  }

  /** copy_mem */
  function SpaceCopied(k: State, p: nat, c: nat, n: nat): State {
    if FreeCount(k) < TablesIn(k, p, n) then TablesGone(TablesTried(k, p, c, n), c, n) else TablesTried(k, p, c, n)
  }

  /** The task structure's page is taken, and given back. */
  function TaskMade(k: State, t: nat): State {
    var f := LastFree(k);
    if f == 0 || t >= |k.task| then k else WithUse(GotPage(k), f, 1, TaskPage(t)).(task := k.task[t := f])
  }

  function TaskGone(k: State, t: nat): State {
    if TaskPageOf(k, t) == 0 || t >= |k.task| then k
    else WithUse(WithUse(k, TaskPageOf(k, t), 1, Held).(task := k.task[t := 0]), TaskPageOf(k, t), 0, Free)
  }

  /** The memory part of copy_process. */
  function ProcessCopied(k: State, p: nat, c: nat, n: nat): State {
    if LastFree(k) == 0 then k
    else
      var k1 := TaskMade(k, c);
      if FreeCount(k1) < TablesIn(k1, p, n) then TaskGone(SpaceCopied(k1, p, c, n), c) else SpaceCopied(k1, p, c, n)
  }

  /** un_wp_page */
  function Unshared(k: State, x: Loc): State {
    if !NeedsCopy(k, x) then WithEntry(k, DirIndex(x), x.i, EntryAt(k, x).(rw := true))
    else if LastFree(k) == 0 then k
    else CopyOnWrite(GotPage(k), x, LastFree(k))
  }

  /** write_verify */
  function Verifying(k: State, x: Loc): State {
    if EntryAt(k, x).present && !EntryAt(k, x).rw then Unshared(k, x) else k
  }

  /** A store at x that the processor does not check, with the entry's dirty flag. */
  function RawStored(k: State, x: Loc, j: nat, v: Word): State {
    var k1 := WithEntry(k, DirIndex(x), x.i, EntryAt(k, x).(dirty := true));
    var f := EntryAt(k, x).page;
    if f < |k1.mem| && j < |k1.mem[f]| then WithFrame(k1, f, k1.mem[f][j := v]) else k1
  }

  /** A user's store. */
  function UserStored(k: State, x: Loc, j: nat, v: Word): State {
    if !EntryAt(k, x).present || CopyFails(k, x) then k else RawStored(Verifying(k, x), x, j, v)
  }

  /** A frame that the kernel holds is mapped at x, or, without a page table for it, given back. */
  function Installed(k: State, x: Loc, f: nat): State {
    var k1 := TableMade(k, DirIndex(x));
    if Dir(k1, DirIndex(x)).present then Mapped(k1, x, f) else WithUse(k, f, 0, Free)
  }

  /** A new page at x. */
  function NewPage(k: State, x: Loc, words: seq<Word>): State {
    if LastFree(k) == 0 then k else Installed(WithFrame(GotPage(k), LastFree(k), words), x, LastFree(k))
  }

  /** try_to_share, once the other task's page y has been found fit. */
  function SharedIn(k: State, x: Loc, y: Loc): State {
    var k1 := TableMade(k, DirIndex(x));
    if Dir(k1, DirIndex(x)).present then SharedFrom(k1, x, y) else k
  }
}
