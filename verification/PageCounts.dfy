/** How many frames are free, and what each operation needs: memory.c runs out of memory exactly when
    no counter is zero. */
module PageCounts {
  import opened PageState
  import opened PageSteps
  import opened PageTheorems
  import opened PageSpecs

  function Zeros(s: seq<nat>): nat {
    if s == [] then 0 else Zeros(s[..|s| - 1]) + if s[|s| - 1] == 0 then 1 else 0
  }

  /** The number of frames that get_free_page can give. */
  function FreeCount(k: State): nat {
    Zeros(k.cnt)
  }

  lemma {:induction false} ZerosUpdate(s: seq<nat>, i: nat, v: nat)
    requires i < |s|
    ensures Zeros(s[i := v]) == Zeros(s) - (if s[i] == 0 then 1 else 0) + if v == 0 then 1 else 0
  {
    var n := |s| - 1;
    if i == n {
      assert s[i := v][..n] == s[..n];
    } else {
      assert s[i := v][..n] == s[..n][i := v];
      ZerosUpdate(s[..n], i, v);
    }
  }

  lemma {:induction false} NoZeros(s: seq<nat>)
    ensures Zeros(s) == 0 <==> forall i | 0 <= i < |s| :: s[i] != 0
  {
    if s == [] {
    } else {
      var n := |s| - 1;
      NoZeros(s[..n]);
      assert forall i | 0 <= i < n :: s[..n][i] == s[i];
    }
  }

  lemma {:induction false} ZerosBefore(s: seq<nat>, m: nat, n: nat)
    requires m <= n <= |s| && forall i | 0 <= i < |s| :: s[i] == 0 <==> i < m
    ensures Zeros(s[..n]) == m
  {
    if n == 0 {
    } else {
      assert s[..n][..n - 1] == s[..n - 1];
      if m < n {
        ZerosBefore(s, m, n - 1);
      } else {
        ZerosBefore(s[..n - 1], n - 1, n - 1);
        assert s[..n - 1][..n - 1] == s[..n - 1];
      }
    }
  }

  /** One frame less is free after it was taken. */
  lemma TakenFree(k: State, f: nat)
    requires Shape(k) && InRam(k, f) && CountOf(k, f) == 0
    ensures FreeCount(WithUse(WithFrame(k, f, ZeroPage()), f, 1, Held)) == FreeCount(k) - 1
  {
    ZerosUpdate(k.cnt, f - LOW, 1);
  }

  predicate HasTable(k: State, p: nat, a: nat) {
    Dir(k, DIRS * p + a).present
  }

  /** The page tables of task p within its first n directory entries. */
  function TablesIn(k: State, p: nat, n: nat): nat {
    if n == 0 then 0 else TablesIn(k, p, n - 1) + if HasTable(k, p, n - 1) then 1 else 0
  }

  lemma {:induction false} SameTables(k: State, k': State, p: nat, n: nat)
    requires forall a: nat | a < n :: HasTable(k', p, a) == HasTable(k, p, a)
    ensures TablesIn(k', p, n) == TablesIn(k, p, n)
  {
    if n == 0 {
    } else {
      SameTables(k, k', p, n - 1);
    }
  }

  /** Sharing a page read-only takes no frame. */
  lemma CopiedEntryFree(k: State, pd: nat, d: nat, i: nat)
    requires Inv(k) && Copyable(k, pd, d, i + 1) && !Entry(k, d, i).present
    ensures FreeCount(CopiedEntry(k, pd, d, i)) == FreeCount(k)
  {
    var w := Entry(k, pd, i).(rw := false);
    if w.present && w.page >= LOW {
      assert EntryOk(k, pd, i);
      assert FrameOk(k, w.page);
      ZerosUpdate(k.cnt, w.page - LOW, CountOf(k, w.page) + 1);
      assert CopiedEntry(k, pd, d, i).cnt == k.cnt[w.page - LOW := CountOf(k, w.page) + 1];
    }
  }

  lemma CopiedNextFree(k: State, pd: nat, d: nat, n: nat)
    requires Inv(k) && Copyable(k, pd, d, n) && (forall j | 0 <= j < WORDS :: !Entry(k, d, j).present) && n > 0
    ensures FreeCount(CopiedN(k, pd, d, n)) == FreeCount(CopiedN(k, pd, d, n - 1))
  {
    NextFree(k, CopiedN(k, pd, d, n - 1), pd, d, n - 1);
  }

  lemma NextFree(k: State, k1: State, pd: nat, d: nat, n: nat)
    requires Inv(k) && Copyable(k, pd, d, n + 1) && (forall j | 0 <= j < WORDS :: !Entry(k, d, j).present) && k1 == CopiedN(k, pd, d, n)
    ensures FreeCount(CopiedEntry(k1, pd, d, n)) == FreeCount(k1)
  {
    StillCopyable(k, pd, d, n);
    CopiedEntryFree(k1, pd, d, n);
  }

  lemma {:induction false} CopiedFree(k: State, pd: nat, d: nat, n: nat)
    requires Inv(k) && Copyable(k, pd, d, n) && forall j | 0 <= j < WORDS :: !Entry(k, d, j).present
    ensures FreeCount(CopiedN(k, pd, d, n)) == FreeCount(k)
  {
    if n == 0 {
    } else {
      CopiedFree(k, pd, d, n - 1);
      CopiedNextFree(k, pd, d, n);
    }
  }

  /** Letting an entry go never takes a frame. */
  lemma {:induction false} ReleasedFree(k: State, d: nat, n: nat)
    ensures FreeCount(ReleasedN(k, d, n)) >= FreeCount(k)
  {
    if n == 0 {
    } else {
      ReleasedFree(k, d, n - 1);
      DroppedFree(ReleasedN(k, d, n - 1).cnt, Entry(ReleasedN(k, d, n - 1), d, n - 1).page);
    }
  }

  lemma DroppedFree(cnt: seq<nat>, f: nat)
    ensures Zeros(Dropped(cnt, f)) >= Zeros(cnt)
  {
    if LOW <= f < LOW + |cnt| && cnt[f - LOW] > 0 {
      ZerosUpdate(cnt, f - LOW, cnt[f - LOW] - 1);
    }
  }

  // ----- what an operation needs -----

  /** un_wp_page must copy the page: it is the kernel's, or others refer to it too. */
  predicate NeedsCopy(k: State, x: Loc) {
    EntryAt(k, x).page < LOW || CountOf(k, EntryAt(k, x).page) != 1
  }

  /** A store at x must be preceded by a copy for which there is no frame. */
  predicate CopyFails(k: State, x: Loc) {
    EntryAt(k, x).present && !EntryAt(k, x).rw && NeedsCopy(k, x) && FreeCount(k) == 0
  }

  /** The frames for a new page at x: itself, and a page table if there is none. */
  function PagesFor(k: State, x: Loc): nat {
    if Dir(k, DirIndex(x)).present then 1 else 2
  }

  /** Page y is there and clean, and no kernel page: try_to_share would take it. */
  predicate CleanAt(k: State, y: Loc) {
    EntryAt(k, y).present && !EntryAt(k, y).dirty && InRam(k, EntryAt(k, y).page)
  }

  /** Task p can share its page (a, i) with task t, which runs the same executable. */
  predicate Sharer(k: State, exe: seq<nat>, p: nat, t: nat, a: nat, i: nat) {
    && 1 <= p < |exe| && t < |exe| && p != t && TaskPageOf(k, p) != 0 && exe[p] == exe[t]
    && CleanAt(k, Loc(p, a, i))
  }

  /** The last such task before n; 0 if there is none. */
  function LastSharer(k: State, exe: seq<nat>, t: nat, a: nat, i: nat, n: nat): (p: nat)
    ensures p != 0 ==> p < n && Sharer(k, exe, p, t, a, i)
    ensures forall q | p < q < n :: !Sharer(k, exe, q, t, a, i)
  {
    if n == 0 then 0
    else if Sharer(k, exe, n - 1, t, a, i) then n - 1
    else LastSharer(k, exe, t, a, i, n - 1)
  }

  lemma {:induction false} MoreTables(k: State, p: nat, m: nat, n: nat)
    requires m <= n
    ensures TablesIn(k, p, m) <= TablesIn(k, p, n)
  {
    if m == n {
    } else {
      MoreTables(k, p, m, n - 1);
    }
  }
}
