/** When a first touch takes another task's page, told by the tables alone. */
module PageLaws {
  import opened PageState
  import opened PageTheorems
  import opened PageCounts
  import opened PageKernel

  /** Task q is another task with the same executable, and has the page at that address: present, clean, and
      not the kernel's. */
  predicate Gives(k: State, exe: seq<nat>, q: nat, cur: nat, address: nat)
    requires q < |exe| && cur < |exe|
  {
    var e := EntryAt(k, Loc(q, address / 0x40_0000, address / 4096 % 1024));
    q != 0 && q != cur && TaskPageOf(k, q) != 0 && exe[q] == exe[cur] && e.present && !e.dirty && LOW <= e.page < |k.mem|
  }

  /** do_no_page takes the page of the last such task, if the page is one of the executable, and the inode of that
      has two users at least; otherwise nobody's. */
  lemma SharedExactly(k: State, exe: seq<nat>, cur: nat, address: nat, endData: nat, count: nat)
    requires |exe| == 64 && cur < 64
    ensures var p := SharedFor(k, exe, cur, address, endData, count);
      var asked := exe[cur] != 0 && address - address % 4096 < endData && count >= 2;
      && p < 64 && (p != 0 ==> asked && Gives(k, exe, p, cur, address))
      && (asked ==> forall q | p < q < 64 :: !Gives(k, exe, q, cur, address))
  {
    var a, i := address / 0x40_0000, address / 4096 % 1024;
    var p := SharedFor(k, exe, cur, address, endData, count);
    if p != 0 {
      assert Sharer(k, exe, p, cur, a, i);
    }
    if exe[cur] != 0 && address - address % 4096 < endData && count >= 2 {
      forall q | p < q < 64
        ensures !Gives(k, exe, q, cur, address)
      {
        assert !Sharer(k, exe, q, cur, a, i);
      }
    }
  }
}
