/** The zones of a file in the order in which truncate frees them: every zone that the file owns,
    each once. */
module VolumeTree {
  import opened Sequences
  import opened VolumeState
  import opened VolumeSteps

  /** How many levels of blocks hang below a slot's own. */
  function Height(s: Slot): nat {
    match s
    case Root(_, n) => if n == 8 then 2 else if n == 7 then 1 else 0
    case Child(up, _) => if up.Root? && up.n == 8 then 1 else 0
  }

  function Depth(s: Slot): nat {
    match s
    case Root(_, _) => 0
    case Child(up, _) => Depth(up) + 1
  }

  /** The index of the entry of s below which u hangs, -1 if u is not below s. */
  function Below(u: Slot, s: Slot): int {
    match u
    case Root(_, _) => -1
    case Child(up, k) => if up == s then k else Below(up, s)
  }

  /** free_ind and free_dind: what hangs below the slot first, the slot's own zone last. */
  function Zones(v: Vol, s: Slot): seq<nat>
    decreases Height(s), ENTRIES + 1
  {
    if Ptr(v, s) == 0 then [] else ZonesBelow(v, s, ENTRIES) + [Ptr(v, s)]
  }

  /** The zones below the first k entries of slot s. */
  function ZonesBelow(v: Vol, s: Slot, k: nat): seq<nat>
    decreases Height(s), k
  {
    if k == 0 || !IsIndex(s) then [] else ZonesBelow(v, s, k - 1) + Zones(v, Child(s, k - 1))
  }

  /** truncate: the slots of an inode from the first to the n-th. */
  function FileZones(v: Vol, f: nat, n: nat): seq<nat> {
    if n == 0 then [] else FileZones(v, f, n - 1) + Zones(v, Root(f, n - 1))
  }

  // ----- positions in the tree -----

  lemma {:induction false} ShallowerIsNotBelow(u: Slot, s: Slot)
    requires Depth(u) <= Depth(s)
    ensures Below(u, s) == -1
  {
    if u.Root? {
    } else {
      ShallowerIsNotBelow(u.up, s);
    }
  }

  /** Below entry i of s means: at Child(s, i), or below it. */
  lemma {:induction false} BelowChild(u: Slot, s: Slot, i: nat)
    ensures Below(u, s) == i <==> u == Child(s, i) || Below(u, Child(s, i)) >= 0
    decreases u
  {
    if u.Root? {
    } else {
      if u.up == s {
        ShallowerIsNotBelow(s, Child(s, i));
      } else {
        BelowChild(u.up, s, i);
      }
    }
  }

  lemma {:induction false} ValidBelow(files: nat, u: Slot, s: Slot)
    requires ValidSlot(files, u) && Below(u, s) >= 0
    ensures Below(u, s) < ENTRIES && ValidSlot(files, s) && IsIndex(s) && FileOf(u) == FileOf(s)
  {
    if u.up == s {
    } else {
      ValidBelow(files, u.up, s);
    }
  }

  // ----- members -----

  /** Zone z is owned by a slot below one of the first k entries of s. */
  ghost predicate OwnedBelow(v: Vol, s: Slot, k: nat, z: nat) {
    && DataZone(v, z) && OwnerOf(v, z).By?
    && 0 <= Below(OwnerOf(v, z).slot, s) < k
  }

  ghost predicate OwnedAt(v: Vol, s: Slot, z: nat) {
    && DataZone(v, z) && OwnerOf(v, z).By?
    && (OwnerOf(v, z).slot == s || Below(OwnerOf(v, z).slot, s) >= 0)
  }

  lemma {:induction false} ZonesMembers(v: Vol, s: Slot, z: nat)
    requires Owned(v) && ValidSlot(|v.inodes|, s)
    ensures z in Zones(v, s) <==> OwnedAt(v, s, z)
    decreases Height(s), ENTRIES + 1
  {
    assert SlotOk(v, s);
    if DataZone(v, z) {
      assert ZoneOk(v, z);
    }
    if Ptr(v, s) != 0 {
      ZonesBelowMembers(v, s, ENTRIES, z);
      if OwnedAt(v, s, z) && OwnerOf(v, z).slot != s {
        ValidBelow(|v.inodes|, OwnerOf(v, z).slot, s);
      }
    } else if OwnedAt(v, s, z) {
      NothingBelow(v, OwnerOf(v, z).slot, s);
    }
  }

  lemma {:induction false} ZonesBelowMembers(v: Vol, s: Slot, k: nat, z: nat)
    requires Owned(v) && ValidSlot(|v.inodes|, s) && k <= ENTRIES && Ptr(v, s) != 0
    ensures z in ZonesBelow(v, s, k) <==> OwnedBelow(v, s, k, z)
    decreases Height(s), k
  {
    if !IsIndex(s) {
      if OwnedBelow(v, s, k, z) {
        assert ZoneOk(v, z);
        ValidBelow(|v.inodes|, OwnerOf(v, z).slot, s);
      }
    } else if k > 0 {
      ZonesBelowMembers(v, s, k - 1, z);
      ZonesMembers(v, Child(s, k - 1), z);
      if OwnerOf(v, z).By? {
        BelowChild(OwnerOf(v, z).slot, s, k - 1);
      }
    }
  }

  /** Below an empty slot every slot is empty. */
  lemma {:induction false} NothingBelow(v: Vol, u: Slot, s: Slot)
    requires Ptr(v, s) == 0 && (u == s || Below(u, s) >= 0)
    ensures Ptr(v, u) == 0
    decreases u
  {
    if u == s {
    } else {
      NothingBelow(v, u.up, s);
    }
  }

  // ----- no zone twice -----

  lemma {:induction false} ZonesDistinct(v: Vol, s: Slot)
    requires Owned(v) && ValidSlot(|v.inodes|, s)
    ensures Distinct(Zones(v, s))
    decreases Height(s), ENTRIES + 1
  {
    if Ptr(v, s) == 0 {
    } else {
      ZonesBelowDistinct(v, s, ENTRIES);
      assert SlotOk(v, s);
      ShallowerIsNotBelow(s, s);
      ZonesBelowMembers(v, s, ENTRIES, Ptr(v, s));
      DistinctAppend(ZonesBelow(v, s, ENTRIES), [Ptr(v, s)]);
    }
  }

  lemma {:induction false} ZonesBelowDistinct(v: Vol, s: Slot, k: nat)
    requires Owned(v) && ValidSlot(|v.inodes|, s) && k <= ENTRIES && Ptr(v, s) != 0
    ensures Distinct(ZonesBelow(v, s, k))
    decreases Height(s), k
  {
    if k == 0 || !IsIndex(s) {
    } else {
      ZonesBelowDistinct(v, s, k - 1);
      ZonesDistinct(v, Child(s, k - 1));
      var below := ZonesBelow(v, s, k - 1);
      forall z | z in below
        ensures z !in Zones(v, Child(s, k - 1))
      {
        ZonesBelowMembers(v, s, k - 1, z);
        ZonesMembers(v, Child(s, k - 1), z);
        BelowChild(OwnerOf(v, z).slot, s, k - 1);
      }
      DistinctAppend(ZonesBelow(v, s, k - 1), Zones(v, Child(s, k - 1)));
    }
  }

  /** The slot in the inode from which a slot hangs. */
  function RootOf(s: Slot): nat {
    match s
    case Root(_, n) => n
    case Child(up, _) => RootOf(up)
  }

  lemma {:induction false} RootPath(files: nat, u: Slot, f: nat, n: nat)
    requires ValidSlot(files, u)
    ensures (u == Root(f, n) || Below(u, Root(f, n)) >= 0) <==> FileOf(u) == f && RootOf(u) == n
    decreases u
  {
    if u.Root? {
    } else {
      RootPath(files, u.up, f, n);
    }
  }

  /** Zones of file f under its first n slots: exactly those owned from there, each once. */
  lemma {:induction false} FileZonesExact(v: Vol, f: nat, n: nat)
    requires Owned(v) && f < |v.inodes| && n <= 9
    ensures Distinct(FileZones(v, f, n))
    ensures forall z :: z in FileZones(v, f, n) <==>
              DataZone(v, z) && OwnerOf(v, z).By? && FileOf(OwnerOf(v, z).slot) == f && RootOf(OwnerOf(v, z).slot) < n
  {
    if n == 0 {
    } else {
      FileZonesExact(v, f, n - 1);
      var s := Root(f, n - 1);
      ZonesDistinct(v, s);
      forall z: nat
        ensures z in Zones(v, s) <==>
                DataZone(v, z) && OwnerOf(v, z).By? && FileOf(OwnerOf(v, z).slot) == f && RootOf(OwnerOf(v, z).slot) == n - 1
      {
        ZonesMembers(v, s, z);
        if DataZone(v, z) && OwnerOf(v, z).By? {
          assert ZoneOk(v, z);
          RootPath(|v.inodes|, OwnerOf(v, z).slot, f, n - 1);
        }
      }
      DistinctAppend(FileZones(v, f, n - 1), Zones(v, s));
    }
  }

  lemma {:induction false} ValidRoot(files: nat, s: Slot)
    requires ValidSlot(files, s)
    ensures FileOf(s) < files && RootOf(s) < 9
  {
    if s.Root? {
    } else {
      ValidRoot(files, s.up);
    }
  }

  /** truncate frees a file's whole tree: a zone is in the list exactly if the file owns it. */
  lemma TruncateFreesTree(v: Vol, f: nat)
    requires Owned(v) && f < |v.inodes|
    ensures Distinct(FileZones(v, f, 9))
    ensures forall z :: z in FileZones(v, f, 9) <==> DataZone(v, z) && OwnerOf(v, z).By? && FileOf(OwnerOf(v, z).slot) == f
  {
    FileZonesExact(v, f, 9);
    forall z: nat | DataZone(v, z) && OwnerOf(v, z).By?
      ensures RootOf(OwnerOf(v, z).slot) < 9
    {
      assert ZoneOk(v, z);
      ValidRoot(|v.inodes|, OwnerOf(v, z).slot);
    }
  }

  /** The bitmap marks exactly the zones that some slot of some file refers to, and the lost ones; a
      zone is referred to once. */
  lemma BitmapExact(v: Vol, z: nat)
    requires Owned(v) && DataZone(v, z)
    ensures Marked(v, z) <==> OwnerOf(v, z) == Lost || exists s: Slot :: ValidSlot(|v.inodes|, s) && Ptr(v, s) == z
    ensures forall s, u | ValidSlot(|v.inodes|, s) && ValidSlot(|v.inodes|, u) && Ptr(v, s) == z == Ptr(v, u) :: s == u
  {
    assert ZoneOk(v, z);
    forall s, u | ValidSlot(|v.inodes|, s) && ValidSlot(|v.inodes|, u) && Ptr(v, s) == z == Ptr(v, u)
      ensures s == u
    {
      PtrInjective(v, s, u);
    }
    if s :| ValidSlot(|v.inodes|, s) && Ptr(v, s) == z {
      assert SlotOk(v, s);
      assert OwnerOf(v, z) == By(s);
    }
    if OwnerOf(v, z).By? {
      assert ValidSlot(|v.inodes|, OwnerOf(v, z).slot) && Ptr(v, OwnerOf(v, z).slot) == z;
    }
  }

  /** A volume as mkfs leaves it: no file has a zone, only the padding bits are set. */
  function EmptyVol(first: nat, zones: nat, files: nat): Vol {
    Vol(first,
        seq(8, i => seq(BITS, j => !(0 <= i && 0 <= j && 1 <= i * BITS + j && i * BITS + j + first - 1 < zones))),
        seq(zones, _ => ZeroBlock()),
        seq(files, _ => Inode(seq(9, _ => 0), 0, true)),
        seq(zones, _ => Nobody))
  }

  lemma {:induction false} EmptyPtr(first: nat, zones: nat, files: nat, s: Slot)
    ensures Ptr(EmptyVol(first, zones, files), s) == 0
  {
    if s.Root? {
    } else {
      EmptyPtr(first, zones, files, s.up);
    }
  }

  lemma EmptyVolInv(first: nat, zones: nat, files: nat)
    requires 1 <= first < zones < 0x10000
    ensures Inv(EmptyVol(first, zones, files))
  {
    var v := EmptyVol(first, zones, files);
    forall j: nat
      ensures BitAt(v, j) == !(1 <= j && j + first - 1 < zones && j < 8 * BITS)
    {
    }
    forall s: Slot | ValidSlot(|v.inodes|, s)
      ensures SlotOk(v, s)
    {
      EmptyPtr(first, zones, files, s);
    }
    forall f, pos | 0 <= f < files && 0 <= pos < MAX_BYTES
      ensures ByteAt(v, f, pos) == 0
    {
      EmptyPtr(first, zones, files, SlotOf(f, pos / BLOCK_SIZE));
    }
  }

  // ----- clearing bits -----

  /** The bits of the listed zones cleared, one after the other, but for those whose buffer is busy. */
  function ClearAll(v: Vol, zs: seq<nat>, busy: set<nat>): Vol {
    if zs == [] then v
    else
      var w := ClearAll(v, zs[..|zs| - 1], busy);
      if zs[|zs| - 1] in busy then w else WithBit(w, zs[|zs| - 1], false)
  }

  ghost predicate AllData(v: Vol, zs: seq<nat>) {
    forall z | z in zs :: DataZone(v, z)
  }

  lemma {:induction false} ClearAllAppend(v: Vol, a: seq<nat>, b: seq<nat>, busy: set<nat>)
    ensures ClearAll(v, a + b, busy) == ClearAll(ClearAll(v, a, busy), b, busy)
  {
    if b == [] {
      assert a + b == a;
    } else {
      assert (a + b)[..|a + b| - 1] == a + b[..|b| - 1];
      ClearAllAppend(v, a, b[..|b| - 1], busy);
    }
  }

  /** Only the bits of the listed zones change. */
  lemma {:induction false} ClearAllBits(v: Vol, zs: seq<nat>, j: nat, busy: set<nat>)
    requires Shape(v) && AllData(v, zs)
    ensures var w := ClearAll(v, zs, busy);
      && Shape(w) && w == v.(bits := w.bits)
      && BitAt(w, j) == (BitAt(v, j) && (j == 0 || j - 1 + v.first !in zs || j - 1 + v.first in busy))
  {
    if zs == [] {
    } else {
      var rest := zs[..|zs| - 1];
      ClearAllBits(v, rest, j, busy);
      assert zs == rest + [zs[|zs| - 1]] && zs[|zs| - 1] in zs;
      BitAfter(ClearAll(v, rest, busy), zs[|zs| - 1], false, j);
    }
  }

  lemma ClearAllMarked(v: Vol, zs: seq<nat>, z: nat, busy: set<nat>)
    requires Shape(v) && AllData(v, zs) && DataZone(v, z)
    ensures Marked(ClearAll(v, zs, busy), z) == (Marked(v, z) && (z !in zs || z in busy))
  {
    ClearAllBits(v, zs, z - v.first + 1, busy);
    assert Marked(ClearAll(v, zs, busy), z) == BitAt(ClearAll(v, zs, busy), z - v.first + 1);
  }

  // ----- truncate -----

  function EmptyInode(i: Inode): Inode {
    Inode(seq(9, _ => 0), 0, i.regular)
  }

  /** The volume after truncate(f): the file's zones free, or lost if busy, its inode empty. */
  function Truncated(v: Vol, f: nat, busy: set<nat>): Vol {
    var w := ClearAll(v, FileZones(v, f, 9), busy);
    if f < |v.inodes| then
      w.(inodes := v.inodes[f := EmptyInode(v.inodes[f])],
         owner := seq(|v.owner|, z => if 0 <= z < |v.owner| && v.owner[z].By? && FileOf(v.owner[z].slot) == f then
                                        (if z in busy then Lost else Nobody)
                                      else if 0 <= z < |v.owner| then v.owner[z] else Nobody))
    else w
  }

  lemma TruncatedFields(v: Vol, f: nat, busy: set<nat>)
    requires Owned(v) && f < |v.inodes|
    ensures var w := Truncated(v, f, busy);
      && Shape(w) && w.first == v.first && w.blocks == v.blocks
      && w.inodes == v.inodes[f := EmptyInode(v.inodes[f])]
      && (forall z :: OwnerOf(w, z) == if OwnerOf(v, z).By? && FileOf(OwnerOf(v, z).slot) == f then (if z in busy then Lost else Nobody) else OwnerOf(v, z))
  {
    TruncateFreesTree(v, f);
    ClearAllBits(v, FileZones(v, f, 9), 0, busy);
  }

  lemma {:induction false} TruncatedPtr(v: Vol, f: nat, u: Slot, busy: set<nat>)
    requires Owned(v) && f < |v.inodes| && ValidSlot(|v.inodes|, u)
    ensures Ptr(Truncated(v, f, busy), u) == if FileOf(u) == f then 0 else Ptr(v, u)
  {
    TruncatedFields(v, f, busy);
    if u.Root? {
    } else {
      TruncatedPtr(v, f, u.up, busy);
    }
  }

  lemma TruncatedMarked(v: Vol, f: nat, z: nat, busy: set<nat>)
    requires Owned(v) && f < |v.inodes| && DataZone(v, z)
    ensures Marked(Truncated(v, f, busy), z) == (Marked(v, z) && !(OwnerOf(v, z).By? && FileOf(OwnerOf(v, z).slot) == f && z !in busy))
  {
    TruncateFreesTree(v, f);
    ClearAllMarked(v, FileZones(v, f, 9), z, busy);
    ClearAllBits(v, FileZones(v, f, 9), 0, busy);
    var w := ClearAll(v, FileZones(v, f, 9), busy);
    assert Marked(Truncated(v, f, busy), z) == Marked(w, z);
  }

  /** Exactly when truncate gives back the whole tree: if nobody else has one of its blocks in a buffer. */
  lemma TruncateFreesAll(v: Vol, f: nat, busy: set<nat>)
    requires Owned(v) && f < |v.inodes|
    ensures (forall z | z in FileZones(v, f, 9) :: !Marked(Truncated(v, f, busy), z)) <==> (forall z | z in FileZones(v, f, 9) :: z !in busy)
  {
    TruncateFreesTree(v, f);
    forall z | z in FileZones(v, f, 9)
      ensures Marked(Truncated(v, f, busy), z) <==> z in busy
    {
      assert ZoneOk(v, z);
      TruncatedMarked(v, f, z, busy);
    }
  }

  /** The zones that truncate loses. */
  lemma TruncatedLost(v: Vol, f: nat, busy: set<nat>)
    requires Owned(v) && f < |v.inodes|
    ensures LostZones(Truncated(v, f, busy)) == LostZones(v) + (iset z | z in FileZones(v, f, 9) && z in busy)
  {
    TruncateFreesTree(v, f);
    TruncatedFields(v, f, busy);
  }

  /** truncate keeps the ownership invariant. */
  lemma TruncatedOwned(v: Vol, f: nat, busy: set<nat>)
    requires Owned(v) && f < |v.inodes|
    ensures Owned(Truncated(v, f, busy))
  {
    var w := Truncated(v, f, busy);
    TruncatedFields(v, f, busy);
    forall u: Slot | ValidSlot(|w.inodes|, u)
      ensures SlotOk(w, u)
    {
      TruncatedPtr(v, f, u, busy);
      assert SlotOk(v, u);
    }
    forall z: nat | DataZone(w, z)
      ensures ZoneOk(w, z)
    {
      assert ZoneOk(v, z);
      TruncatedMarked(v, f, z, busy);
      if OwnerOf(w, z).By? {
        TruncatedPtr(v, f, OwnerOf(v, z).slot, busy);
      }
    }
    forall j: nat
      ensures PaddingOk(w, j)
    {
      assert PaddingOk(v, j);
      TruncateFreesTree(v, f);
      ClearAllBits(v, FileZones(v, f, 9), j, busy);
    }
  }

  /** Afterwards file f reads as zeros everywhere, and no byte of another file changed. */
  lemma TruncatedBytes(v: Vol, f: nat, g: nat, pos: nat, busy: set<nat>)
    requires Owned(v) && f < |v.inodes| && g < |v.inodes| && pos < MAX_BYTES
    ensures ByteAt(Truncated(v, f, busy), g, pos) == if g == f then 0 else ByteAt(v, g, pos)
  {
    DataSlot(|v.inodes|, g, pos / BLOCK_SIZE);
    TruncatedPtr(v, f, SlotOf(g, pos / BLOCK_SIZE), busy);
    TruncatedFields(v, f, busy);
  }

  lemma TruncatedInv(v: Vol, f: nat, busy: set<nat>)
    requires Inv(v) && f < |v.inodes|
    ensures Inv(Truncated(v, f, busy))
  {
    var w := Truncated(v, f, busy);
    TruncatedOwned(v, f, busy);
    TruncatedFields(v, f, busy);
    forall g | 0 <= g < |w.inodes|
      ensures TailOk(w, g)
    {
      assert TailOk(v, g);
      forall pos | w.inodes[g].size <= pos < MAX_BYTES
        ensures ByteAt(w, g, pos) == 0
      {
        TruncatedBytes(v, f, g, pos, busy);
      }
    }
  }
}
