/** fs/bitmap.c, fs/truncate.c, _bmap of fs/inode.c and fs/file_dev.c as methods on a volume
    whose bitmap, blocks and inodes are updated in place. */
module VolumeKernel {
  import opened Sequences
  import opened VolumeState
  import opened VolumeSteps
  import opened VolumeTree
  import opened VolumeNext

  lemma OneZone(v: Vol, z: nat, busy: set<nat>)
    ensures ClearAll(v, [z], busy) == if z in busy then v else WithBit(v, z, false)
  {
    assert [z][..0] == [];
  }

  lemma DataZones(v: Vol, s: Slot)
    requires !IsIndex(s)
    ensures Zones(v, s) == if Ptr(v, s) == 0 then [] else [Ptr(v, s)]
  {
    assert ZonesBelow(v, s, ENTRIES) == [];
  }

  lemma NextBelow(v: Vol, s: Slot, i: nat)
    requires IsIndex(s)
    ensures ZonesBelow(v, s, i + 1) == ZonesBelow(v, s, i) + Zones(v, Child(s, i))
  {
  }

  /** All zones at and below slot s of volume v are still marked in w, which has v's blocks. */
  ghost predicate Freeable(v: Vol, w: Vol, s: Slot) {
    && Owned(v) && ValidSlot(|v.inodes|, s)
    && Shape(w) && w.blocks == v.blocks && w.first == v.first
    && (forall z | z in Zones(v, s) :: Marked(w, z))
  }

  lemma ZonesAllData(v: Vol, s: Slot)
    requires Owned(v) && ValidSlot(|v.inodes|, s)
    ensures AllData(v, Zones(v, s)) && Distinct(Zones(v, s))
    ensures Ptr(v, s) != 0 ==> forall k | 0 <= k <= ENTRIES :: AllData(v, ZonesBelow(v, s, k))
  {
    ZonesDistinct(v, s);
    forall z | z in Zones(v, s)
      ensures DataZone(v, z)
    {
      ZonesMembers(v, s, z);
    }
    if Ptr(v, s) != 0 {
      forall k | 0 <= k <= ENTRIES
        ensures AllData(v, ZonesBelow(v, s, k))
      {
        BelowAllData(v, s, k);
      }
    }
  }

  lemma BelowAllData(v: Vol, s: Slot, k: nat)
    requires Owned(v) && ValidSlot(|v.inodes|, s) && Ptr(v, s) != 0 && k <= ENTRIES
    ensures AllData(v, ZonesBelow(v, s, k))
  {
    forall z | z in ZonesBelow(v, s, k)
      ensures DataZone(v, z)
    {
      ZonesBelowMembers(v, s, k, z);
    }
  }

  /** The store that links z in an index block. */
  lemma LinkedChild(v: Vol, s: Slot, z: nat)
    requires Linkable(v, s, z) && s.Child?
    ensures var w, x, p := Taken(v, z), Linked(v, s, z), Ptr(v, s.up);
      && p < |w.blocks| && x.blocks == w.blocks[p := SetEntry(w.blocks[p], s.k, z)]
      && x.bits == w.bits && x.inodes == w.inodes && x.first == w.first
  {
    TakenPtr(v, z, s.up);
    assert SlotOk(v, s.up);
  }

  /** truncate is at its n-th slot: the zones before are free, the direct ones also cleared. */
  ghost predicate Truncating(v: Vol, w: Vol, f: nat, n: nat, busy: set<nat>) {
    && Owned(v) && f < |v.inodes| && n <= 9
    && Shape(w) && w.first == v.first && w.blocks == v.blocks && w.owner == v.owner
    && w.bits == ClearAll(v, FileZones(v, f, n), busy).bits
    && |w.inodes| == |v.inodes| && |w.inodes[f].zone| == 9
    && (forall g | 0 <= g < |v.inodes| && g != f :: w.inodes[g] == v.inodes[g])
    && w.inodes[f].size == v.inodes[f].size && w.inodes[f].regular == v.inodes[f].regular
    && (forall i | 0 <= i < 9 :: w.inodes[f].zone[i] == if i < n && i < 7 then 0 else v.inodes[f].zone[i])
  }

  lemma BitsOnly(v: Vol, w: Vol, zs: seq<nat>, busy: set<nat>)
    requires w.first == v.first && w.bits == v.bits
    ensures ClearAll(w, zs, busy).bits == ClearAll(v, zs, busy).bits && ClearAll(w, zs, busy).first == v.first
  {
    if zs == [] {
    } else {
      BitsOnly(v, w, zs[..|zs| - 1], busy);
    }
  }

  /** The zones at the n-th slot are still marked when their turn comes. */
  lemma RootTurn(v: Vol, w: Vol, f: nat, n: nat, busy: set<nat>)
    requires Truncating(v, w, f, n, busy) && n < 9
    ensures Freeable(v, w, Root(f, n)) && AllData(v, FileZones(v, f, n)) && AllData(w, Zones(v, Root(f, n)))
  {
    var s, before := Root(f, n), FileZones(v, f, n);
    FileZonesExact(v, f, n);
    ZonesAllData(v, s);
    forall z | z in Zones(v, s)
      ensures Marked(w, z)
    {
      StillMarked(v, w, f, n, z, busy);
    }
  }

  lemma StillMarked(v: Vol, w: Vol, f: nat, n: nat, z: nat, busy: set<nat>)
    requires Truncating(v, w, f, n, busy) && n < 9 && z in Zones(v, Root(f, n))
    ensures Marked(w, z)
  {
    var before := FileZones(v, f, n);
    FileZonesExact(v, f, n);
    ZonesMembers(v, Root(f, n), z);
    assert ZoneOk(v, z);
    RootPath(|v.inodes|, OwnerOf(v, z).slot, f, n);
    ClearAllMarked(v, before, z, busy);
    ClearAllBits(v, before, 0, busy);
    assert Marked(w, z) == Marked(ClearAll(v, before, busy), z);
  }

  lemma TreeDone(v: Vol, w: Vol, f: nat, n: nat, busy: set<nat>)
    requires Truncating(v, w, f, n, busy) && 7 <= n < 9
    ensures Truncating(v, ClearAll(w, Zones(v, Root(f, n)), busy), f, n + 1, busy)
  {
    ClearedBits(v, w, f, n, busy);
  }

  lemma RootDone(v: Vol, w: Vol, f: nat, n: nat, busy: set<nat>)
    requires Truncating(v, w, f, n, busy) && n < 7
    ensures var x := ClearAll(w, Zones(v, Root(f, n)), busy);
      && f < |x.inodes| && n < |x.inodes[f].zone|
      && Truncating(v, x.(inodes := x.inodes[f := x.inodes[f].(zone := x.inodes[f].zone[n := 0])]), f, n + 1, busy)
  {
    ClearedBits(v, w, f, n, busy);
  }

  lemma ClearedBits(v: Vol, w: Vol, f: nat, n: nat, busy: set<nat>)
    requires Truncating(v, w, f, n, busy) && n < 9
    ensures var x := ClearAll(w, Zones(v, Root(f, n)), busy);
      Shape(x) && x == w.(bits := x.bits) && x.bits == ClearAll(v, FileZones(v, f, n + 1), busy).bits
  {
    var before, now := FileZones(v, f, n), Zones(v, Root(f, n));
    RootTurn(v, w, f, n, busy);
    ClearAllBits(w, now, 0, busy);
    ClearAllBits(v, before, 0, busy);
    BitsOnly(ClearAll(v, before, busy), w, now, busy);
    ClearAllAppend(v, before, now, busy);
  }

  /** The first i entries freed, the zones at entry i can be freed next: none of them is free yet. */
  lemma ZoneTurn(v: Vol, w: Vol, s: Slot, i: nat, busy: set<nat>)
    requires Freeable(v, w, s) && IsIndex(s) && Ptr(v, s) != 0 && i < ENTRIES
    ensures Freeable(v, ClearAll(w, ZonesBelow(v, s, i), busy), Child(s, i))
    ensures AllData(w, ZonesBelow(v, s, i))
  {
    var below, u := ZonesBelow(v, s, i), Child(s, i);
    BelowAllData(v, s, i);
    ClearAllBits(w, below, 0, busy);
    ZonesAllData(v, u);
    forall z | z in Zones(v, u)
      ensures Marked(ClearAll(w, below, busy), z)
    {
      ZonesMembers(v, u, z);
      ZonesBelowMembers(v, s, i, z);
      BelowChild(OwnerOf(v, z).slot, s, i);
      ZonesMembers(v, s, z);
      ClearAllMarked(w, below, z, busy);
    }
  }

  lemma LastTurn(v: Vol, w: Vol, s: Slot, busy: set<nat>)
    requires Freeable(v, w, s) && Ptr(v, s) != 0
    ensures var x := ClearAll(w, ZonesBelow(v, s, ENTRIES), busy); DataZone(x, Ptr(v, s)) && Marked(x, Ptr(v, s))
  {
    var below := ZonesBelow(v, s, ENTRIES);
    assert SlotOk(v, s);
    BelowAllData(v, s, ENTRIES);
    ClearAllBits(w, below, 0, busy);
    ZonesBelowMembers(v, s, ENTRIES, Ptr(v, s));
    ShallowerIsNotBelow(s, s);
    ClearAllMarked(w, below, Ptr(v, s), busy);
  }

  lemma TakenShape(v: Vol, z: nat)
    requires Shape(v) && DataZone(v, z)
    ensures Shape(Taken(v, z))
  {
    BitAfter(v, z, true, 0);
  }

  lemma FullBits(v: Vol)
    requires Shape(v)
    requires forall m, n | 0 <= m < |v.bits| && 0 <= n < BITS :: v.bits[m][n]
    ensures Full(v)
  {
  }

  /** The first clear bit stands for the lowest free zone, and for a zone indeed. */
  lemma FoundBit(v: Vol, i: nat, j: nat)
    requires Inv(v) && i < |v.bits| && j < BITS && !v.bits[i][j]
    requires forall n | 0 <= n < j :: v.bits[i][n]
    requires forall m, n | 0 <= m < i && 0 <= n < BITS :: v.bits[m][n]
    ensures var z := j + i * BITS + v.first - 1;
      && z > 0 && DataZone(v, z) && OwnerOf(v, z) == Nobody
      && WithBit(v, z, true).bits == v.bits[i := v.bits[i][j := true]]
      && (forall y: nat | DataZone(v, y) && y < z :: Marked(v, y))
  {
    var n := j + i * BITS;
    assert n / BITS == i && n % BITS == j;
    assert PaddingOk(v, n) && PaddingOk(v, 0);
    var z := n + v.first - 1;
    assert ZoneOk(v, z);
    forall y: nat | DataZone(v, y) && y < z
      ensures Marked(v, y)
    {
      var m := y - v.first + 1;
      assert m / BITS < i || (m / BITS == i && m % BITS < j);
    }
  }

  class Volume {
    const first: nat
    const zmap: array<seq<bool>>
    const blocks: array<seq<byte>>
    const inodes: array<Inode>
    ghost var st: Vol

    ghost predicate Rep()
      reads this, zmap, blocks, inodes
    {
      && zmap as object != blocks && zmap as object != inodes && blocks as object != inodes
      && st.first == first && st.bits == zmap[..] && st.blocks == blocks[..] && st.inodes == inodes[..]
      && Shape(st)
    }

    ghost predicate Valid()
      reads this, zmap, blocks, inodes
    {
      Rep() && Inv(st)
    }

    /** A freshly made volume with `files` empty files. */
    constructor (firstZone: nat, zones: nat, files: nat)
      requires 1 <= firstZone < zones < 0x10000
      ensures Valid() && st == EmptyVol(firstZone, zones, files)
    {
      first := firstZone;
      ghost var v := EmptyVol(firstZone, zones, files);
      zmap := new seq<bool>[8](i => seq(BITS, j => !(0 <= i && 0 <= j && 1 <= i * BITS + j && i * BITS + j + firstZone - 1 < zones)));
      blocks := new seq<byte>[zones](_ => ZeroBlock());
      inodes := new Inode[files](_ => Inode(seq(9, _ => 0), 0, true));
      st := v;
      new;
      EmptyVolInv(firstZone, zones, files);
      assert st.bits == zmap[..] && st.blocks == blocks[..] && st.inodes == inodes[..];
    }

    /** The first zero bit of a bitmap block, found 32 bits at a time; 8192 if there is none. */
    method FindFirstZero(i: nat) returns (j: nat)
      requires Rep() && i < zmap.Length
      ensures j <= BITS && (j < BITS ==> !zmap[i][j])
      ensures forall n | 0 <= n < j :: zmap[i][n]
    {
      var base := 0;
      while base < BITS
        invariant 0 <= base <= BITS && base % 32 == 0
        invariant forall n | 0 <= n < base :: zmap[i][n]
      {
        var bit := 0;
        while bit < 32 && zmap[i][base + bit]
          invariant 0 <= bit <= 32
          invariant forall n | 0 <= n < base + bit :: zmap[i][n]
        {
          bit := bit + 1;
        }
        if bit < 32 {
          return base + bit;
        }
        base := base + 32;
      }
      return BITS;
    }

    /** The search of new_block over the eight bitmap slots of the superblock. */
    method FindFreeBit() returns (i: nat, j: nat)
      requires Rep()
      ensures j < BITS ==> i < zmap.Length && !zmap[i][j] && forall n | 0 <= n < j :: zmap[i][n]
      ensures forall m, n | 0 <= m < i && m < zmap.Length && 0 <= n < BITS :: zmap[m][n]
      ensures j >= BITS ==> i >= zmap.Length
    {
      i, j := 0, BITS;
      while i < 8
        invariant 0 <= i <= 8 && j >= BITS
        invariant forall m, n | 0 <= m < i && m < zmap.Length && 0 <= n < BITS :: zmap[m][n]
      {
        if i < zmap.Length {
          j := FindFirstZero(i);
          if j < BITS {
            return;
          }
        }
        i := i + 1;
      }
    }

    /** Takes the lowest free zone and zeroes its block; 0 when the volume is full. The range check
        after the bit is set cannot fail, for the bits beyond the last zone are set. */
    method NewBlock() returns (z: nat)
      requires Valid()
      modifies zmap, blocks, `st
      ensures Rep()
      ensures z == 0 ==> st == old(st) && Full(st)
      ensures z != 0 ==> DataZone(old(st), z) && OwnerOf(old(st), z) == Nobody && st == Taken(old(st), z)
      ensures z != 0 ==> forall y: nat | DataZone(old(st), y) && y < z :: Marked(old(st), y)
      ensures z == LowestFree(old(st))
    {
      ghost var v := st;
      LowestNone(v);
      var i, j := FindFreeBit();
      if j >= BITS {
        FullBits(v);
        return 0;
      }
      FoundBit(v, i, j);
      z := j + i * BITS + first - 1;
      LowestIs(v, z);
      TakenShape(v, z);
      zmap[i] := zmap[i][j := true];
      blocks[z] := ZeroBlock();
      st := Taken(v, z);
      assert st.bits == zmap[..] && st.blocks == blocks[..];
    }

    /** `if (create && !i_zone[n]) i_zone[n] = new_block()` */
    method FillRoot(f: nat, n: nat, create: bool) returns (z: nat)
      requires Valid() && f < inodes.Length && n < 9
      modifies zmap, blocks, inodes, `st
      ensures Valid() && z == Ptr(st, Root(f, n)) && st == if create then Made(old(st), Root(f, n)) else old(st)
    {
      ghost var v := st;
      MadeInv(v, Root(f, n));
      z := inodes[f].zone[n];
      if create && z == 0 {
        z := NewBlock();
        inodes[f] := inodes[f].(zone := inodes[f].zone[n := z]);
        if z != 0 {
          st := Linked(v, Root(f, n), z);
          LinkedShape(v, Root(f, n), z);
        } else {
          assert inodes[f] == v.inodes[f];
        }
        assert st.inodes == inodes[..];
      }
    }

    /** The same for entry k of the index block p. */
    method FillEntry(p: nat, k: nat, create: bool, ghost s: Slot) returns (z: nat)
      requires Valid() && s.Child? && s.k == k && ValidSlot(|st.inodes|, s) && Ptr(st, s.up) == p != 0
      modifies zmap, blocks, `st
      ensures Valid() && z == Ptr(st, s) && st == if create then Made(old(st), s) else old(st)
    {
      ghost var v := st;
      MadeInv(v, s);
      assert SlotOk(v, s.up);
      z := EntryOf(blocks[p], k);
      if create && z == 0 {
        z := NewBlock();
        if z != 0 {
          LinkedChild(v, s, z);
          blocks[p] := SetEntry(blocks[p], k, z);
          st := Linked(v, s, z);
        }
      }
    }

    /** The zone of file f's block number `block`; with `create`, zones missing on the way are taken. */
    method Bmap(f: nat, block: nat, create: bool) returns (z: nat)
      requires Valid() && f < inodes.Length && block < MAX_BLOCK
      modifies zmap, blocks, inodes, `st
      ensures Valid() && z == Ptr(st, SlotOf(f, block)) && st == if create then MadeWay(old(st), SlotOf(f, block)) else old(st)
    {
      DataSlot(|st.inodes|, f, block);
      if block < 7 {
        z := FillRoot(f, block, create);
        return;
      }
      if block - 7 < ENTRIES {
        z := BmapSingle(f, block - 7, create);
        return;
      }
      z := BmapDouble(f, block - 7 - ENTRIES, create);
    }

    /** The part of _bmap behind the single indirect block. */
    method BmapSingle(f: nat, b: nat, create: bool) returns (z: nat)
      requires Valid() && f < inodes.Length && b < ENTRIES
      modifies zmap, blocks, inodes, `st
      ensures Valid() && z == Ptr(st, SlotOf(f, b + 7))
      ensures st == if create then MadeWay(old(st), SlotOf(f, b + 7)) else old(st)
    {
      ghost var s := SlotOf(f, b + 7);
      MadeWayChild(st, s);
      var p := FillRoot(f, 7, create);
      if p == 0 {
        EmptyBelow(st, s);
        return 0;
      }
      z := FillEntry(p, b, create, s);
    }

    /** The part of _bmap behind the double indirect block. */
    method BmapDouble(f: nat, b: nat, create: bool) returns (z: nat)
      requires Valid() && f < inodes.Length && b < ENTRIES * ENTRIES
      modifies zmap, blocks, inodes, `st
      ensures Valid() && z == Ptr(st, SlotOf(f, b + 7 + ENTRIES))
      ensures st == if create then MadeWay(old(st), SlotOf(f, b + 7 + ENTRIES)) else old(st)
    {
      ghost var s := SlotOf(f, b + 7 + ENTRIES);
      MadeWayChild(st, s);
      MadeWayChild(st, s.up);
      var p := FillRoot(f, 8, create);
      if p == 0 {
        EmptyBelow(st, s.up);
        EmptyBelow(st, s);
        return 0;
      }
      var q := FillEntry(p, b / ENTRIES, create, s.up);
      if q == 0 {
        EmptyBelow(st, s);
        return 0;
      }
      z := FillEntry(q, b % ENTRIES, create, s);
    }

    /** Gives a zone back, unless others use its buffer. The panics of the source, for a number that is
        no data zone and for a clear bit, are the precondition. */
    method FreeBlock(z: nat, busy: set<nat>)
      requires Rep() && DataZone(st, z) && Marked(st, z)
      modifies zmap, `st
      ensures Rep() && st == if z in busy then old(st) else WithBit(old(st), z, false)
    {
      if z in busy {
        return;
      }
      ghost var v := st;
      BitAfter(v, z, false, 0);
      var j := z - first + 1;
      assert j / BITS < zmap.Length;
      zmap[j / BITS] := zmap[j / BITS][j % BITS := false];
      st := WithBit(v, z, false);
      assert st.bits == zmap[..];
    }

    /** `if (*p) free_block(*p)` for a slot that names a data block. */
    method FreeData(p: nat, ghost v: Vol, ghost s: Slot, busy: set<nat>)
      requires Rep() && Freeable(v, st, s) && p == Ptr(v, s) && !IsIndex(s)
      modifies zmap, `st
      ensures Rep() && st == ClearAll(old(st), Zones(v, s), busy)
    {
      ghost var w := st;
      DataZones(v, s);
      if p != 0 {
        ZonesAllData(v, s);
        assert p in Zones(v, s);
        FreeBlock(p, busy);
        OneZone(w, p, busy);
      }
    }

    /** free_ind: the zones named in an index block, then the block. `v` is the volume before the
        truncation, whose blocks are still there to be read. */
    method FreeInd(block: nat, ghost v: Vol, ghost s: Slot, busy: set<nat>)
      requires Rep() && Freeable(v, st, s) && block == Ptr(v, s) && IsIndex(s) && Height(s) == 1
      modifies zmap, `st
      ensures Rep() && st == ClearAll(old(st), Zones(v, s), busy)
    {
      if block != 0 {
        ghost var w := st;
        FreeEntries(block, v, s, busy);
        LastTurn(v, w, s, busy);
        FreeBlock(block, busy);
        ClearAllAppend(w, ZonesBelow(v, s, ENTRIES), [block], busy);
        OneZone(ClearAll(w, ZonesBelow(v, s, ENTRIES), busy), block, busy);
      }
    }

    /** The loop of free_ind over the 512 entries. */
    method FreeEntries(block: nat, ghost v: Vol, ghost s: Slot, busy: set<nat>)
      requires Rep() && Freeable(v, st, s) && block == Ptr(v, s) != 0 && IsIndex(s) && Height(s) == 1
      modifies zmap, `st
      ensures Rep() && st == ClearAll(old(st), ZonesBelow(v, s, ENTRIES), busy)
    {
      ghost var w := st;
      assert SlotOk(v, s);
      var i := 0;
      while i < ENTRIES
        invariant 0 <= i <= ENTRIES && Rep() && st.blocks == v.blocks
        invariant st == ClearAll(w, ZonesBelow(v, s, i), busy)
      {
        FreeEntry(block, i, v, w, s, busy);
        i := i + 1;
      }
    }

    method FreeEntry(block: nat, i: nat, ghost v: Vol, ghost w: Vol, ghost s: Slot, busy: set<nat>)
      requires Rep() && Freeable(v, w, s) && block == Ptr(v, s) != 0 && IsIndex(s) && Height(s) == 1 && i < ENTRIES
      requires block < blocks.Length && st.blocks == v.blocks && st == ClearAll(w, ZonesBelow(v, s, i), busy)
      modifies zmap, `st
      ensures Rep() && st.blocks == v.blocks && st == ClearAll(w, ZonesBelow(v, s, i + 1), busy)
    {
      var p := EntryOf(blocks[block], i);
      ZoneTurn(v, w, s, i, busy);
      FreeData(p, v, Child(s, i), busy);
      ClearAllAppend(w, ZonesBelow(v, s, i), Zones(v, Child(s, i)), busy);
      NextBelow(v, s, i);
    }

    /** free_dind: the same with free_ind for every entry. */
    method FreeDind(block: nat, ghost v: Vol, ghost s: Slot, busy: set<nat>)
      requires Rep() && Freeable(v, st, s) && block == Ptr(v, s) && IsIndex(s) && Height(s) == 2
      modifies zmap, `st
      ensures Rep() && st == ClearAll(old(st), Zones(v, s), busy)
    {
      ghost var w := st;
      if block == 0 {
        return;
      }
      ZonesAllData(v, s);
      assert SlotOk(v, s);
      var i := 0;
      while i < ENTRIES
        invariant 0 <= i <= ENTRIES && Rep() && w.blocks == v.blocks
        invariant st == ClearAll(w, ZonesBelow(v, s, i), busy)
      {
        var p := EntryOf(blocks[block], i);
        ZoneTurn(v, w, s, i, busy);
        if p != 0 {
          FreeInd(p, v, Child(s, i), busy);
        }
        ClearAllAppend(w, ZonesBelow(v, s, i), Zones(v, Child(s, i)), busy);
        i := i + 1;
      }
      LastTurn(v, w, s, busy);
      FreeBlock(block, busy);
      ClearAllAppend(w, ZonesBelow(v, s, ENTRIES), [block], busy);
    }

    /** Gives all zones of a regular file or directory back and makes it empty. */
    method Truncate(f: nat, busy: set<nat>)
      requires Valid() && f < inodes.Length
      modifies zmap, inodes, `st
      ensures Valid()
      ensures st == if old(st).inodes[f].regular then Truncated(old(st), f, busy) else old(st)
    {
      ghost var v := st;
      if !inodes[f].regular {
        return;
      }
      var i := 0;
      while i < 7
        invariant 0 <= i <= 7 && Rep() && Truncating(v, st, f, i, busy)
      {
        RootTurn(v, st, f, i, busy);
        ghost var w := st;
        FreeData(inodes[f].zone[i], v, Root(f, i), busy);
        inodes[f] := inodes[f].(zone := inodes[f].zone[i := 0]);
        RootDone(v, w, f, i, busy);
        st := st.(inodes := st.inodes[f := st.inodes[f].(zone := st.inodes[f].zone[i := 0])]);
        assert st.inodes == inodes[..];
        i := i + 1;
      }
      TruncateRest(f, v, busy);
    }

    /** The last lines of truncate: the two trees, then the inode. */
    method TruncateRest(f: nat, ghost v: Vol, busy: set<nat>)
      requires Rep() && Inv(v) && Truncating(v, st, f, 7, busy)
      modifies zmap, inodes, `st
      ensures Valid() && st == Truncated(v, f, busy)
    {
      FreeTrees(f, v, busy);
      inodes[f] := inodes[f].(zone := inodes[f].zone[7 := 0][8 := 0]);
      inodes[f] := inodes[f].(size := 0);
      assert inodes[f].zone == EmptyInode(v.inodes[f]).zone;
      TruncatedInv(v, f, busy);
      TruncatedFields(v, f, busy);
      st := Truncated(v, f, busy);
      assert st.inodes == inodes[..];
    }

    method FreeTrees(f: nat, ghost v: Vol, busy: set<nat>)
      requires Rep() && Inv(v) && Truncating(v, st, f, 7, busy)
      modifies zmap, `st
      ensures Rep() && Truncating(v, st, f, 9, busy)
    {
      RootTurn(v, st, f, 7, busy);
      ghost var w := st;
      FreeInd(inodes[f].zone[7], v, Root(f, 7), busy);
      TreeDone(v, w, f, 7, busy);
      RootTurn(v, st, f, 8, busy);
      w := st;
      FreeDind(inodes[f].zone[8], v, Root(f, 8), busy);
      TreeDone(v, w, f, 8, busy);
    }
  }
}
