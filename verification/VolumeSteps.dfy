/** What linking a fresh zone, filling a block and freeing zones do to the tree and to the bytes. */
module VolumeSteps {
  import opened VolumeState

  // ----- index blocks and bitmap bits -----

  lemma EntryAfterSet(b: seq<byte>, k: nat, z: nat, i: nat)
    requires |b| == BLOCK_SIZE && k < ENTRIES && i < ENTRIES && z < 0x10000
    ensures |SetEntry(b, k, z)| == BLOCK_SIZE
    ensures EntryOf(SetEntry(b, k, z), i) == if i == k then z else EntryOf(b, i)
  {
  }

  lemma EntryOfZero(k: nat)
    ensures EntryOf(ZeroBlock(), k) == 0
  {
  }

  lemma BitAfter(v: Vol, z: nat, b: bool, j: nat)
    requires Shape(v) && DataZone(v, z)
    ensures Shape(WithBit(v, z, b))
    ensures BitAt(WithBit(v, z, b), j) == if j == z - v.first + 1 then b else BitAt(v, j)
  {
    var i := z - v.first + 1;
    assert i / BITS < |v.bits|;
    assert j == i <==> j / BITS == i / BITS && j % BITS == i % BITS;
  }

  // ----- slots -----

  lemma DataSlot(files: nat, f: nat, b: nat)
    requires f < files && b < MAX_BLOCK
    ensures ValidSlot(files, SlotOf(f, b)) && !IsIndex(SlotOf(f, b)) && FileOf(SlotOf(f, b)) == f
  {
    assert b >= 7 + ENTRIES ==> FileOf(Child(Root(f, 8), (b - 7 - ENTRIES) / ENTRIES)) == f;
  }

  lemma SlotOfInjective(f: nat, b: nat, g: nat, c: nat)
    requires b < MAX_BLOCK && c < MAX_BLOCK && SlotOf(f, b) == SlotOf(g, c)
    ensures f == g && b == c
  {
  }

  /** Two slots with the same zone number are one slot. */
  lemma PtrInjective(v: Vol, s: Slot, u: Slot)
    requires Owned(v) && ValidSlot(|v.inodes|, s) && ValidSlot(|v.inodes|, u)
    requires Ptr(v, s) == Ptr(v, u) != 0
    ensures s == u
  {
    assert SlotOk(v, s) && SlotOk(v, u);
  }

  // ----- a fresh zone is linked -----

  /** Slot s is empty and can take a zone; zone z belongs to nobody. */
  ghost predicate Linkable(v: Vol, s: Slot, z: nat) {
    && Owned(v)
    && ValidSlot(|v.inodes|, s) && Ptr(v, s) == 0 && (s.Child? ==> Ptr(v, s.up) != 0)
    && DataZone(v, z) && OwnerOf(v, z) == Nobody
  }

  /** The state after new_block gave zone z. */
  function Taken(v: Vol, z: nat): Vol {
    WithBlock(WithBit(v, z, true), z, ZeroBlock())
  }

  function Linked(v: Vol, s: Slot, z: nat): Vol {
    WithOwner(WithPtr(Taken(v, z), s, z), z, By(s))
  }

  lemma TakenPtr(v: Vol, z: nat, u: Slot)
    requires Owned(v) && DataZone(v, z) && OwnerOf(v, z) == Nobody && ValidSlot(|v.inodes|, u)
    ensures Ptr(Taken(v, z), u) == Ptr(v, u)
  {
    match u
    case Root(_, _) =>
    case Child(up, k) =>
      TakenPtr(v, z, up);
      assert SlotOk(v, up);
  }

  /** Of the blocks linking changes the new zone's, and the index block that holds the slot. */
  lemma LinkedBlock(v: Vol, s: Slot, z: nat, y: nat)
    requires Linkable(v, s, z) && (s.Child? ==> y != Ptr(v, s.up))
    ensures BlockAt(Linked(v, s, z), y) == if y == z then ZeroBlock() else BlockAt(v, y)
  {
    if s.Child? {
      TakenPtr(v, z, s.up);
      assert SlotOk(v, s.up);
    }
  }

  lemma LinkedIndex(v: Vol, s: Slot, z: nat, k: nat)
    requires Linkable(v, s, z) && s.Child? && k < ENTRIES
    ensures EntryOf(BlockAt(Linked(v, s, z), Ptr(v, s.up)), k) == if k == s.k then z else EntryOf(BlockAt(v, Ptr(v, s.up)), k)
  {
    TakenPtr(v, z, s.up);
    assert SlotOk(v, s.up);
    EntryAfterSet(BlockAt(v, Ptr(v, s.up)), s.k, z, k);
  }

  /** Linking changes one slot; the slots below it stay empty. */
  lemma {:induction false} LinkedPtr(v: Vol, s: Slot, z: nat, u: Slot)
    requires Linkable(v, s, z) && ValidSlot(|v.inodes|, u)
    ensures Ptr(Linked(v, s, z), u) == if u == s then z else Ptr(v, u)
    decreases u
  {
    match u
    case Root(_, _) =>
    case Child(up, k) =>
      LinkedPtr(v, s, z, up);
      assert SlotOk(v, up);
      EntryOfZero(k);
      if s.Child? && s.up == up {
        LinkedIndex(v, s, z, k);
      } else if Ptr(Linked(v, s, z), up) != 0 {
        assert s.Child? ==> SlotOk(v, s.up);
        LinkedBlock(v, s, z, Ptr(Linked(v, s, z), up));
      }
  }

  lemma LinkedForm(v: Vol, s: Slot, z: nat)
    requires Linkable(v, s, z)
    ensures Shape(Linked(v, s, z))
    ensures Linked(v, s, z).bits == WithBit(v, z, true).bits
  {
    BitAfter(v, z, true, 0);
    if s.Child? {
      TakenPtr(v, z, s.up);
      assert SlotOk(v, s.up);
      EntryAfterSet(BlockAt(v, Ptr(v, s.up)), s.k, z, 0);
    }
  }

  lemma LinkedShape(v: Vol, s: Slot, z: nat)
    requires Linkable(v, s, z)
    ensures Shape(Linked(v, s, z))
    ensures Linked(v, s, z).owner == v.owner[z := By(s)]
    ensures Linked(v, s, z).first == v.first
    ensures |Linked(v, s, z).blocks| == |v.blocks| && |Linked(v, s, z).inodes| == |v.inodes|
    ensures forall j: nat :: BitAt(Linked(v, s, z), j) == if j == z - v.first + 1 then true else BitAt(v, j)
    ensures forall f :: SizeOf(Linked(v, s, z), f) == SizeOf(v, f)
  {
    LinkedForm(v, s, z);
    forall j: nat
      ensures BitAt(Linked(v, s, z), j) == if j == z - v.first + 1 then true else BitAt(v, j)
    {
      BitAfter(v, z, true, j);
    }
  }

  lemma LinkedSlot(v: Vol, s: Slot, z: nat, u: Slot)
    requires Linkable(v, s, z) && ValidSlot(|v.inodes|, u)
    ensures SlotOk(Linked(v, s, z), u)
  {
    LinkedShape(v, s, z);
    LinkedPtr(v, s, z, u);
    assert SlotOk(v, u);
  }

  lemma LinkedZone(v: Vol, s: Slot, z: nat, y: nat)
    requires Linkable(v, s, z) && DataZone(v, y)
    ensures ZoneOk(Linked(v, s, z), y)
  {
    LinkedShape(v, s, z);
    assert ZoneOk(v, y);
    if y == z {
      LinkedPtr(v, s, z, s);
    } else if OwnerOf(v, y).By? {
      LinkedPtr(v, s, z, OwnerOf(v, y).slot);
    }
  }

  /** The ownership invariant survives linking. */
  lemma LinkedOwned(v: Vol, s: Slot, z: nat)
    requires Linkable(v, s, z)
    ensures Owned(Linked(v, s, z))
  {
    var v' := Linked(v, s, z);
    LinkedShape(v, s, z);
    forall u: Slot | ValidSlot(|v'.inodes|, u)
      ensures SlotOk(v', u)
    {
      LinkedSlot(v, s, z, u);
    }
    forall y: nat | DataZone(v', y)
      ensures ZoneOk(v', y)
    {
      LinkedZone(v, s, z, y);
    }
    forall j: nat
      ensures PaddingOk(v', j)
    {
      assert PaddingOk(v, j);
    }
  }

  /** Blocks of data slots are not touched by linking, and a fresh block reads as zeros: no byte
      of any file changes. */
  lemma LinkedBytes(v: Vol, s: Slot, z: nat, f: nat, pos: nat)
    requires Linkable(v, s, z) && f < |v.inodes| && pos < MAX_BYTES
    ensures ByteAt(Linked(v, s, z), f, pos) == ByteAt(v, f, pos)
  {
    var u := SlotOf(f, pos / BLOCK_SIZE);
    DataSlot(|v.inodes|, f, pos / BLOCK_SIZE);
    LinkedPtr(v, s, z, u);
    assert SlotOk(v, u) && (s.Child? ==> SlotOk(v, s.up));
    LinkedBlock(v, s, z, Ptr(Linked(v, s, z), u));
  }

  lemma LinkedInv(v: Vol, s: Slot, z: nat)
    requires Inv(v) && Linkable(v, s, z)
    ensures Inv(Linked(v, s, z))
  {
    LinkedOwned(v, s, z);
    LinkedShape(v, s, z);
    forall f | 0 <= f < |v.inodes|
      ensures TailOk(Linked(v, s, z), f)
    {
      assert TailOk(v, f);
      forall pos | SizeOf(v, f) <= pos < MAX_BYTES
        ensures ByteAt(Linked(v, s, z), f, pos) == 0
      {
        LinkedBytes(v, s, z, f, pos);
      }
    }
  }

  // ----- a data block is written -----

  lemma {:induction false} WrittenPtr(v: Vol, s: Slot, b: seq<byte>, u: Slot)
    requires Owned(v) && ValidSlot(|v.inodes|, s) && !IsIndex(s) && Ptr(v, s) != 0 && ValidSlot(|v.inodes|, u)
    ensures Ptr(WithBlock(v, Ptr(v, s), b), u) == Ptr(v, u)
    decreases u
  {
    match u
    case Root(_, _) =>
    case Child(up, k) =>
      WrittenPtr(v, s, b, up);
      assert SlotOk(v, up) && SlotOk(v, s);
  }

  /** Writing the block of file f's block number n changes no mapping and no other block's bytes. */
  lemma WrittenOwned(v: Vol, s: Slot, b: seq<byte>)
    requires Owned(v) && ValidSlot(|v.inodes|, s) && !IsIndex(s) && Ptr(v, s) != 0 && |b| == BLOCK_SIZE
    ensures Owned(WithBlock(v, Ptr(v, s), b))
  {
    var v' := WithBlock(v, Ptr(v, s), b);
    forall u: Slot | ValidSlot(|v.inodes|, u)
      ensures SlotOk(v', u)
    {
      WrittenPtr(v, s, b, u);
      assert SlotOk(v, u);
    }
    forall y: nat | DataZone(v', y)
      ensures ZoneOk(v', y)
    {
      assert ZoneOk(v, y);
      if OwnerOf(v, y).By? {
        WrittenPtr(v, s, b, OwnerOf(v, y).slot);
      }
    }
    forall j: nat
      ensures PaddingOk(v', j)
    {
      assert PaddingOk(v, j);
    }
  }

  lemma WrittenBytes(v: Vol, f: nat, n: nat, b: seq<byte>, g: nat, pos: nat)
    requires Owned(v) && f < |v.inodes| && g < |v.inodes| && n < MAX_BLOCK && pos < MAX_BYTES
    requires Ptr(v, SlotOf(f, n)) != 0 && |b| == BLOCK_SIZE
    ensures ByteAt(WithBlock(v, Ptr(v, SlotOf(f, n)), b), g, pos) ==
            if g == f && pos / BLOCK_SIZE == n then b[pos % BLOCK_SIZE] else ByteAt(v, g, pos)
  {
    var s, u := SlotOf(f, n), SlotOf(g, pos / BLOCK_SIZE);
    DataSlot(|v.inodes|, f, n);
    DataSlot(|v.inodes|, g, pos / BLOCK_SIZE);
    WrittenPtr(v, s, b, u);
    assert SlotOk(v, s) && SlotOk(v, u);
    if u == s {
      SlotOfInjective(f, n, g, pos / BLOCK_SIZE);
    }
  }
}
