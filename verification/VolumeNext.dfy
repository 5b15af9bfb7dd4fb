/** What each operation makes of the whole volume. new_block takes the lowest free zone, so nothing is left
    open. */
module VolumeNext {
  import opened VolumeState
  import opened VolumeSteps
  import opened VolumeTree

  /** Slot u leads to slot t, or is t. */
  predicate OnPath(u: Slot, t: Slot) {
    u == t || Below(t, u) >= 0
  }

  /** No zone is lost, or found again. */
  ghost predicate SameLost(v: Vol, w: Vol) {
    w.first == v.first && |w.blocks| == |v.blocks| && forall z :: (OwnerOf(w, z) == Lost) == (OwnerOf(v, z) == Lost)
  }

  /** From v to w zones were linked on the way to slot t only; no byte, no size, no other slot changed. */
  ghost predicate Extends(v: Vol, w: Vol, t: Slot) {
    && |w.inodes| == |v.inodes| && SameLost(v, w)
    && (forall f :: SizeOf(w, f) == SizeOf(v, f))
    && (forall u: Slot {:trigger Ptr(w, u)} | ValidSlot(|v.inodes|, u) ::
          Ptr(w, u) == Ptr(v, u) || (Ptr(v, u) == 0 && OnPath(u, t)))
    && (forall f, pos {:trigger ByteAt(w, f, pos)} | 0 <= f < |v.inodes| && 0 <= pos < MAX_BYTES :: ByteAt(w, f, pos) == ByteAt(v, f, pos))
  }

  lemma LinkedPtrs(v: Vol, s: Slot, z: nat)
    requires Linkable(v, s, z)
    ensures forall u: Slot | ValidSlot(|v.inodes|, u) :: Ptr(Linked(v, s, z), u) == if u == s then z else Ptr(v, u)
  {
    forall u: Slot | ValidSlot(|v.inodes|, u)
      ensures Ptr(Linked(v, s, z), u) == if u == s then z else Ptr(v, u)
    {
      LinkedPtr(v, s, z, u);
    }
  }

  lemma LinkedSame(v: Vol, s: Slot, z: nat)
    requires Linkable(v, s, z)
    ensures forall f, pos | 0 <= f < |v.inodes| && 0 <= pos < MAX_BYTES :: ByteAt(Linked(v, s, z), f, pos) == ByteAt(v, f, pos)
  {
    forall f, pos | 0 <= f < |v.inodes| && 0 <= pos < MAX_BYTES
      ensures ByteAt(Linked(v, s, z), f, pos) == ByteAt(v, f, pos)
    {
      LinkedBytes(v, s, z, f, pos);
    }
  }

  lemma LinkedExtends(v: Vol, s: Slot, z: nat)
    requires Inv(v) && Linkable(v, s, z)
    ensures Inv(Linked(v, s, z)) && Extends(v, Linked(v, s, z), s) && Ptr(Linked(v, s, z), s) == z
  {
    LinkedInv(v, s, z);
    LinkedShape(v, s, z);
    LinkedPtrs(v, s, z);
    LinkedSame(v, s, z);
  }

  lemma ExtendsTrans(v: Vol, w: Vol, x: Vol, t: Slot, s: Slot)
    requires Extends(v, w, t) && Extends(w, x, s) && s.Child? && t == s.up
    ensures Extends(v, x, s)
  {
    forall u: Slot | ValidSlot(|v.inodes|, u)
      ensures Ptr(x, u) == Ptr(v, u) || (Ptr(v, u) == 0 && OnPath(u, s))
    {
      assert OnPath(u, t) ==> OnPath(u, s);
    }
  }

  lemma ExtendsBelow(v: Vol, w: Vol, s: Slot)
    requires s.Child? && Extends(v, w, s.up)
    ensures Extends(v, w, s)
  {
    forall u: Slot | ValidSlot(|v.inodes|, u)
      ensures Ptr(w, u) == Ptr(v, u) || (Ptr(v, u) == 0 && OnPath(u, s))
    {
      assert OnPath(u, s.up) ==> OnPath(u, s);
    }
  }

  lemma EmptyBelow(v: Vol, s: Slot)
    requires s.Child? && Ptr(v, s.up) == 0
    ensures Ptr(v, s) == 0
  {
  }

  ghost predicate Full(v: Vol) {
    forall z: nat | DataZone(v, z) :: Marked(v, z)
  }

  // ----- the lowest free zone -----

  function FreeFrom(v: Vol, z: nat): nat
    decreases |v.blocks| - z
  {
    if z >= |v.blocks| then 0 else if !Marked(v, z) then z else FreeFrom(v, z + 1)
  }

  /** What new_block takes; 0 if the volume is full. */
  function LowestFree(v: Vol): nat {
    FreeFrom(v, v.first)
  }

  lemma {:induction false} FreeFromIs(v: Vol, y: nat, z: nat)
    requires v.first <= y <= z && DataZone(v, z) && !Marked(v, z) && forall x: nat | y <= x < z :: Marked(v, x)
    ensures FreeFrom(v, y) == z
    decreases z - y
  {
    if y == z {
    } else {
      FreeFromIs(v, y + 1, z);
    }
  }

  lemma LowestIs(v: Vol, z: nat)
    requires DataZone(v, z) && !Marked(v, z) && forall y: nat | DataZone(v, y) && y < z :: Marked(v, y)
    ensures LowestFree(v) == z
  {
    FreeFromIs(v, v.first, z);
  }

  lemma {:induction false} FreeFromNone(v: Vol, y: nat)
    requires 1 <= v.first <= y
    ensures FreeFrom(v, y) == 0 <==> forall z: nat | y <= z < |v.blocks| :: Marked(v, z)
    ensures FreeFrom(v, y) != 0 ==> y <= FreeFrom(v, y) < |v.blocks| && !Marked(v, FreeFrom(v, y))
    decreases |v.blocks| - y
  {
    if y >= |v.blocks| {
    } else {
      FreeFromNone(v, y + 1);
    }
  }

  lemma LowestNone(v: Vol)
    requires v.first >= 1
    ensures LowestFree(v) == 0 <==> Full(v)
    ensures LowestFree(v) != 0 ==> DataZone(v, LowestFree(v)) && !Marked(v, LowestFree(v))
  {
    FreeFromNone(v, v.first);
  }

  // ----- the way to a block -----

  /** With create, _bmap makes what is missing at slot s; first, with `way`, what leads to it, from the inode
      on. */
  function MadeAt(v: Vol, s: Slot, way: bool): Vol
    decreases s, way
  {
    if way then
      var w := if s.Child? then MadeAt(v, s.up, true) else v;
      if s.Child? && Ptr(w, s.up) == 0 then w else MadeAt(w, s, false)
    else if Ptr(v, s) != 0 || LowestFree(v) == 0 then v
    else Linked(v, s, LowestFree(v))
  }

  /** Slot s gets a zone if it has none and there is one. */
  function Made(v: Vol, s: Slot): Vol {
    MadeAt(v, s, false)
  }

  /** So does every slot on the way to s. */
  function MadeWay(v: Vol, s: Slot): Vol {
    MadeAt(v, s, true)
  }

  lemma MadeWayChild(v: Vol, s: Slot)
    requires s.Child?
    ensures var w := MadeWay(v, s.up); MadeWay(v, s) == if Ptr(w, s.up) == 0 then w else Made(w, s)
  {
  }

  lemma ExtendsSelf(v: Vol, s: Slot)
    ensures Extends(v, v, s)
  {
  }

  lemma MadeOk(v: Vol, s: Slot)
    requires Inv(v) && ValidSlot(|v.inodes|, s) && (s.Child? ==> Ptr(v, s.up) != 0)
    ensures Inv(Made(v, s)) && Extends(v, Made(v, s), s) && (Ptr(Made(v, s), s) == 0 ==> Full(Made(v, s)))
  {
    LowestNone(v);
    if Ptr(v, s) != 0 || LowestFree(v) == 0 {
      ExtendsSelf(v, s);
    } else {
      assert ZoneOk(v, LowestFree(v));
      LinkedExtends(v, s, LowestFree(v));
    }
  }

  lemma MadeInv(v: Vol, s: Slot)
    requires Inv(v) && ValidSlot(|v.inodes|, s) && (s.Child? ==> Ptr(v, s.up) != 0)
    ensures Inv(Made(v, s)) && Ptr(Made(v, s), s) == if Ptr(v, s) != 0 then Ptr(v, s) else LowestFree(v)
    ensures LowestFree(v) != 0 && Ptr(v, s) == 0 ==> Linkable(v, s, LowestFree(v))
  {
    LowestNone(v);
    if Ptr(v, s) == 0 && LowestFree(v) != 0 {
      assert ZoneOk(v, LowestFree(v));
      LinkedInv(v, s, LowestFree(v));
      LinkedPtr(v, s, LowestFree(v), s);
    }
  }

  /** Only the way to s is changed; if s has no block then, the volume is full. */
  lemma {:induction false} MadeWayOk(v: Vol, s: Slot)
    requires Inv(v) && ValidSlot(|v.inodes|, s)
    ensures Inv(MadeWay(v, s)) && Extends(v, MadeWay(v, s), s)
    ensures Ptr(MadeWay(v, s), s) == 0 ==> Full(MadeWay(v, s))
    ensures Ptr(v, s) != 0 ==> MadeWay(v, s) == v
    decreases s
  {
    match s
    case Root(_, _) => MadeOk(v, s);
    case Child(up, _) =>
      MadeWayOk(v, up);
      var w := MadeWay(v, up);
      if Ptr(w, up) == 0 {
        EmptyBelow(w, s);
        ExtendsBelow(v, w, s);
      } else {
        MadeOk(w, s);
        ExtendsTrans(v, w, Made(w, s), up, s);
      }
  }

  // ----- a zone that truncate loses -----

  /** A volume with one file, of one block. */
  function SmallVol(): Vol {
    Made(EmptyVol(1, 2, 1), Root(0, 0))
  }

  lemma SmallVolIs()
    ensures Inv(SmallVol()) && SmallVol().first == 1 && |SmallVol().blocks| == 2 && |SmallVol().inodes| == 1
    ensures Ptr(SmallVol(), Root(0, 0)) == 1 && OwnerOf(SmallVol(), 1) == By(Root(0, 0)) && Marked(SmallVol(), 1)
    ensures LostZones(SmallVol()) == iset{}
  {
    var v := EmptyVol(1, 2, 1);
    EmptyVolInv(1, 2, 1);
    assert ZoneOk(v, 1);
    LowestIs(v, 1);
    LinkedExtends(v, Root(0, 0), 1);
    LinkedShape(v, Root(0, 0), 1);
    assert ZoneOk(SmallVol(), 1);
  }

  /** While somebody uses the block's buffer, truncate takes the block from the file and does not free it:
      it stays marked, and no slot refers to it. */
  lemma LostExample()
    ensures var w := Truncated(SmallVol(), 0, {1}); Ptr(w, Root(0, 0)) == 0 && Marked(w, 1) && LostZones(w) == iset{1}
  {
    var v := SmallVol();
    SmallVolIs();
    LostIs(v);
  }

  lemma LostIs(v: Vol)
    requires Owned(v) && |v.inodes| == 1 && v.first == 1 && |v.blocks| == 2 && OwnerOf(v, 1) == By(Root(0, 0)) && Marked(v, 1)
    requires LostZones(v) == iset{}
    ensures var w := Truncated(v, 0, {1}); Ptr(w, Root(0, 0)) == 0 && Marked(w, 1) && LostZones(w) == iset{1}
  {
    TruncateFreesTree(v, 0);
    TruncatedPtr(v, 0, Root(0, 0), {1});
    TruncatedMarked(v, 0, 1, {1});
    TruncatedLost(v, 0, {1});
  }
}
