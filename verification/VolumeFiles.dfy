/** fs/file_dev.c and the regular-file part of sys_read: a file on the volume is a growable
    sequence of bytes in which holes read as zeros. */
module VolumeFiles {
  import opened VolumeState
  import opened VolumeSteps
  import opened VolumeTree
  import opened VolumeNext
  import opened VolumeKernel

  /** The file as a sequence of bytes. */
  function Contents(v: Vol, f: nat): seq<byte> {
    seq(SizeOf(v, f), p => if 0 <= p then ByteAt(v, f, p) else 0)
  }

  function Zeros(n: nat): seq<byte> {
    seq(n, _ => 0)
  }

  /** Writing `data` at `pos` of a growable array: zeros fill a gap, bytes beyond the write stay. */
  function Overwrite(c: seq<byte>, pos: nat, data: seq<byte>): seq<byte> {
    if data == [] then c
    else
      var c1 := if |c| < pos then c + Zeros(pos - |c|) else c;
      c1[..pos] + data + (if pos + |data| < |c1| then c1[pos + |data|..] else [])
  }

  function Min(a: nat, b: nat): nat {
    if a < b then a else b
  }

  function Max(a: nat, b: nat): nat {
    if a < b then b else a
  }

  // ----- one block of a write -----

  /** A block with `data` laid over it at offset o. */
  function Patched(b: seq<byte>, o: nat, data: seq<byte>): seq<byte>
    requires o + |data| <= |b|
  {
    b[..o] + data + b[o + |data|..]
  }

  /** The volume after `data` was written inside one block of file f at pos. */
  function Written(v: Vol, f: nat, pos: nat, data: seq<byte>): Vol {
    var z := Ptr(v, SlotOf(f, pos / BLOCK_SIZE));
    var o := pos % BLOCK_SIZE;
    if o + |data| <= |BlockAt(v, z)| then
      WithSize(WithBlock(v, z, Patched(BlockAt(v, z), o, data)), f, Max(SizeOf(v, f), pos + |data|))
    else v
  }

  /** From v to w bytes start to start + |data| of file f became data, and nothing else changed. */
  ghost predicate Wrote(v: Vol, w: Vol, f: nat, start: nat, data: seq<byte>) {
    && |w.inodes| == |v.inodes| && SameLost(v, w)
    && (forall g :: SizeOf(w, g) == if g == f && data != [] then Max(SizeOf(v, f), start + |data|) else SizeOf(v, g))
    && (forall g, p {:trigger ByteAt(w, g, p)} | 0 <= g < |v.inodes| && 0 <= p < MAX_BYTES ::
          ByteAt(w, g, p) == if g == f && start <= p < start + |data| then data[p - start] else ByteAt(v, g, p))
  }

  /** The write at pos fits the block that is there. */
  ghost predicate Writable(v: Vol, f: nat, pos: nat, data: seq<byte>) {
    && Inv(v) && f < |v.inodes| && data != [] && pos + |data| <= MAX_BYTES
    && pos % BLOCK_SIZE + |data| <= BLOCK_SIZE
    && Ptr(v, SlotOf(f, pos / BLOCK_SIZE)) != 0
  }

  lemma SizePtr(v: Vol, f: nat, size: nat, s: Slot)
    ensures Ptr(WithSize(v, f, size), s) == Ptr(v, s)
  {
  }

  lemma WrittenByte(v: Vol, f: nat, pos: nat, data: seq<byte>, g: nat, p: nat)
    requires Writable(v, f, pos, data) && g < |v.inodes| && p < MAX_BYTES
    ensures ByteAt(Written(v, f, pos, data), g, p) ==
            if g == f && pos <= p < pos + |data| then data[p - pos] else ByteAt(v, g, p)
  {
    var n, o := pos / BLOCK_SIZE, pos % BLOCK_SIZE;
    var z := Ptr(v, SlotOf(f, n));
    DataSlot(|v.inodes|, f, n);
    assert SlotOk(v, SlotOf(f, n));
    var b := Patched(BlockAt(v, z), o, data);
    WrittenBytes(v, f, n, b, g, p);
    SizePtr(WithBlock(v, z, b), f, Max(SizeOf(v, f), pos + |data|), SlotOf(g, p / BLOCK_SIZE));
    InBlock(pos, |data|, p);
  }

  /** The positions of a stretch inside one block. */
  lemma InBlock(pos: nat, len: nat, p: nat)
    requires pos % BLOCK_SIZE + len <= BLOCK_SIZE
    ensures pos <= p < pos + len <==> p / BLOCK_SIZE == pos / BLOCK_SIZE && pos % BLOCK_SIZE <= p % BLOCK_SIZE < pos % BLOCK_SIZE + len
    ensures p / BLOCK_SIZE == pos / BLOCK_SIZE ==> p - pos == p % BLOCK_SIZE - pos % BLOCK_SIZE
  {
    assert pos == BLOCK_SIZE * (pos / BLOCK_SIZE) + pos % BLOCK_SIZE && p == BLOCK_SIZE * (p / BLOCK_SIZE) + p % BLOCK_SIZE;
  }

  lemma SizeOwned(v: Vol, f: nat, size: nat)
    requires Owned(v) && size <= MAX_BYTES
    ensures Owned(WithSize(v, f, size))
  {
    var w := WithSize(v, f, size);
    forall s: Slot | ValidSlot(|w.inodes|, s)
      ensures SlotOk(w, s)
    {
      SizePtr(v, f, size, s);
      assert SlotOk(v, s);
    }
    forall z: nat | DataZone(w, z)
      ensures ZoneOk(w, z)
    {
      assert ZoneOk(v, z);
      if OwnerOf(v, z).By? {
        SizePtr(v, f, size, OwnerOf(v, z).slot);
      }
    }
    forall j: nat
      ensures PaddingOk(w, j)
    {
      assert PaddingOk(v, j);
    }
  }

  /** One block of a write keeps the volume's invariant and changes just those bytes. */
  lemma WrittenKeeps(v: Vol, f: nat, pos: nat, data: seq<byte>)
    requires Writable(v, f, pos, data)
    ensures Inv(Written(v, f, pos, data)) && Wrote(v, Written(v, f, pos, data), f, pos, data)
  {
    var n, o := pos / BLOCK_SIZE, pos % BLOCK_SIZE;
    var z, w := Ptr(v, SlotOf(f, n)), Written(v, f, pos, data);
    DataSlot(|v.inodes|, f, n);
    assert SlotOk(v, SlotOf(f, n));
    WrittenOwned(v, SlotOf(f, n), Patched(BlockAt(v, z), o, data));
    SizeOwned(WithBlock(v, z, Patched(BlockAt(v, z), o, data)), f, Max(SizeOf(v, f), pos + |data|));
    forall g, p | 0 <= g < |v.inodes| && 0 <= p < MAX_BYTES
      ensures ByteAt(w, g, p) == if g == f && pos <= p < pos + |data| then data[p - pos] else ByteAt(v, g, p)
    {
      WrittenByte(v, f, pos, data, g, p);
    }
    forall g | 0 <= g < |w.inodes|
      ensures TailOk(w, g)
    {
      assert TailOk(v, g);
    }
  }

  lemma ExtendsThenWrote(v: Vol, w: Vol, x: Vol, f: nat, start: nat, data: seq<byte>, t: Slot)
    requires Extends(v, w, t) && Wrote(w, x, f, start, data)
    ensures Wrote(v, x, f, start, data)
  {
  }

  lemma WroteTwice(v: Vol, w: Vol, x: Vol, f: nat, start: nat, a: seq<byte>, b: seq<byte>)
    requires Wrote(v, w, f, start, a) && Wrote(w, x, f, start + |a|, b)
    ensures Wrote(v, x, f, start, a + b)
  {
    forall g, p | 0 <= g < |v.inodes| && 0 <= p < MAX_BYTES
      ensures ByteAt(x, g, p) == if g == f && start <= p < start + |a + b| then (a + b)[p - start] else ByteAt(v, g, p)
    {
    }
  }

  /** In terms of whole files: an overwrite of f, and no other file changed. */
  lemma WroteContents(v: Vol, w: Vol, f: nat, start: nat, data: seq<byte>)
    requires Inv(v) && f < |v.inodes| && (data != [] ==> start + |data| <= MAX_BYTES) && Wrote(v, w, f, start, data)
    ensures Contents(w, f) == Overwrite(Contents(v, f), start, data)
    ensures forall g | 0 <= g < |v.inodes| && g != f :: Contents(w, g) == Contents(v, g)
  {
    assert TailOk(v, f);
    var c, c' := Contents(v, f), Contents(w, f);
    var d := Overwrite(c, start, data);
    assert |c'| == |d|;
    forall p | 0 <= p < |d|
      ensures c'[p] == d[p]
    {
      assert ByteAt(w, f, p) == if start <= p < start + |data| then data[p - start] else ByteAt(v, f, p);
    }
    forall g | 0 <= g < |v.inodes| && g != f
      ensures Contents(w, g) == Contents(v, g)
    {
      assert SizeOf(w, g) == SizeOf(v, g);
    }
  }

  // ----- a whole write -----

  /** The volume is full, and file f has no block for position pos. */
  ghost predicate NoRoom(v: Vol, f: nat, pos: nat) {
    Full(v) && Ptr(v, SlotOf(f, pos / BLOCK_SIZE)) == 0
  }

  /** The bytes of a turn: up to the end of the block. */
  function TurnSize(pos: nat, left: nat): nat {
    if left < BLOCK_SIZE - pos % BLOCK_SIZE then left else BLOCK_SIZE - pos % BLOCK_SIZE
  }

  /** file_write in progress: the volume, the bytes written, and whether a block was missing. */
  datatype Progress = Progress(v: Vol, i: nat, full: bool)

  /** No turn is left: all is written, there is no room, or the largest file ends. */
  predicate Stopped(p: Progress, start: nat, data: seq<byte>) {
    p.full || p.i >= |data| || start + p.i >= MAX_BYTES
  }

  /** Even with what can be made, file f has no block for position pos. */
  predicate NoBlock(v: Vol, f: nat, pos: nat) {
    var s := SlotOf(f, pos / BLOCK_SIZE);
    Ptr(MadeWay(v, s), s) == 0
  }

  /** What is missing on the way to the block is made; if there is a block then, it is filled. */
  function BlockWritten(v: Vol, f: nat, pos: nat, data: seq<byte>): Vol {
    var s := SlotOf(f, pos / BLOCK_SIZE);
    var w := MadeWay(v, s);
    if Ptr(w, s) == 0 then w else Written(w, f, pos, data)
  }

  /** A turn of its loop. */
  function Turn(p: Progress, f: nat, start: nat, data: seq<byte>): Progress {
    if Stopped(p, start, data) then p
    else
      var c, full := TurnSize(start + p.i, |data| - p.i), NoBlock(p.v, f, start + p.i);
      Progress(BlockWritten(p.v, f, start + p.i, data[p.i..p.i + c]), if full then p.i else p.i + c, full)
  }

  function Turns(p: Progress, f: nat, start: nat, data: seq<byte>, n: nat): Progress {
    if n == 0 then p else Turn(Turns(p, f, start, data, n - 1), f, start, data)
  }

  /** The whole of file_write. */
  function Writing(v: Vol, f: nat, start: nat, data: seq<byte>): Progress {
    Turns(Progress(v, 0, false), f, start, data, |data|)
  }

  lemma {:induction false} TurnsOver(p: Progress, f: nat, start: nat, data: seq<byte>, m: nat, n: nat)
    requires m <= n && Stopped(Turns(p, f, start, data, m), start, data)
    ensures Turns(p, f, start, data, n) == Turns(p, f, start, data, m)
  {
    if m == n {
    } else {
      TurnsOver(p, f, start, data, m, n - 1);
    }
  }

  /** What holds of a write in progress: just its first bytes are changed, and a block is missing only on a
      full volume. */
  ghost predicate InProgress(v: Vol, p: Progress, f: nat, start: nat, data: seq<byte>) {
    && p.i <= |data| && Inv(p.v) && |p.v.inodes| == |v.inodes| && Wrote(v, p.v, f, start, data[..p.i])
    && (p.i > 0 ==> start + p.i <= MAX_BYTES)
    && (p.full ==> p.i < |data| && start + p.i < MAX_BYTES && NoRoom(p.v, f, start + p.i))
  }

  /** A block more. */
  lemma BlockAdded(v: Vol, p: Progress, p': Progress, f: nat, start: nat, data: seq<byte>)
    requires InProgress(v, p, f, start, data) && p.i <= p'.i <= |data| && (p'.i > p.i ==> start + p'.i <= MAX_BYTES)
    requires Inv(p'.v) && Wrote(p.v, p'.v, f, start + p.i, data[p.i..p'.i])
    requires p'.full ==> p'.i < |data| && start + p'.i < MAX_BYTES && NoRoom(p'.v, f, start + p'.i)
    ensures InProgress(v, p', f, start, data)
  {
    WroteTwice(v, p.v, p'.v, f, start, data[..p.i], data[p.i..p'.i]);
    assert data[..p.i] + data[p.i..p'.i] == data[..p'.i];
  }

  lemma TurnFits(pos: nat, left: nat)
    requires pos < MAX_BYTES && left > 0
    ensures var c := TurnSize(pos, left); 0 < c <= left && pos % BLOCK_SIZE + c <= BLOCK_SIZE && pos + c <= MAX_BYTES
  {
    assert MAX_BYTES % BLOCK_SIZE == 0;
  }

  lemma TurnParts(p: Progress, p': Progress, f: nat, start: nat, data: seq<byte>, c: nat)
    requires !Stopped(p, start, data) && p' == Turn(p, f, start, data)
    requires start + p.i < MAX_BYTES && c == TurnSize(start + p.i, |data| - p.i)
    ensures 0 < c <= |data| - p.i && (start + p.i) % BLOCK_SIZE + c <= BLOCK_SIZE && start + p.i + c <= MAX_BYTES
    ensures p'.v == BlockWritten(p.v, f, start + p.i, data[p.i..p.i + c])
    ensures p'.full == NoBlock(p.v, f, start + p.i) && p'.i == p.i + if p'.full then 0 else c
  {
    TurnFits(start + p.i, |data| - p.i);
  }

  /** A turn writes its bytes, or changes no file on a full volume. */
  lemma BlockOk(v: Vol, x: Vol, f: nat, pos: nat, data: seq<byte>, moved: seq<byte>)
    requires Inv(v) && f < |v.inodes| && data != [] && pos % BLOCK_SIZE + |data| <= BLOCK_SIZE && pos + |data| <= MAX_BYTES
    requires x == BlockWritten(v, f, pos, data) && moved == if NoBlock(v, f, pos) then [] else data
    ensures Inv(x) && Wrote(v, x, f, pos, moved)
    ensures NoBlock(v, f, pos) ==> NoRoom(x, f, pos)
  {
    var s := SlotOf(f, pos / BLOCK_SIZE);
    var w := MadeWay(v, s);
    DataSlot(|v.inodes|, f, pos / BLOCK_SIZE);
    MadeWayOk(v, s);
    if Ptr(w, s) != 0 {
      WrittenKeeps(w, f, pos, data);
      ExtendsThenWrote(v, w, x, f, pos, data, s);
    }
  }

  lemma TurnOk(p: Progress, p': Progress, f: nat, start: nat, data: seq<byte>)
    requires Inv(p.v) && f < |p.v.inodes| && !Stopped(p, start, data) && p' == Turn(p, f, start, data)
    ensures p.i <= p'.i <= |data| && start + p'.i <= MAX_BYTES && (p'.full <==> p'.i == p.i)
    ensures Inv(p'.v) && Wrote(p.v, p'.v, f, start + p.i, data[p.i..p'.i]) && (p'.full ==> NoRoom(p'.v, f, start + p'.i))
  {
    var c := TurnSize(start + p.i, |data| - p.i);
    TurnParts(p, p', f, start, data, c);
    BlockOk(p.v, p'.v, f, start + p.i, data[p.i..p.i + c], data[p.i..p'.i]);
  }

  /** A turn keeps it, and goes on unless the write has stopped. */
  lemma TurnKeeps(v: Vol, p: Progress, p': Progress, f: nat, start: nat, data: seq<byte>)
    requires InProgress(v, p, f, start, data) && f < |v.inodes| && p' == Turn(p, f, start, data)
    ensures InProgress(v, p', f, start, data) && (Stopped(p, start, data) || p'.full || p'.i > p.i)
  {
    if !Stopped(p, start, data) {
      TurnOk(p, p', f, start, data);
      BlockAdded(v, p, p', f, start, data);
    }
  }

  lemma {:induction false} TurnsKeep(v: Vol, p: Progress, f: nat, start: nat, data: seq<byte>, n: nat)
    requires Inv(v) && f < |v.inodes| && p == Turns(Progress(v, 0, false), f, start, data, n)
    ensures InProgress(v, p, f, start, data) && (Stopped(p, start, data) || p.i >= n)
    decreases n
  {
    if n == 0 {
      assert data[..0] == [];
    } else {
      var p1 := Turns(Progress(v, 0, false), f, start, data, n - 1);
      TurnsKeep(v, p1, f, start, data, n - 1);
      TurnKeeps(v, p1, p, f, start, data);
    }
  }

  /** A whole write changes just its first bytes, and is short only on a full volume, where the file has no
      block, or at the end of the largest file. */
  lemma WritingIs(v: Vol, p: Progress, f: nat, start: nat, data: seq<byte>)
    requires Inv(v) && f < |v.inodes| && p == Writing(v, f, start, data)
    ensures InProgress(v, p, f, start, data) && Stopped(p, start, data)
  {
    TurnsKeep(v, p, f, start, data, |data|);
  }

  lemma WritingEnds(p0: Progress, f: nat, start: nat, data: seq<byte>, n: nat)
    requires p0 == Progress(p0.v, 0, false) && n <= |data| && Stopped(Turns(p0, f, start, data, n), start, data)
    ensures Writing(p0.v, f, start, data) == Turns(p0, f, start, data, n)
  {
    TurnsOver(p0, f, start, data, n, |data|);
  }

  // ----- file_write -----

  /** The inner loop of file_write: bytes go into the block one by one; the size grows if needed. */
  method CopyIn(vol: Volume, f: nat, block: nat, pos: nat, data: seq<byte>)
    requires vol.Valid() && Writable(vol.st, f, pos, data) && block == Ptr(vol.st, SlotOf(f, pos / BLOCK_SIZE))
    modifies vol.blocks, vol.inodes, vol`st
    ensures vol.Valid() && vol.st == Written(old(vol.st), f, pos, data)
  {
    ghost var v := vol.st;
    DataSlot(|v.inodes|, f, pos / BLOCK_SIZE);
    assert SlotOk(v, SlotOf(f, pos / BLOCK_SIZE));
    if pos + |data| > vol.inodes[f].size {
      vol.inodes[f] := vol.inodes[f].(size := pos + |data|);
    }
    assert vol.inodes[..] == Written(v, f, pos, data).inodes;
    FillBlock(vol, block, pos % BLOCK_SIZE, data);
    WrittenKeeps(v, f, pos, data);
    vol.st := Written(v, f, pos, data);
    assert vol.st.blocks == vol.blocks[..] && vol.st.inodes == vol.inodes[..];
  }

  lemma PatchedMore(b: seq<byte>, o: nat, data: seq<byte>, c: nat)
    requires o + |data| <= |b| && c < |data|
    ensures Patched(b, o, data[..c])[o + c := data[c]] == Patched(b, o, data[..c + 1])
    ensures |Patched(b, o, data[..c])| == |b|
  {
    var x, y := Patched(b, o, data[..c])[o + c := data[c]], Patched(b, o, data[..c + 1]);
    forall i | 0 <= i < |b|
      ensures x[i] == y[i]
    {
    }
  }

  method FillBlock(vol: Volume, block: nat, o: nat, data: seq<byte>)
    requires block < vol.blocks.Length && o + |data| <= |vol.blocks[block]|
    modifies vol.blocks
    ensures vol.blocks[..] == old(vol.blocks[..])[block := Patched(old(vol.blocks[block]), o, data)]
  {
    ghost var b := vol.blocks[block];
    ghost var all := vol.blocks[..];
    var c := 0;
    assert Patched(b, o, data[..0]) == b && all[block := b] == all;
    while c < |data|
      invariant 0 <= c <= |data|
      invariant vol.blocks[..] == all[block := Patched(b, o, data[..c])]
    {
      ghost var now := vol.blocks[block];
      vol.blocks[block] := vol.blocks[block][o + c := data[c]];
      PatchedMore(b, o, data, c);
      c := c + 1;
    }
    assert data[..|data|] == data;
  }

  /** One turn of file_write: find or make the block, then fill it. */
  method WriteBlock(vol: Volume, f: nat, pos: nat, data: seq<byte>) returns (ok: bool)
    requires vol.Valid() && f < vol.inodes.Length && data != [] && pos < MAX_BYTES && pos % BLOCK_SIZE + |data| <= BLOCK_SIZE
    modifies vol.zmap, vol.blocks, vol.inodes, vol`st
    ensures vol.Valid() && Wrote(old(vol.st), vol.st, f, pos, if ok then data else [])
    ensures vol.st == BlockWritten(old(vol.st), f, pos, data) && (ok <==> !NoBlock(old(vol.st), f, pos))
    ensures !ok ==> NoRoom(vol.st, f, pos)
  {
    ghost var v := vol.st;
    var block := vol.Bmap(f, pos / BLOCK_SIZE, true);
    ok := block != 0;
    DataSlot(|v.inodes|, f, pos / BLOCK_SIZE);
    MadeWayOk(v, SlotOf(f, pos / BLOCK_SIZE));
    if ok {
      ghost var w := vol.st;
      CopyIn(vol, f, block, pos, data);
      WrittenKeeps(w, f, pos, data);
      ExtendsThenWrote(v, w, vol.st, f, pos, data, SlotOf(f, pos / BLOCK_SIZE));
    }
  }

  /** The code is at p of the specified loop. */
  ghost predicate At(vol: Volume, p: Progress, i: nat, full: bool)
    reads vol
  {
    p.v == vol.st && p.i == i && p.full == full
  }

  /** A turn of the loop: as much of the data as fits the block, if there is one. */
  method WriteTurn(vol: Volume, f: nat, start: nat, buf: seq<byte>, i: nat, ghost p: Progress) returns (c: nat, ghost p': Progress)
    requires vol.Valid() && f < vol.inodes.Length && i < |buf| && start + i < MAX_BYTES && At(vol, p, i, false)
    modifies vol.zmap, vol.blocks, vol.inodes, vol`st
    ensures vol.Valid() && i + c <= |buf| && p' == Turn(p, f, start, buf) && At(vol, p', i + c, c == 0)
  {
    var pos := start + i;
    c := BLOCK_SIZE - pos % BLOCK_SIZE;
    if c > |buf| - i {
      c := |buf| - i;
    }
    p' := Turn(p, f, start, buf);
    TurnParts(p, p', f, start, buf, c);
    var ok := WriteBlock(vol, f, pos, buf[i..i + c]);
    if !ok {
      c := 0;
    }
  }

  /** p is reached from p0 in n turns. */
  ghost predicate Reached(p0: Progress, f: nat, start: nat, data: seq<byte>, n: nat, p: Progress)
    decreases n
  {
    if n == 0 then p == p0 else exists q :: Reached(p0, f, start, data, n - 1, q) && p == Turn(q, f, start, data)
  }

  lemma ReachedFirst(p0: Progress, f: nat, start: nat, data: seq<byte>)
    ensures Reached(p0, f, start, data, 0, p0)
  {
  }

  lemma ReachedNext(p0: Progress, f: nat, start: nat, data: seq<byte>, n: nat, q: Progress, p: Progress)
    requires Reached(p0, f, start, data, n, q) && p == Turn(q, f, start, data)
    ensures Reached(p0, f, start, data, n + 1, p)
  {
  }

  lemma {:induction false} ReachedIs(p0: Progress, f: nat, start: nat, data: seq<byte>, n: nat, p: Progress)
    requires Reached(p0, f, start, data, n, p)
    ensures p == Turns(p0, f, start, data, n)
  {
    if n == 0 {
    } else {
      var q :| Reached(p0, f, start, data, n - 1, q) && p == Turn(q, f, start, data);
      ReachedIs(p0, f, start, data, n - 1, q);
    }
  }

  /** The turn after n turns. */
  method WriteNext(vol: Volume, f: nat, start: nat, buf: seq<byte>, i: nat, ghost p0: Progress, ghost p: Progress, ghost n: nat)
      returns (i': nat, full: bool, ghost p': Progress)
    requires vol.Valid() && f < vol.inodes.Length && i < |buf| && start + i < MAX_BYTES
    requires Reached(p0, f, start, buf, n, p) && At(vol, p, i, false)
    modifies vol.zmap, vol.blocks, vol.inodes, vol`st
    ensures vol.Valid() && i <= i' <= |buf| && (full <==> i' == i)
    ensures Reached(p0, f, start, buf, n + 1, p') && At(vol, p', i', full)
  {
    var c;
    c, p' := WriteTurn(vol, f, start, buf, i, p);
    ReachedNext(p0, f, start, buf, n, p, p');
    i', full := i + c, c == 0;
  }

  /** The loop of file_write, and in how many turns it stops. */
  method WriteTurns(vol: Volume, f: nat, start: nat, buf: seq<byte>, ghost p0: Progress) returns (i: nat, full: bool, ghost p: Progress, ghost n: nat)
    requires vol.Valid() && f < vol.inodes.Length && At(vol, p0, 0, false)
    modifies vol.zmap, vol.blocks, vol.inodes, vol`st
    ensures vol.Valid() && n <= |buf| && Reached(p0, f, start, buf, n, p) && At(vol, p, i, full)
    ensures full || i >= |buf| || start + i >= MAX_BYTES
  {
    i, full, p, n := 0, false, p0, 0;
    ReachedFirst(p0, f, start, buf);
    while i < |buf| && !full && start + i < MAX_BYTES
      invariant 0 <= i <= |buf| && vol.Valid() && (full ==> i < |buf|) && n <= i + (if full then 1 else 0)
      invariant Reached(p0, f, start, buf, n, p) && At(vol, p, i, full)
      decreases |buf| - i, !full
    {
      i, full, p := WriteNext(vol, f, start, buf, i, p0, p, n);
      n := n + 1;
    }
  }

  method WriteLoop(vol: Volume, f: nat, start: nat, buf: seq<byte>) returns (i: nat, full: bool)
    requires vol.Valid() && f < vol.inodes.Length
    modifies vol.zmap, vol.blocks, vol.inodes, vol`st
    ensures vol.Valid() && Writing(old(vol.st), f, start, buf) == Progress(vol.st, i, full)
  {
    ghost var p0, p, n := Progress(vol.st, 0, false), Progress(vol.st, 0, false), 0;
    i, full, p, n := WriteTurns(vol, f, start, buf, p0);
    ReachedIs(p0, f, start, buf, n, p);
    WritingEnds(p0, f, start, buf, n);
  }

  /** Writes `buf` at the file position, or at the end with O_APPEND, until the volume is full. Returns the
      number of bytes written, -1 if none. At the end of the largest file the code panics instead. */
  method FileWrite(vol: Volume, f: nat, fpos: nat, append: bool, buf: seq<byte>) returns (n: int, newPos: nat, panic: bool)
    requires vol.Valid() && f < vol.inodes.Length
    modifies vol.zmap, vol.blocks, vol.inodes, vol`st
    ensures vol.Valid() && |vol.st.inodes| == |old(vol.st).inodes| && (n == -1 || 0 < n <= |buf|)
    ensures var start := if append then SizeOf(old(vol.st), f) else fpos; var done := if n == -1 then 0 else n;
      && vol.st == Writing(old(vol.st), f, start, buf).v && done == Writing(old(vol.st), f, start, buf).i
      && Contents(vol.st, f) == Overwrite(Contents(old(vol.st), f), start, buf[..done])
      && (panic <==> done < |buf| && start + done >= MAX_BYTES)
      && (done < |buf| && !panic ==> NoRoom(vol.st, f, start + done))
      && newPos == if append then fpos else start + done
    ensures forall g | 0 <= g < |vol.st.inodes| && g != f :: Contents(vol.st, g) == Contents(old(vol.st), g)
  {
    ghost var v := vol.st;
    var pos := if append then vol.inodes[f].size else fpos;
    WritingIs(v, Writing(v, f, pos, buf), f, pos, buf);
    var i, full := WriteLoop(vol, f, pos, buf);
    WroteContents(v, vol.st, f, pos, buf[..i]);
    panic := i < |buf| && pos + i >= MAX_BYTES;
    n := if i != 0 then i else -1;
    newPos := if append then fpos else pos + i;
  }

  // ----- file_read and sys_read -----

  /** Reads `count` bytes at the file position; a hole gives zeros. */
  method FileRead(vol: Volume, f: nat, fpos: nat, count: nat) returns (buf: seq<byte>, newPos: nat)
    requires vol.Valid() && f < vol.inodes.Length && fpos + count <= MAX_BYTES
    modifies vol.zmap, vol.blocks, vol.inodes, vol`st
    ensures vol.Valid() && vol.st == old(vol.st)
    ensures |buf| == count && newPos == fpos + count
    ensures forall p | fpos <= p < fpos + count :: ByteAt(vol.st, f, p) == buf[p - fpos]
  {
    ghost var v := vol.st;
    var left := count;
    newPos, buf := fpos, [];
    while left > 0
      invariant vol.Valid() && vol.st == v
      invariant 0 <= left <= count && |buf| == count - left && newPos == fpos + |buf|
      invariant forall p | fpos <= p < newPos :: ByteAt(v, f, p) == buf[p - fpos]
    {
      var nr := vol.Bmap(f, newPos / BLOCK_SIZE, false);
      var o := newPos % BLOCK_SIZE;
      var chars := if BLOCK_SIZE - o < left then BLOCK_SIZE - o else left;
      DataSlot(|v.inodes|, f, newPos / BLOCK_SIZE);
      assert SlotOk(v, SlotOf(f, newPos / BLOCK_SIZE));
      ChunkBytes(v, f, newPos, chars);
      if nr != 0 {
        buf := buf + vol.blocks[nr][o..o + chars];
      } else {
        buf := buf + Zeros(chars);
      }
      newPos := newPos + chars;
      left := left - chars;
    }
  }

  /** The bytes of a stretch inside one block. */
  lemma ChunkBytes(v: Vol, f: nat, pos: nat, chars: nat)
    requires Owned(v) && f < |v.inodes| && pos + chars <= MAX_BYTES && pos % BLOCK_SIZE + chars <= BLOCK_SIZE
    ensures var z := Ptr(v, SlotOf(f, pos / BLOCK_SIZE));
      z == 0 || |BlockAt(v, z)| == BLOCK_SIZE
    ensures var z := Ptr(v, SlotOf(f, pos / BLOCK_SIZE)); var o := pos % BLOCK_SIZE;
      forall p | pos <= p < pos + chars :: ByteAt(v, f, p) == if z == 0 then 0 else BlockAt(v, z)[o + (p - pos)]
  {
    var z, o := Ptr(v, SlotOf(f, pos / BLOCK_SIZE)), pos % BLOCK_SIZE;
    if chars > 0 {
      DataSlot(|v.inodes|, f, pos / BLOCK_SIZE);
      assert SlotOk(v, SlotOf(f, pos / BLOCK_SIZE));
    }
    forall p | pos <= p < pos + chars
      ensures ByteAt(v, f, p) == if z == 0 then 0 else BlockAt(v, z)[o + (p - pos)]
    {
      assert p / BLOCK_SIZE == pos / BLOCK_SIZE && p % BLOCK_SIZE == o + (p - pos);
    }
  }

  /** The bytes of c from pos on, at most count of them. */
  function Clip(c: seq<byte>, pos: nat, count: nat): seq<byte> {
    if pos >= |c| then [] else if pos + count > |c| then c[pos..] else c[pos..pos + count]
  }

  /** What a read of at most count bytes at pos should give: all that the file has there. */
  ghost predicate GivesBytes(v: Vol, f: nat, pos: nat, count: nat, buf: seq<byte>) {
    && |buf| == (if pos >= SizeOf(v, f) then 0 else if count < SizeOf(v, f) - pos then count else SizeOf(v, f) - pos)
    && forall i | 0 <= i < |buf| :: buf[i] == ByteAt(v, f, pos + i)
  }

  lemma ClipGives(v: Vol, f: nat, pos: nat, count: nat)
    ensures GivesBytes(v, f, pos, count, Clip(Contents(v, f), pos, count))
  {
  }

  /** The bytes of an overwritten array: the new ones, the old ones, and zeros between. */
  lemma OverwriteIs(c: seq<byte>, pos: nat, data: seq<byte>, i: nat)
    requires data != []
    ensures |Overwrite(c, pos, data)| == Max(|c|, pos + |data|)
    ensures i < Max(|c|, pos + |data|) ==>
      Overwrite(c, pos, data)[i] == if pos <= i < pos + |data| then data[i - pos] else if i < |c| then c[i] else 0
  {
  }

  /** sys_read on a regular file: reads up to the end of the file. */
  method SysRead(vol: Volume, f: nat, fpos: nat, count: nat) returns (buf: seq<byte>, newPos: nat)
    requires vol.Valid() && f < vol.inodes.Length
    modifies vol.zmap, vol.blocks, vol.inodes, vol`st
    ensures vol.Valid() && vol.st == old(vol.st)
    ensures buf == Clip(Contents(vol.st, f), fpos, count) && newPos == fpos + |buf|
    ensures GivesBytes(vol.st, f, fpos, count, buf)
  {
    ClipGives(vol.st, f, fpos, count);
    var n: int := count;
    if n == 0 {
      return [], fpos;
    }
    if n + fpos > vol.inodes[f].size {
      n := vol.inodes[f].size - fpos;
    }
    if n <= 0 {
      return [], fpos;
    }
    buf, newPos := FileRead(vol, f, fpos, n);
  }

  // ----- runs -----

  /** All files of the volume, as byte sequences. */
  ghost function Files(v: Vol): seq<seq<byte>> {
    seq(|v.inodes|, f => if 0 <= f then Contents(v, f) else [])
  }

  /** `busy` are the zones whose buffers others use when their turn comes. */
  datatype Op =
    | Write(f: nat, pos: nat, append: bool, data: seq<byte>)
    | Read(f: nat, pos: nat, count: nat)
    | Truncate(f: nat, busy: set<nat>)

  /** What an operation does to the files: bytes written at a position or read, a file emptied, or nothing. */
  datatype Event = Wrote(f: nat, pos: nat, data: seq<byte>) | Gave(data: seq<byte>) | Emptied(f: nat) | Nothing

  ghost function Step(files: seq<seq<byte>>, e: Event): seq<seq<byte>> {
    match e
    case Wrote(f, pos, data) => if f < |files| then files[f := Overwrite(files[f], pos, data)] else files
    case Gave(_) => files
    case Emptied(f) => if f < |files| then files[f := []] else files
    case Nothing => files
  }

  ghost function Run(files: seq<seq<byte>>, log: seq<Event>): seq<seq<byte>> {
    if log == [] then files else Step(Run(files, log[..|log| - 1]), log[|log| - 1])
  }

  /** Where a write begins. */
  function StartOf(v: Vol, f: nat, pos: nat, append: bool): nat {
    if append then SizeOf(v, f) else pos
  }

  /** The whole volume after an operation: bitmap, blocks and inodes. */
  function NextVol(v: Vol, op: Op): Vol {
    if op.f >= |v.inodes| then v
    else
      match op
      case Write(f, pos, append, data) => Writing(v, f, StartOf(v, f, pos, append), data).v
      case Read(_, _, _) => v
      case Truncate(f, busy) => if v.inodes[f].regular then Truncated(v, f, busy) else v
  }

  function VolAfter(v: Vol, ops: seq<Op>): Vol {
    if ops == [] then v else NextVol(VolAfter(v, ops[..|ops| - 1]), ops[|ops| - 1])
  }

  /** What it does to the files. A write puts as much of its data as there is room for; a read gives the
      bytes there, up to the end of the file; only a regular file is emptied. */
  ghost function EventOf(v: Vol, op: Op): Event {
    if op.f >= |v.inodes| then Nothing
    else
      match op
      case Write(f, pos, append, data) =>
        var start := StartOf(v, f, pos, append);
        Event.Wrote(f, start, data[..Min(Writing(v, f, start, data).i, |data|)])
      case Read(f, pos, count) => Gave(Clip(Contents(v, f), pos, count))
      case Truncate(f, _) => if v.inodes[f].regular then Emptied(f) else Nothing
  }

  ghost function LogOf(v: Vol, ops: seq<Op>): seq<Event> {
    if ops == [] then [] else LogOf(v, ops[..|ops| - 1]) + [EventOf(VolAfter(v, ops[..|ops| - 1]), ops[|ops| - 1])]
  }

  /** The zones that it loses: those of a truncated file that others use. */
  ghost function LostBy(v: Vol, op: Op): iset<nat> {
    if op.Truncate? && op.f < |v.inodes| && v.inodes[op.f].regular then iset z | z in FileZones(v, op.f, 9) && z in op.busy else iset{}
  }

  lemma FilesAfter(v: Vol, w: Vol, f: nat, c: seq<byte>)
    requires f < |v.inodes| && |w.inodes| == |v.inodes| && Contents(w, f) == c
    requires forall g | 0 <= g < |v.inodes| && g != f :: Contents(w, g) == Contents(v, g)
    ensures Files(w) == Files(v)[f := c]
  {
  }

  lemma TruncatedContents(v: Vol, f: nat, busy: set<nat>)
    requires Inv(v) && f < |v.inodes|
    ensures Contents(Truncated(v, f, busy), f) == []
    ensures forall g | 0 <= g < |v.inodes| && g != f :: Contents(Truncated(v, f, busy), g) == Contents(v, g)
  {
    var w := Truncated(v, f, busy);
    TruncatedFields(v, f, busy);
    forall g | 0 <= g < |v.inodes| && g != f
      ensures Contents(w, g) == Contents(v, g)
    {
      forall p | 0 <= p < SizeOf(v, g)
        ensures ByteAt(w, g, p) == ByteAt(v, g, p)
      {
        TruncatedBytes(v, f, g, p, busy);
      }
    }
  }

  /** What holds of one operation: the volume stays in order, the files change as its event says, and just
      those zones are lost. */
  ghost predicate StepOk(v: Vol, op: Op, w: Vol) {
    Inv(w) && Files(w) == Step(Files(v), EventOf(v, op)) && LostZones(w) == LostZones(v) + LostBy(v, op)
  }

  lemma WriteOk(v: Vol, f: nat, pos: nat, append: bool, data: seq<byte>)
    requires Inv(v) && f < |v.inodes|
    ensures StepOk(v, Op.Write(f, pos, append, data), NextVol(v, Op.Write(f, pos, append, data)))
  {
    var start := StartOf(v, f, pos, append);
    var p := Writing(v, f, start, data);
    WritingIs(v, Writing(v, f, start, data), f, start, data);
    WroteContents(v, p.v, f, start, data[..p.i]);
    FilesAfter(v, p.v, f, Overwrite(Contents(v, f), start, data[..p.i]));
    assert LostZones(p.v) == LostZones(v);
  }

  lemma TruncateOk(v: Vol, f: nat, busy: set<nat>)
    requires Inv(v) && f < |v.inodes|
    ensures StepOk(v, Op.Truncate(f, busy), NextVol(v, Op.Truncate(f, busy)))
  {
    if v.inodes[f].regular {
      TruncatedInv(v, f, busy);
      TruncatedContents(v, f, busy);
      TruncatedFields(v, f, busy);
      TruncatedLost(v, f, busy);
      FilesAfter(v, Truncated(v, f, busy), f, []);
    }
  }

  lemma NextOk(v: Vol, op: Op)
    requires Inv(v)
    ensures StepOk(v, op, NextVol(v, op))
  {
    if op.f < |v.inodes| {
      match op
      case Write(f, pos, append, data) => WriteOk(v, f, pos, append, data);
      case Read(_, _, _) =>
      case Truncate(f, busy) => TruncateOk(v, f, busy);
    }
  }

  /** Over any run the zones of all files stay apart and the bitmap exact, and the files are those of
      growable byte arrays after the same events. */
  lemma {:induction false} FilesInRun(v: Vol, ops: seq<Op>)
    requires Inv(v)
    ensures Inv(VolAfter(v, ops)) && Files(VolAfter(v, ops)) == Run(Files(v), LogOf(v, ops))
  {
    if ops == [] {
    } else {
      var n := |ops| - 1;
      FilesInRun(v, ops[..n]);
      NextOk(VolAfter(v, ops[..n]), ops[n]);
      assert LogOf(v, ops)[..|LogOf(v, ops)| - 1] == LogOf(v, ops[..n]);
    }
  }

  /** The i-th operation of a run, if it is a truncation, meets no busy zone. */
  ghost predicate TakesAll(v: Vol, ops: seq<Op>, i: nat)
    requires i < |ops|
  {
    LostBy(VolAfter(v, ops[..i]), ops[i]) == iset{}
  }

  /** No truncation of the run meets a busy zone. */
  ghost predicate AllTaken(v: Vol, ops: seq<Op>) {
    forall i | 0 <= i < |ops| :: TakesAll(v, ops, i)
  }

  lemma AllTakenMore(v: Vol, ops: seq<Op>)
    requires ops != []
    ensures var n := |ops| - 1;
      AllTaken(v, ops) <==> AllTaken(v, ops[..n]) && LostBy(VolAfter(v, ops[..n]), ops[n]) == iset{}
  {
    var n := |ops| - 1;
    forall i | 0 <= i < n
      ensures TakesAll(v, ops, i) == TakesAll(v, ops[..n], i)
    {
      assert ops[..n][..i] == ops[..i] && ops[..n][i] == ops[i];
    }
    assert TakesAll(v, ops, n) == (LostBy(VolAfter(v, ops[..n]), ops[n]) == iset{});
  }

  /** Exactly when a run loses no zone: if none of its truncations meets a busy one. */
  lemma {:induction false} NothingLost(v: Vol, ops: seq<Op>)
    requires Inv(v) && LostZones(v) == iset{}
    ensures LostZones(VolAfter(v, ops)) == iset{} <==> AllTaken(v, ops)
  {
    if ops == [] {
    } else {
      var n := |ops| - 1;
      NothingLost(v, ops[..n]);
      FilesInRun(v, ops[..n]);
      NextOk(VolAfter(v, ops[..n]), ops[n]);
      NoneMore(LostZones(VolAfter(v, ops[..n])), LostBy(VolAfter(v, ops[..n]), ops[n]));
      AllTakenMore(v, ops);
    }
  }

  lemma NoneMore(lost: iset<nat>, more: iset<nat>)
    ensures lost + more == iset{} <==> lost == iset{} && more == iset{}
  {
    assert lost <= lost + more && more <= lost + more;
  }

  /** What a reader gets. */
  function Answer(v: Vol, op: Op): seq<byte> {
    if op.Read? && op.f < |v.inodes| then Clip(Contents(v, op.f), op.pos, op.count) else []
  }

  function Answers(v: Vol, ops: seq<Op>): seq<seq<byte>> {
    if ops == [] then [] else Answers(v, ops[..|ops| - 1]) + [Answer(VolAfter(v, ops[..|ops| - 1]), ops[|ops| - 1])]
  }

  /** A reader got the bytes that the file had, and nobody else got any. */
  ghost predicate Answered(v: Vol, op: Op, buf: seq<byte>) {
    if op.Read? && op.f < |v.inodes| then GivesBytes(v, op.f, op.pos, op.count, buf) else buf == []
  }

  /** The answer to the i-th operation. */
  ghost predicate AnsweredAt(v: Vol, ops: seq<Op>, got: seq<seq<byte>>, i: nat)
    requires i < |ops| && i < |got|
  {
    Answered(VolAfter(v, ops[..i]), ops[i], got[i])
  }

  lemma {:induction false} AnswersGive(v: Vol, ops: seq<Op>)
    ensures |Answers(v, ops)| == |ops|
    ensures forall i: nat | i < |ops| :: AnsweredAt(v, ops, Answers(v, ops), i)
  {
    if ops == [] {
    } else {
      var n := |ops| - 1;
      var w, op := VolAfter(v, ops[..n]), ops[n];
      AnswersGive(v, ops[..n]);
      if op.Read? && op.f < |w.inodes| {
        ClipGives(w, op.f, op.pos, op.count);
      }
      forall i: nat | i < |ops|
        ensures AnsweredAt(v, ops, Answers(v, ops), i)
      {
        if i < n {
          assert AnsweredAt(v, ops[..n], Answers(v, ops[..n]), i);
          assert ops[..n][..i] == ops[..i];
        }
      }
    }
  }

  method DoOp(vol: Volume, op: Op) returns (buf: seq<byte>)
    requires vol.Valid()
    modifies vol.zmap, vol.blocks, vol.inodes, vol`st
    ensures vol.Valid() && vol.st == NextVol(old(vol.st), op)
    ensures buf == Answer(old(vol.st), op)
  {
    buf := [];
    if op.f >= vol.inodes.Length {
      return;
    }
    match op
    case Write(f, pos, append, data) => var _, _, _ := FileWrite(vol, f, pos, append, data);
    case Read(f, pos, count) =>
      var newPos;
      buf, newPos := SysRead(vol, f, pos, count);
    case Truncate(f, busy) => vol.Truncate(f, busy);
  }

  lemma AfterMore(v: Vol, ops: seq<Op>, i: nat)
    requires i < |ops|
    ensures VolAfter(v, ops[..i + 1]) == NextVol(VolAfter(v, ops[..i]), ops[i])
    ensures Answers(v, ops[..i + 1]) == Answers(v, ops[..i]) + [Answer(VolAfter(v, ops[..i]), ops[i])]
  {
    assert ops[..i + 1][..i] == ops[..i];
  }

  /** Refinement: any run of writes, reads and truncations makes of the volume what is specified, and acts on
      the files as on growable byte arrays; every reader gets the bytes that are there. */
  method Execute(vol: Volume, ops: seq<Op>) returns (got: seq<seq<byte>>)
    requires vol.Valid()
    modifies vol.zmap, vol.blocks, vol.inodes, vol`st
    ensures vol.Valid() && vol.st == VolAfter(old(vol.st), ops) && Files(vol.st) == Run(old(Files(vol.st)), LogOf(old(vol.st), ops))
    ensures got == Answers(old(vol.st), ops)
    ensures |got| == |ops| && forall i: nat | i < |ops| :: AnsweredAt(old(vol.st), ops, got, i)
  {
    ghost var v := vol.st;
    AnswersGive(v, ops);
    got := [];
    var n := 0;
    assert ops[..0] == [] && ops[..|ops|] == ops;
    while n < |ops|
      invariant 0 <= n <= |ops| && vol.Valid() && vol.st == VolAfter(v, ops[..n]) && got == Answers(v, ops[..n])
    {
      AfterMore(v, ops, n);
      var buf := DoOp(vol, ops[n]);
      got := got + [buf];
      n := n + 1;
    }
    FilesInRun(v, ops);
  }
}
