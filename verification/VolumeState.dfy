/** A minix volume as fs/inode.c, fs/bitmap.c and fs/truncate.c see it: the zone bitmap, the
    blocks, and the inodes with their nine zone numbers, of which the last two lead to index
    blocks. As specification state every zone carries the slot that refers to it. */
module VolumeState {

  const BLOCK_SIZE := 1024
  const ENTRIES := 512        // 16-bit zone numbers in an index block
  const BITS := 8192          // bits in one bitmap block
  const MAX_BLOCK := 7 + 512 + 512 * 512
  const MAX_BYTES := MAX_BLOCK * BLOCK_SIZE

  type byte = b: int | 0 <= b < 256

  /** `regular` stands for S_ISREG or S_ISDIR of the mode. */
  datatype Inode = Inode(zone: seq<nat>, size: nat, regular: bool)

  /** A place that can hold a zone number: one of an inode's nine, or one in an index block. */
  datatype Slot = Root(f: nat, n: nat) | Child(up: Slot, k: nat)

  /** A lost zone was given up by its file while others used its buffer: it stays marked. */
  datatype Owner = Nobody | By(slot: Slot) | Lost

  datatype Vol = Vol(first: nat, bits: seq<seq<bool>>, blocks: seq<seq<byte>>, inodes: seq<Inode>, owner: seq<Owner>)

  function ZeroBlock(): seq<byte> {
    seq(BLOCK_SIZE, _ => 0)
  }

  /** The k-th little-endian 16-bit number of a block. */
  function EntryOf(b: seq<byte>, k: nat): nat {
    if 2 * k + 1 < |b| then b[2 * k] as int + 256 * b[2 * k + 1] as int else 0
  }

  function SetEntry(b: seq<byte>, k: nat, z: nat): seq<byte> {
    if 2 * k + 1 < |b| && z < 0x10000 then b[2 * k := z % 256][2 * k + 1 := z / 256] else b
  }

  /** The slots that lead to index blocks. */
  predicate IsIndex(s: Slot) {
    match s
    case Root(_, n) => n == 7 || n == 8
    case Child(up, _) => up.Root? && up.n == 8
  }

  predicate ValidSlot(files: nat, s: Slot) {
    match s
    case Root(f, n) => f < files && n < 9
    case Child(up, k) => ValidSlot(files, up) && IsIndex(up) && k < ENTRIES
  }

  function FileOf(s: Slot): nat {
    match s
    case Root(f, _) => f
    case Child(up, _) => FileOf(up)
  }

  function BlockAt(v: Vol, z: nat): seq<byte> {
    if z < |v.blocks| then v.blocks[z] else ZeroBlock()
  }

  /** The zone number in a slot, 0 where the way to it ends. */
  function Ptr(v: Vol, s: Slot): nat {
    match s
    case Root(f, n) => if f < |v.inodes| && n < |v.inodes[f].zone| then v.inodes[f].zone[n] else 0
    case Child(up, k) => if Ptr(v, up) == 0 then 0 else EntryOf(BlockAt(v, Ptr(v, up)), k)
  }

  /** The slot of file f's block number b: direct, through one index block, or through two. */
  function SlotOf(f: nat, b: nat): Slot {
    if b < 7 then Root(f, b)
    else if b - 7 < ENTRIES then Child(Root(f, 7), b - 7)
    else Child(Child(Root(f, 8), (b - 7 - ENTRIES) / ENTRIES), (b - 7 - ENTRIES) % ENTRIES)
  }

  // ----- the bitmap -----

  function BitAt(v: Vol, j: nat): bool {
    if j / BITS < |v.bits| && j % BITS < |v.bits[j / BITS]| then v.bits[j / BITS][j % BITS] else true
  }

  /** Zone z is marked in use. Bit 1 stands for the first data zone. */
  function Marked(v: Vol, z: nat): bool {
    if z >= v.first then BitAt(v, z - v.first + 1) else true
  }

  predicate DataZone(v: Vol, z: nat) {
    v.first <= z < |v.blocks|
  }

  function OwnerOf(v: Vol, z: nat): Owner {
    if z < |v.owner| then v.owner[z] else Nobody
  }

  // ----- the invariant -----

  predicate Shape(v: Vol) {
    && 1 <= v.first < |v.blocks| < 0x10000
    && |v.bits| <= 8
    && (forall i | 0 <= i < |v.bits| :: |v.bits[i]| == BITS)
    && |v.blocks| - v.first + 1 <= |v.bits| * BITS
    && (forall z | 0 <= z < |v.blocks| :: |v.blocks[z]| == BLOCK_SIZE)
    && (forall f | 0 <= f < |v.inodes| :: |v.inodes[f].zone| == 9 && v.inodes[f].size <= MAX_BYTES)
    && |v.owner| == |v.blocks|
  }

  /** A zone number in a slot is a data zone that the slot owns. */
  ghost predicate SlotOk(v: Vol, s: Slot) {
    Ptr(v, s) != 0 ==> DataZone(v, Ptr(v, s)) && OwnerOf(v, Ptr(v, s)) == By(s)
  }

  /** A zone is marked exactly if it is owned or lost, and its owner refers to it. */
  ghost predicate ZoneOk(v: Vol, z: nat) {
    && Marked(v, z) == (OwnerOf(v, z) != Nobody)
    && (OwnerOf(v, z).By? ==> ValidSlot(|v.inodes|, OwnerOf(v, z).slot) && Ptr(v, OwnerOf(v, z).slot) == z)
  }

  /** Bits that stand for no data zone are set, as mkfs leaves them. */
  ghost predicate PaddingOk(v: Vol, j: nat) {
    j == 0 || j + v.first - 1 >= |v.blocks| ==> BitAt(v, j)
  }

  ghost predicate Owned(v: Vol) {
    && Shape(v)
    && (forall s: Slot {:trigger SlotOk(v, s)} | ValidSlot(|v.inodes|, s) :: SlotOk(v, s))
    && (forall z: nat {:trigger ZoneOk(v, z)} | DataZone(v, z) :: ZoneOk(v, z))
    && (forall j: nat :: PaddingOk(v, j))
  }

  // ----- file contents -----

  function ByteAt(v: Vol, f: nat, pos: nat): byte {
    var z := Ptr(v, SlotOf(f, pos / BLOCK_SIZE));
    if z == 0 || |BlockAt(v, z)| <= pos % BLOCK_SIZE then 0 else BlockAt(v, z)[pos % BLOCK_SIZE]
  }

  /** Nothing but zeros lies beyond the end of a file. */
  ghost predicate TailOk(v: Vol, f: nat) {
    f < |v.inodes| ==> forall pos | v.inodes[f].size <= pos < MAX_BYTES :: ByteAt(v, f, pos) == 0
  }

  ghost predicate Inv(v: Vol) {
    && Owned(v)
    && forall f | 0 <= f < |v.inodes| :: TailOk(v, f)
  }

  function SizeOf(v: Vol, f: nat): nat {
    if f < |v.inodes| then v.inodes[f].size else 0
  }

  /** The zones that no file refers to and that are never free again. */
  ghost function LostZones(v: Vol): iset<nat> {
    iset z: nat | DataZone(v, z) && OwnerOf(v, z) == Lost
  }

  // ----- single changes -----

  function WithBit(v: Vol, z: nat, b: bool): Vol {
    var j := if z >= v.first then z - v.first + 1 else 0;
    if j / BITS < |v.bits| && j % BITS < |v.bits[j / BITS]| then
      v.(bits := v.bits[j / BITS := v.bits[j / BITS][j % BITS := b]])
    else v
  }

  function WithBlock(v: Vol, z: nat, b: seq<byte>): Vol {
    if z < |v.blocks| then v.(blocks := v.blocks[z := b]) else v
  }

  function WithPtr(v: Vol, s: Slot, z: nat): Vol {
    match s
    case Root(f, n) =>
      if f < |v.inodes| && n < |v.inodes[f].zone| then
        v.(inodes := v.inodes[f := v.inodes[f].(zone := v.inodes[f].zone[n := z])])
      else v
    case Child(up, k) => WithBlock(v, Ptr(v, up), SetEntry(BlockAt(v, Ptr(v, up)), k, z))
  }

  function WithOwner(v: Vol, z: nat, o: Owner): Vol {
    if z < |v.owner| then v.(owner := v.owner[z := o]) else v
  }

  function WithSize(v: Vol, f: nat, size: nat): Vol {
    if f < |v.inodes| then v.(inodes := v.inodes[f := v.inodes[f].(size := size)]) else v
  }
}
