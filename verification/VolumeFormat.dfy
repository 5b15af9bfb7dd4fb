/** The layout of a minix volume, as far as the file code relies on it. */
module VolumeFormat {
  import opened VolumeState

  /** Where the disk holds the zone number of a file's block: in the inode, in the index block that its eighth number
      names, or below the one that the ninth names. */
  lemma LayoutIs(f: nat, b: nat)
    ensures b < 7 ==> SlotOf(f, b) == Root(f, b)
    ensures 7 <= b < 519 ==> SlotOf(f, b) == Child(Root(f, 7), b - 7)
    ensures 519 <= b < 519 + 512 * 512 ==>
      exists i: nat, j: nat {:trigger Child(Child(Root(f, 8), i), j)} ::
        i < 512 && j < 512 && b == 519 + 512 * i + j && SlotOf(f, b) == Child(Child(Root(f, 8), i), j)
  {
    if 519 <= b < 519 + 512 * 512 {
      var i, j := (b - 519) / 512, (b - 519) % 512;
      assert SlotOf(f, b) == Child(Child(Root(f, 8), i), j);
    }
  }

  /** Zone numbers are 16-bit and little-endian; the bit of the first data zone is the second of the bitmap. */
  lemma FormatIs(v: Vol, b: seq<byte>, k: nat, z: nat)
    requires Shape(v)
    ensures 2 * k + 1 < |b| ==> EntryOf(b, k) == b[2 * k] as int + 256 * b[2 * k + 1] as int
    ensures DataZone(v, z) ==> var j := z - v.first + 1;
      j / 8192 < |v.bits| && (Marked(v, z) <==> v.bits[j / 8192][j % 8192])
  {
    if DataZone(v, z) {
      var j := z - v.first + 1;
      assert j < |v.bits| * 8192;
      assert |v.bits[j / BITS]| == BITS;
    }
  }
}
