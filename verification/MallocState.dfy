/** The state of lib/malloc.c: bucket descriptors in chains by object size, and in every bucket page
    a free list threaded through the first words of the free slots. A pointer to a descriptor is
    its index, NIL stands for a null pointer; addresses of objects are plain numbers. */
module MallocState {
  import opened Sequences

  const PAGE_SIZE := 4096
  const NIL := -1
  const BUCKETS := 9
  const DESCS_PER_PAGE := 256   // PAGE_SIZE / sizeof(struct bucket_desc)

  /** bucket_dir: 16, 32, ..., 4096 */
  function Size(b: int): nat {
    match b
    case 0 => 16 case 1 => 32 case 2 => 64 case 3 => 128 case 4 => 256
    case 5 => 512 case 6 => 1024 case 7 => 2048 case _ => 4096
  }

  lemma SizesAre(b: nat)
    ensures Size(0) == 16 && (b + 1 < BUCKETS ==> Size(b + 1) == 2 * Size(b)) && Size(BUCKETS - 1) == PAGE_SIZE
  {
  }

  datatype Desc = Desc(page: nat, next: int, freeptr: nat, refcnt: nat, size: nat)

  /** `mem` holds the word at an address, as far as anything was stored there; `pool` the pages that
      get_free_page can give. Ghost part: the descriptors in each chain (`bucket`), those in the
      free descriptor list (`spare`), and the free slots of each descriptor's page (`slots`). */
  datatype Heap = Heap(desc: seq<Desc>, chain: seq<int>, freeDesc: int, mem: map<nat, nat>, pool: set<nat>,
                       bucket: seq<seq<nat>>, spare: seq<nat>, slots: seq<seq<nat>>, home: seq<int>)

  // ----- lists of descriptors -----

  predicate LinkAt(desc: seq<Desc>, s: seq<nat>, i: nat)
    requires i < |s|
  {
    s[i] < |desc| && desc[s[i]].next == if i + 1 < |s| then s[i + 1] else NIL
  }

  /** From `head` the descriptors in s follow each other, and then NIL. */
  ghost predicate DescList(desc: seq<Desc>, head: int, s: seq<nat>) {
    && Distinct(s)
    && head == (if s == [] then NIL else s[0])
    && (forall i | 0 <= i < |s| :: LinkAt(desc, s, i))
  }

  // ----- free slots of a page -----

  /** Address a is the start of a slot in d's page. */
  predicate SlotOf(d: Desc, a: nat) {
    d.size > 0 && d.page * PAGE_SIZE <= a < (d.page + 1) * PAGE_SIZE && (a - d.page * PAGE_SIZE) % d.size == 0
  }

  predicate WordAt(mem: map<nat, nat>, s: seq<nat>, i: nat)
    requires i < |s|
  {
    s[i] in mem && mem[s[i]] == if i + 1 < |s| then s[i + 1] else 0
  }

  ghost predicate FreeSlots(mem: map<nat, nat>, head: nat, s: seq<nat>) {
    && Distinct(s)
    && head == (if s == [] then 0 else s[0])
    && (forall i | 0 <= i < |s| :: WordAt(mem, s, i))
  }

  /** Descriptor d serves bucket b: its free slots are slots of its page, and what is not free is
      counted in refcnt. */
  ghost predicate DescOk(h: Heap, d: nat, b: int) {
    && d < |h.desc| && d < |h.slots| && 0 <= b < BUCKETS
    && h.desc[d].size == Size(b)
    && h.desc[d].page > 0 && h.desc[d].page !in h.pool
    && FreeSlots(h.mem, h.desc[d].freeptr, h.slots[d])
    && (forall a | a in h.slots[d] :: SlotOf(h.desc[d], a))
    && h.desc[d].refcnt + |h.slots[d]| == PAGE_SIZE / Size(b)
  }

  function HomeOf(h: Heap, d: nat): int {
    if d < |h.home| then h.home[d] else NIL
  }

  /** Descriptor d is in the list of its home bucket, or in the spare list, and in no other. */
  ghost predicate HomeOk(h: Heap, d: nat) {
    && NIL <= HomeOf(h, d) < BUCKETS
    && (d in h.spare <==> HomeOf(h, d) == NIL)
    && (forall b | 0 <= b < |h.bucket| :: d in h.bucket[b] <==> HomeOf(h, d) == b)
  }

  ghost predicate Homes(h: Heap) {
    && |h.home| == |h.desc| == |h.slots| && |h.chain| == |h.bucket| == BUCKETS
    && (forall d: nat | d < |h.desc| :: HomeOk(h, d))
  }

  /** Pages of different descriptors differ. */
  ghost predicate PagesApart(h: Heap) {
    forall d, e | 0 <= d < |h.desc| && 0 <= e < |h.desc| && d != e && HomeOf(h, d) != NIL && HomeOf(h, e) != NIL ::
      h.desc[d].page != h.desc[e].page
  }

  ghost predicate Inv(h: Heap) {
    && Homes(h)
    && (forall b | 0 <= b < BUCKETS :: DescList(h.desc, h.chain[b], h.bucket[b]))
    && DescList(h.desc, h.freeDesc, h.spare)
    && (forall d: nat | d < |h.desc| && HomeOf(h, d) != NIL :: DescOk(h, d, HomeOf(h, d)))
    && PagesApart(h)
  }

  /** No bucket page is wholly free: such a page would have been given back. */
  ghost predicate Busy(h: Heap) {
    forall d: nat | d < |h.desc| && HomeOf(h, d) != NIL :: h.desc[d].refcnt > 0
  }

  // ----- live objects -----

  /** Object a, in the page of descriptor d, is handed out. */
  ghost predicate LiveIn(h: Heap, d: nat, a: nat) {
    d < |h.desc| && d < |h.slots| && HomeOf(h, d) != NIL && SlotOf(h.desc[d], a) && a !in h.slots[d]
  }

  ghost predicate Live(h: Heap, a: nat) {
    exists d :: LiveIn(h, d, a)
  }

  /** Live objects other than `gone` stay live, in their places; 0 is no object. */
  ghost predicate Stay(h: Heap, h': Heap, gone: nat) {
    forall d: nat, y: nat | LiveIn(h, d, y) && y != gone :: LiveIn(h', d, y) && h'.desc[d].size == h.desc[d].size
  }

  /** The descriptor of a live object is the one whose page it lies in. */
  lemma LiveOnce(h: Heap, d: nat, e: nat, a: nat)
    requires Inv(h) && LiveIn(h, d, a) && LiveIn(h, e, a)
    ensures d == e
  {
    assert h.desc[d].page == a / PAGE_SIZE == h.desc[e].page;
  }

  /** Live objects do not overlap: a's bytes are not b's. */
  lemma LiveApart(h: Heap, d: nat, a: nat, e: nat, b: nat)
    requires Inv(h) && LiveIn(h, d, a) && LiveIn(h, e, b) && a < b
    ensures a + h.desc[d].size <= b
  {
    assert DescOk(h, d, HomeOf(h, d)) && DescOk(h, e, HomeOf(h, e));
    if d == e {
      SlotsApart(h.desc[d], a, b);
    } else {
      SlotEnds(h.desc[d], HomeOf(h, d), a);
      assert h.desc[d].page != h.desc[e].page;
    }
  }

  lemma MulLe(i: nat, j: nat, n: nat)
    requires i <= j
    ensures i * n <= j * n
  {
  }

  lemma SlotsApart(d: Desc, a: nat, b: nat)
    requires SlotOf(d, a) && SlotOf(d, b) && a < b
    ensures a + d.size <= b
  {
    var p := d.page * PAGE_SIZE;
    var i, j := (a - p) / d.size, (b - p) / d.size;
    assert a - p == i * d.size && b - p == j * d.size;
    if i >= j {
      MulLe(j, i, d.size);
    } else {
      MulLe(i + 1, j, d.size);
      assert (i + 1) * d.size == i * d.size + d.size;
    }
  }

  /** A slot ends inside its page. */
  lemma SlotEnds(d: Desc, b: int, a: nat)
    requires 0 <= b < BUCKETS && d.size == Size(b) && SlotOf(d, a)
    ensures a + d.size <= (d.page + 1) * PAGE_SIZE
  {
    var p, n := d.page * PAGE_SIZE, PAGE_SIZE / d.size;
    var i := (a - p) / d.size;
    PageDivides(b);
    assert a - p == i * d.size;
    if i >= n {
      MulLe(n, i, d.size);
    } else {
      MulLe(i + 1, n, d.size);
      assert (i + 1) * d.size == i * d.size + d.size;
    }
  }

  lemma PageDivides(b: int)
    requires 0 <= b < BUCKETS
    ensures PAGE_SIZE / Size(b) * Size(b) == PAGE_SIZE && PAGE_SIZE / Size(b) >= 1
  {
  }
}
