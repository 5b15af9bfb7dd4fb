/** malloc and free_s of lib/malloc.c. Interrupts are off where the lists change, so each call is
    one step. */
module MallocKernel {
  import opened MallocState
  import opened MallocSteps

  lemma WordStored(mem: map<nat, nat>, mem': map<nat, nat>, s: seq<nat>, k: nat, v: nat)
    requires k < |s| && (forall j | 0 <= j < k :: WordAt(mem, s, j) && s[j] != s[k])
    requires v == if k + 1 < |s| then s[k + 1] else 0
    requires mem' == mem[s[k] := v]
    ensures forall j | 0 <= j <= k :: WordAt(mem', s, j)
  {
    forall j | 0 <= j < k
      ensures WordAt(mem', s, j)
    {
      assert WordAt(mem, s, j);
    }
  }

  lemma Minus(s: set<nat>, x: nat)
    requires x in s
    ensures |s - {x}| == |s| - 1
  {
  }

  lemma SlotsDiffer(page: nat, b: int, k: nat)
    requires 0 <= b < BUCKETS && k < |AllSlots(page, b)|
    ensures forall j | 0 <= j < k :: AllSlots(page, b)[j] < AllSlots(page, b)[k]
  {
    var s := AllSlots(page, b);
    forall j | 0 <= j < k
      ensures s[j] < s[k]
    {
      MulLe(j + 1, k, Size(b));
      assert (j + 1) * Size(b) == j * Size(b) + Size(b);
    }
  }

  /** The object at r has room for len, and no bucket of smaller objects would have had. */
  ghost predicate ObjectFits(h: Heap, r: nat, len: nat) {
    exists d: nat :: LiveIn(h, d, r) && len <= h.desc[d].size && forall c | 0 <= c < BUCKETS && Size(c) < h.desc[d].size :: Size(c) < len
  }

  /** Some page of the bucket for len has a free slot. */
  ghost predicate SlotFree(h: Heap, len: nat) {
    exists d: nat :: d < |h.desc| && HomeOf(h, d) != NIL && h.desc[d].freeptr != 0
      && len <= h.desc[d].size && forall c | 0 <= c < BUCKETS && Size(c) < h.desc[d].size :: Size(c) < len
  }

  /** The pages that a new bucket takes: one more if there is no spare descriptor. */
  function PagesNeeded(h: Heap): nat {
    if h.freeDesc == NIL then 2 else 1
  }

  /** What a call of malloc takes from the pool, and by how many the descriptors grow. */
  ghost function PagesTaken(h: Heap, len: nat): nat {
    if SlotFree(h, len) then 0 else PagesNeeded(h)
  }

  ghost function DescsAdded(h: Heap, len: nat): nat {
    if SlotFree(h, len) || h.freeDesc != NIL then 0 else DESCS_PER_PAGE
  }

  /** malloc panics exactly if the size is impossible, or no slot is free and the pages do not suffice. */
  ghost predicate Refused(h: Heap, len: nat) {
    len > PAGE_SIZE || (!SlotFree(h, len) && |h.pool| < PagesNeeded(h))
  }

  /** free_s finds the object, which is live and in a slot of at least the size hint. */
  ghost predicate Found(h: Heap, obj: nat, hint: nat) {
    exists d: nat :: LiveIn(h, d, obj) && hint <= h.desc[d].size
  }

  /** A live object's page is that of its descriptor and of no other. */
  lemma OwnDesc(h: Heap, obj: nat)
    requires Inv(h) && (Live(h, obj) || forall d: nat | HomeOf(h, d) != NIL && d < |h.desc| :: h.desc[d].page != obj / PAGE_SIZE)
    ensures forall d: nat | d < |h.desc| && HomeOf(h, d) != NIL && h.desc[d].page == obj / PAGE_SIZE ::
      LiveIn(h, d, obj) && h.desc[d].size == Size(HomeOf(h, d))
    ensures forall d: nat | LiveIn(h, d, obj) :: d < |h.desc| && HomeOf(h, d) != NIL && h.desc[d].page == obj / PAGE_SIZE
  {
    forall d: nat | LiveIn(h, d, obj)
      ensures d < |h.desc| && HomeOf(h, d) != NIL && h.desc[d].page == obj / PAGE_SIZE
    {
      InPage(h.desc[d], obj);
    }
    forall d: nat | d < |h.desc| && HomeOf(h, d) != NIL && h.desc[d].page == obj / PAGE_SIZE
      ensures LiveIn(h, d, obj) && h.desc[d].size == Size(HomeOf(h, d))
    {
      assert DescOk(h, d, HomeOf(h, d));
      var e: nat :| LiveIn(h, e, obj);
      assert e == d;
    }
  }

  /** The free slots that malloc may use are those of the first bucket that is large enough. */
  lemma RightBucket(h: Heap, b: nat, len: nat)
    requires Inv(h) && b < BUCKETS && len <= Size(b) && forall c | 0 <= c < b :: Size(c) < len
    ensures SlotFree(h, len) <==> exists d: nat :: d < |h.desc| && HomeOf(h, d) == b && h.desc[d].freeptr != 0
  {
    SizesGrow(b, len);
    if SlotFree(h, len) {
      var d: nat :| d < |h.desc| && HomeOf(h, d) != NIL && h.desc[d].freeptr != 0
        && len <= h.desc[d].size && forall c | 0 <= c < BUCKETS && Size(c) < h.desc[d].size :: Size(c) < len;
      assert DescOk(h, d, HomeOf(h, d)) && HomeOk(h, d);
      assert HomeOf(h, d) == b;
    }
    if d: nat :| d < |h.desc| && HomeOf(h, d) == b && h.desc[d].freeptr != 0 {
      assert DescOk(h, d, b);
    }
  }

  /** Address x lies in a live object. */
  ghost predicate Covered(h: Heap, x: nat) {
    exists d: nat, a: nat :: LiveIn(h, d, a) && a <= x < a + h.desc[d].size
  }

  ghost predicate LastOnPage(h: Heap, a: nat) {
    forall y: nat | Live(h, y) && y / PAGE_SIZE == a / PAGE_SIZE :: y == a
  }

  lemma SizesGrow(b: nat, len: nat)
    requires b < BUCKETS && len <= Size(b) && forall c | 0 <= c < b :: Size(c) < len
    ensures forall c | 0 <= c < BUCKETS && Size(c) < Size(b) :: Size(c) < len
    ensures forall c | 0 <= c < BUCKETS && len <= Size(c) && (forall e | 0 <= e < BUCKETS && Size(e) < Size(c) :: Size(e) < len) :: c == b
  {
  }

  /** A descriptor that names d as its next, or the chain head, is what stands before d. */
  lemma BeforeIs(h: Heap, b: nat, k: nat, prev: int)
    requires Inv(h) && b < BUCKETS && k < |h.bucket[b]| && NIL <= prev < |h.desc|
    requires if prev != NIL then h.desc[prev].next == h.bucket[b][k] else h.chain[b] == h.bucket[b][k]
    ensures prev == if k > 0 then h.bucket[b][k - 1] else NIL
  {
    var s := h.bucket[b];
    var d := s[k];
    assert DescList(h.desc, h.chain[b], s) && d in s && LinkAt(h.desc, s, k) && HomeOk(h, d);
    if prev != NIL {
      assert HomeOk(h, prev);
      var c := HomeOf(h, prev);
      var t := if c == NIL then h.spare else h.bucket[c];
      var j :| 0 <= j < |t| && t[j] == prev;
      assert LinkAt(h.desc, t, j);
      assert j + 1 < |t| && t[j + 1] in t;
      assert c == b;
    }
  }

  lemma CanDetach(h: Heap, b: nat, k: nat)
    requires Inv(h) && b < BUCKETS && k < |h.bucket[b]| && h.bucket[b][k] < |h.desc| && h.desc[h.bucket[b][k]].refcnt == 0
    ensures Detachable(h, b, k)
  {
    assert DescList(h.desc, h.chain[b], h.bucket[b]);
    forall i | 0 <= i < |h.bucket[b]|
      ensures h.bucket[b][i] < |h.desc| && h.bucket[b][i] < |h.home|
    {
      assert LinkAt(h.desc, h.bucket[b], i);
    }
  }

  /** refcnt 1 means that a is the only live object of its page. */
  lemma OnlyObject(h: Heap, d: nat, a: nat)
    requires Inv(h) && LiveIn(h, d, a)
    ensures LastOnPage(h, a) <==> h.desc[d].refcnt == 1
  {
    RefcntCounts(h, d);
    LessPart({a}, LiveSlots(h, d));
    if h.desc[d].refcnt == 1 {
      forall y: nat | LiveIn(h, d, y)
        ensures y == a
      {
        assert y !in LiveSlots(h, d) - {a};
      }
      NoOther(h, d, a);
    } else {
      assert |LiveSlots(h, d) - {a}| > 0;
      var y :| y in LiveSlots(h, d) - {a};
      SomeOther(h, d, a, y);
    }
  }

  lemma NoOther(h: Heap, d: nat, a: nat)
    requires Inv(h) && LiveIn(h, d, a) && forall y: nat | LiveIn(h, d, y) :: y == a
    ensures LastOnPage(h, a)
  {
    forall y: nat | Live(h, y) && y / PAGE_SIZE == a / PAGE_SIZE
      ensures y == a
    {
      SamePage(h, d, a, y);
    }
  }

  lemma SomeOther(h: Heap, d: nat, a: nat, y: nat)
    requires LiveIn(h, d, a) && LiveIn(h, d, y) && a != y
    ensures !LastOnPage(h, a)
  {
    InPage(h.desc[d], y);
    InPage(h.desc[d], a);
    assert Live(h, y);
  }

  /** Live objects are in pages that are not in the pool. */
  lemma CoveredOutside(h: Heap)
    requires Inv(h)
    ensures forall x: nat | Covered(h, x) :: x / PAGE_SIZE !in h.pool
  {
    forall x: nat | Covered(h, x)
      ensures x / PAGE_SIZE !in h.pool
    {
      var d: nat, a: nat :| LiveIn(h, d, a) && a <= x < a + h.desc[d].size;
      assert DescOk(h, d, HomeOf(h, d));
      SlotEnds(h.desc[d], HomeOf(h, d), a);
      assert x / PAGE_SIZE == h.desc[d].page;
    }
  }

  lemma InPage(d: Desc, a: nat)
    requires SlotOf(d, a)
    ensures a / PAGE_SIZE == d.page
  {
  }

  /** Two live objects in one page have the same descriptor. */
  lemma SamePage(h: Heap, d: nat, a: nat, y: nat)
    requires Inv(h) && LiveIn(h, d, a) && Live(h, y) && y / PAGE_SIZE == a / PAGE_SIZE
    ensures LiveIn(h, d, y)
  {
    var e: nat :| LiveIn(h, e, y);
    InPage(h.desc[e], y);
    InPage(h.desc[d], a);
  }

  class Allocator {
    var desc: seq<Desc>
    const chain: array<int>
    var freeDesc: int
    var mem: map<nat, nat>
    /** The pages that get_free_page can still give. */
    var pool: set<nat>
    ghost var h: Heap

    ghost predicate Rep()
      reads this, chain
    {
      h.desc == desc && h.chain == chain[..] && h.freeDesc == freeDesc && h.mem == mem && h.pool == pool
    }

    ghost predicate Valid()
      reads this, chain
    {
      Rep() && Inv(h) && Busy(h) && 0 !in pool
    }

    constructor (pages: set<nat>)
      requires 0 !in pages
      ensures Valid() && pool == pages && forall y: nat :: !Live(h, y)
    {
      desc := [];
      chain := new int[BUCKETS](_ => NIL);
      freeDesc := NIL;
      mem := map[];
      pool := pages;
      h := Heap([], seq(BUCKETS, _ => NIL), NIL, map[], pages, seq(BUCKETS, _ => []), [], [], []);
      new;
      assert chain[..] == seq(BUCKETS, _ => NIL);
    }

    /** Some free page, 0 if there is none. */
    method GetFreePage() returns (page: nat)
      requires 0 !in pool
      modifies `pool
      ensures page == 0 ==> old(pool) == {}
      ensures page != 0 ==> page in old(pool) && pool == old(pool) - {page}
    {
      if pool == {} {
        return 0;
      }
      page :| page in pool;
      pool := pool - {page};
    }

    /** init_bucket_desc; false is its panic, for there is no page. */
    method InitBucketDesc() returns (ok: bool)
      requires Valid() && freeDesc == NIL
      modifies `pool, `desc, `freeDesc, `h
      ensures ok <==> old(pool) != {}
      ensures ok ==> Rep() && exists page :: page in old(pool) && h == MoreDescs(old(h), page)
    {
      ghost var h0 := h;
      var page := GetFreePage();
      if page == 0 {
        return false;
      }
      var first := |desc|;
      var i := 0;
      var added: seq<Desc> := [];
      while i + 1 < DESCS_PER_PAGE
        invariant 0 <= i < DESCS_PER_PAGE && |added| == i
        invariant forall j | 0 <= j < i :: added[j] == Desc(0, first + j + 1, 0, 0, 0)
      {
        added := added + [Desc(0, first + i + 1, 0, 0, 0)];
        i := i + 1;
      }
      added := added + [Desc(0, freeDesc, 0, 0, 0)];
      assert added == NewDescs(first, freeDesc);
      desc := desc + added;
      freeDesc := first;
      h := MoreDescs(h0, page);
      return true;
    }

    /** Set up the chain of free objects of a page. */
    method Thread(page: nat, b: nat)
      requires b < BUCKETS
      modifies `mem
      ensures Threaded(old(mem), mem, page, b)
    {
      ghost var mem0, s := mem, AllSlots(page, b);
      PageDivides(b);
      var cp := page * PAGE_SIZE;
      var i := PAGE_SIZE / Size(b);
      ghost var k := 0;
      while i > 1
        invariant 1 <= i && i + k == |s| && cp == page * PAGE_SIZE + k * Size(b)
        invariant forall j | 0 <= j < k :: WordAt(mem, s, j)
        invariant forall a: nat | a / PAGE_SIZE != page && a in mem0 :: a in mem && mem[a] == mem0[a]
      {
        SlotNumber(b, k);
        assert cp == s[k] && (k + 1) * Size(b) == k * Size(b) + Size(b);
        SlotsDiffer(page, b, k);
        assert s[k + 1] == cp + Size(b);
        WordStored(mem, mem[cp := cp + Size(b)], s, k, s[k + 1]);
        mem := mem[cp := cp + Size(b)];
        cp := cp + Size(b);
        i := i - 1;
        k := k + 1;
      }
      SlotNumber(b, k);
      SlotsDiffer(page, b, k);
      WordStored(mem, mem[cp := 0], s, k, 0);
      mem := mem[cp := 0];
      assert s[0] == page * PAGE_SIZE;
      forall i, j | 0 <= i < j < |s|
        ensures s[i] != s[j]
      {
        SlotsDiffer(page, b, j);
      }
    }

    /** A spare descriptor to use; false if that needs a page and there is none. */
    method NeedDesc() returns (ok: bool)
      requires Valid()
      modifies `pool, `desc, `freeDesc, `h
      ensures ok <==> old(freeDesc) != NIL || old(pool) != {}
      ensures ok ==> Valid() && h.spare != [] && mem == old(mem) && pool <= old(pool)
      ensures ok ==> |pool| == if old(freeDesc) == NIL then |old(pool)| - 1 else |old(pool)|
      ensures ok ==> |desc| == |old(desc)| + if old(freeDesc) == NIL then DESCS_PER_PAGE else 0
      ensures ok ==> forall e: nat | e < |old(desc)| :: desc[e] == old(desc)[e] && HomeOf(h, e) == HomeOf(old(h), e)
      ensures ok ==> Stay(old(h), h, 0)
      ensures ok ==> forall y: nat :: Live(h, y) <==> Live(old(h), y)
    {
      if freeDesc != NIL {
        return true;
      }
      ghost var h0 := h;
      ok := InitBucketDesc();
      if ok {
        ghost var page0 :| page0 in h0.pool && h == MoreDescs(h0, page0);
        MoreKeeps(h0, page0);
        Minus(h0.pool, page0);
      }
    }

    /** malloc's way out when no bucket has space: a descriptor and a page for bucket b. */
    method NewBucket(b: nat) returns (d: int)
      requires Valid() && b < BUCKETS
      modifies `pool, `desc, `freeDesc, `mem, chain, `h
      ensures d == NIL <==> |old(pool)| < PagesNeeded(old(h))
      ensures d != NIL ==> Rep() && Inv(h) && 0 !in pool && 0 <= d < |desc| && desc[d].freeptr != 0 && HomeOf(h, d) == b
      ensures d != NIL ==> pool <= old(pool) && |pool| == |old(pool)| - PagesNeeded(old(h))
      ensures d != NIL ==> |desc| == |old(desc)| + if old(freeDesc) == NIL then DESCS_PER_PAGE else 0
      ensures d != NIL ==> Stay(old(h), h, 0)
      ensures d != NIL ==> forall y: nat :: Live(h, y) <==> Live(old(h), y)
      ensures d != NIL ==> forall e: nat | e < |desc| && e != d && HomeOf(h, e) != NIL :: desc[e].refcnt > 0
      ensures d != NIL ==> forall a: nat | a / PAGE_SIZE !in old(pool) && a in old(mem) :: a in mem && mem[a] == old(mem)[a]
    {
      var ok := NeedDesc();
      if !ok {
        return NIL;
      }
      var page := GetFreePage();
      if page == 0 {
        return NIL;
      }
      d := Attach(b, page);
    }

    method Attach(b: nat, page: nat) returns (d: int)
      requires Homes(h) && h.desc == desc && h.chain == chain[..] && h.freeDesc == freeDesc && h.mem == mem
      requires Inv(h) && Busy(h) && h.spare != [] && b < BUCKETS && page in h.pool && page != 0 && 0 !in pool && pool == h.pool - {page}
      modifies `desc, `freeDesc, `mem, chain, `h
      ensures Rep() && Inv(h) && 0 <= d < |desc| == |old(desc)| && desc[d].freeptr != 0 && HomeOf(h, d) == b
      ensures Stay(old(h), h, 0)
      ensures forall y: nat :: Live(h, y) <==> Live(old(h), y)
      ensures forall e: nat | e < |desc| && e != d && HomeOf(h, e) != NIL :: desc[e].refcnt > 0
      ensures forall a: nat | a / PAGE_SIZE != page && a in old(mem) :: a in mem && mem[a] == old(mem)[a]
    {
      ghost var h1 := h;
      TailList(desc, freeDesc, h1.spare);
      d := freeDesc;
      var next := desc[d].next;
      Thread(page, b);
      AttachKeeps(h1, b, page, mem);
      freeDesc := next;
      desc := desc[d := Desc(page, chain[b], page * PAGE_SIZE, 0, Size(b))];
      chain[b] := d;
      h := Attached(h1, b, page, mem);
      assert h.chain == chain[..];
    }

    /** A panic (an impossible size, or no page left) is result 0. Otherwise the object is new, it is
        the only one that became live, it lies in the first bucket that is large enough, no live
        object's contents changed, and pages and descriptors were taken as for a new bucket exactly if
        there was no free slot. */
    method Malloc(len: nat) returns (r: nat)
      requires Valid()
      modifies `pool, `desc, `freeDesc, `mem, chain, `h
      ensures r == 0 <==> Refused(old(h), len)
      ensures r != 0 ==> Valid() && !Live(old(h), r) && ObjectFits(h, r, len)
      ensures r != 0 ==> Stay(old(h), h, 0)
      ensures r != 0 ==> forall y: nat :: Live(h, y) <==> Live(old(h), y) || y == r
      ensures r != 0 ==> forall x: nat | Covered(old(h), x) && x in old(mem) :: x in mem && mem[x] == old(mem)[x]
      ensures r != 0 ==> pool <= old(pool) && |pool| == |old(pool)| - PagesTaken(old(h), len)
      ensures r != 0 ==> |desc| == |old(desc)| + DescsAdded(old(h), len)
    {
      var b := 0;
      while b < BUCKETS && Size(b) < len
        invariant 0 <= b <= BUCKETS && forall c | 0 <= c < b :: Size(c) < len
      {
        b := b + 1;
      }
      if b == BUCKETS {
        assert Size(BUCKETS - 1) == PAGE_SIZE;
        return 0;
      }
      var d := FirstWithSpace(b);
      SizesGrow(b, len);
      RightBucket(h, b, len);
      if d == NIL {
        d := NewBucket(b);
        if d == NIL {
          return 0;
        }
      }
      CoveredOutside(old(h));
      r := Take(b, d);
    }

    /** Hand out the first free slot of d's page. */
    method Take(b: nat, d: nat) returns (r: nat)
      requires Rep() && Inv(h) && 0 !in pool && b < BUCKETS && d < |desc| && HomeOf(h, d) == b && desc[d].freeptr != 0
      requires forall e: nat | e < |desc| && e != d && HomeOf(h, e) != NIL :: desc[e].refcnt > 0
      modifies `desc, `h
      ensures Valid() && r != 0 && !Live(old(h), r) && LiveIn(h, d, r) && h.desc[d].size == Size(b) && |desc| == |old(desc)|
      ensures Stay(old(h), h, 0)
      ensures forall y: nat :: Live(h, y) <==> Live(old(h), y) || y == r
    {
      r := desc[d].freeptr;
      PopKeeps(h, d);
      ghost var h0 := h;
      desc := desc[d := desc[d].(freeptr := mem[r], refcnt := desc[d].refcnt + 1)];
      h := Popped(h0, d);
      assert DescOk(h, d, b);
    }

    /** The search in a bucket's chain. */
    method FirstWithSpace(b: nat) returns (d: int)
      requires Valid() && b < BUCKETS
      ensures d == NIL ==> forall e: nat | HomeOf(h, e) == b :: e < |desc| && desc[e].freeptr == 0
      ensures d != NIL ==> 0 <= d < |desc| && HomeOf(h, d) == b && desc[d].freeptr != 0
    {
      ghost var s, k := h.bucket[b], 0;
      assert DescList(h.desc, h.chain[b], s) && (s != [] ==> LinkAt(h.desc, s, 0));
      d := chain[b];
      while d != NIL && desc[d].freeptr == 0
        invariant 0 <= k <= |s| && d == if k < |s| then s[k] else NIL
        invariant d != NIL ==> 0 <= d < |desc|
        invariant forall j | 0 <= j < k :: s[j] < |desc| && desc[s[j]].freeptr == 0
        decreases |s| - k
      {
        assert LinkAt(h.desc, s, k);
        d := desc[d].next;
        k := k + 1;
        assert k < |s| ==> LinkAt(h.desc, s, k);
      }
      if d != NIL {
        assert HomeOk(h, d);
      } else {
        forall e: nat | HomeOf(h, e) == b
          ensures e < |desc| && desc[e].freeptr == 0
        {
          assert HomeOk(h, e);
        }
      }
    }

    /** The search of free_s: the descriptor of the page that holds obj, and the one before it in its
        chain. A size hint skips the buckets of smaller objects. */
    method FindDesc(obj: nat, hint: nat) returns (b: nat, d: int, prev: int)
      requires Valid()
      ensures d == NIL ==> forall e: nat | HomeOf(h, e) != NIL :: e < |desc| && (desc[e].page != obj / PAGE_SIZE || desc[e].size < hint)
      ensures d != NIL ==> 0 <= d < |desc| && b < BUCKETS && HomeOf(h, d) == b && desc[d].page == obj / PAGE_SIZE && Size(b) >= hint
      ensures NIL <= prev < |desc|
    {
      b := 0;
      while b < BUCKETS
        invariant b <= BUCKETS
        invariant forall e: nat | 0 <= HomeOf(h, e) < b :: e < |desc| && (desc[e].page != obj / PAGE_SIZE || desc[e].size < hint)
      {
        if Size(b) >= hint {
          d, prev := FindInChain(obj / PAGE_SIZE, b);
          if d != NIL {
            return;
          }
        }
        forall e: nat | HomeOf(h, e) == b
          ensures e < |desc| && (desc[e].page != obj / PAGE_SIZE || desc[e].size < hint)
        {
          assert DescOk(h, e, b);
        }
        b := b + 1;
      }
      d, prev := NIL, NIL;
    }

    method FindInChain(page: nat, b: nat) returns (d: int, prev: int)
      requires Valid() && b < BUCKETS
      ensures d == NIL ==> forall e: nat | HomeOf(h, e) == b :: e < |desc| && desc[e].page != page
      ensures d != NIL ==> 0 <= d < |desc| && HomeOf(h, d) == b && desc[d].page == page
      ensures NIL <= prev < |desc|
    {
      ghost var s, k := h.bucket[b], 0;
      assert DescList(h.desc, h.chain[b], s) && (s != [] ==> LinkAt(h.desc, s, 0));
      d, prev := chain[b], NIL;
      while d != NIL && desc[d].page != page
        invariant 0 <= k <= |s| && d == if k < |s| then s[k] else NIL
        invariant d != NIL ==> 0 <= d < |desc|
        invariant NIL <= prev < |desc|
        invariant forall j | 0 <= j < k :: s[j] < |desc| && desc[s[j]].page != page
        decreases |s| - k
      {
        assert LinkAt(h.desc, s, k);
        prev := d;
        d := desc[d].next;
        k := k + 1;
        assert k < |s| ==> LinkAt(h.desc, s, k);
      }
      if d != NIL {
        assert HomeOk(h, d);
      } else {
        forall e: nat | HomeOf(h, e) == b
          ensures e < |desc| && desc[e].page != page
        {
          assert HomeOk(h, e);
        }
      }
    }

    /** free_s of an address that malloc gave out, or of one outside every bucket page. False is the
        panic, for such an address or for a size hint beyond the object's slot; nothing has changed
        then. Otherwise the object is no longer live, all others are, with their contents, and its
        page goes back exactly if it was the page's last object. */
    method FreeS(obj: nat, hint: nat) returns (ok: bool)
      requires Valid() && (Live(h, obj) || forall d: nat | HomeOf(h, d) != NIL && d < |desc| :: desc[d].page != obj / PAGE_SIZE)
      modifies `pool, `desc, `freeDesc, `mem, chain, `h
      ensures Valid() && (ok <==> Found(old(h), obj, hint)) && (!ok ==> h == old(h)) && |desc| == |old(desc)|
      ensures ok ==> Stay(old(h), h, obj)
      ensures ok ==> forall y: nat :: Live(h, y) <==> Live(old(h), y) && y != obj
      ensures ok ==> forall x: nat | Covered(old(h), x) && x != obj && x in old(mem) :: x in mem && mem[x] == old(mem)[x]
      ensures pool == if ok && LastOnPage(old(h), obj) then old(pool) + {obj / PAGE_SIZE} else old(pool)
    {
      ghost var h0 := h;
      var b, d, prev := FindDesc(obj, hint);
      OwnDesc(h, obj);
      if d == NIL {
        return false;
      }
      assert Found(h0, obj, hint);
      OnlyObject(h, d, obj);
      Release(obj, b, d, prev);
      return true;
    }

    /** The owner of an object stores a word into it. */
    method UserStore(obj: nat, x: nat, v: nat)
      requires Valid()
      requires exists d: nat :: LiveIn(h, d, obj) && obj <= x < obj + h.desc[d].size
      modifies `mem, `h
      ensures Valid() && h == old(h).(mem := old(mem)[x := v]) && Stay(old(h), h, 0)
      ensures forall y: nat :: Live(h, y) <==> Live(old(h), y)
    {
      ghost var d: nat :| LiveIn(h, d, obj) && obj <= x < obj + h.desc[d].size;
      MallocSteps.UserStore(h, d, obj, x, v);
      mem := mem[x := v];
      h := h.(mem := mem);
    }

    /** What free_s does with interrupts off. The search was made before, so prev may be out of date. */
    method Release(obj: nat, b: nat, d: nat, prev: int)
      requires Valid() && LiveIn(h, d, obj) && b < BUCKETS && HomeOf(h, d) == b && NIL <= prev < |desc|
      modifies `pool, `desc, `freeDesc, `mem, chain, `h
      ensures Valid() && |desc| == |old(desc)|
      ensures Stay(old(h), h, obj)
      ensures forall y: nat :: Live(h, y) <==> Live(old(h), y) && y != obj
      ensures mem == old(mem)[obj := old(desc)[d].freeptr]
      ensures pool == if old(desc)[d].refcnt == 1 then old(pool) + {old(desc)[d].page} else old(pool)
    {
      ghost var h0 := h;
      PushKeeps(h, d, obj);
      mem := mem[obj := desc[d].freeptr];
      desc := desc[d := desc[d].(freeptr := obj, refcnt := desc[d].refcnt - 1)];
      h := Pushed(h0, d, obj);
      if desc[d].refcnt == 0 {
        DropBucket(b, d, prev);
      }
    }

    /** Unlink descriptor d, whose page has no object left, and give the page back. */
    method DropBucket(b: nat, d: nat, hint: int)
      requires Rep() && Inv(h) && 0 !in pool && b < BUCKETS && d < |desc| && HomeOf(h, d) == b && desc[d].refcnt == 0
      requires NIL <= hint < |desc|
      requires forall e: nat | e < |desc| && e != d && HomeOf(h, e) != NIL :: desc[e].refcnt > 0
      modifies `pool, `desc, `freeDesc, chain, `h
      ensures Valid() && pool == old(pool) + {old(desc)[d].page} && |desc| == |old(desc)|
      ensures Stay(old(h), h, 0)
      ensures forall y: nat :: Live(h, y) <==> Live(old(h), y)
    {
      ghost var h0, s := h, h.bucket[b];
      assert HomeOk(h, d) && DescList(h.desc, h.chain[b], s);
      ghost var k :| 0 <= k < |s| && s[k] == d;
      var prev := hint;
      if (prev != NIL && desc[prev].next != d) || (prev == NIL && chain[b] != d) {
        prev := Before(b, d, k);
      } else {
        BeforeIs(h, b, k, prev);
      }
      CanDetach(h, b, k);
      DetachKeeps(h, b, k);
      Unlink(b, d, k, prev);
    }

    /** Take the k-th descriptor, after prev, out of its chain. */
    method Unlink(b: nat, d: nat, ghost k: nat, prev: int)
      requires Rep() && Detachable(h, b, k) && h.bucket[b][k] == d
      requires prev == if k > 0 then h.bucket[b][k - 1] else NIL
      modifies `pool, `desc, `freeDesc, chain, `h
      ensures Rep() && Detachable(old(h), b, k) && h == Detached(old(h), b, k)
    {
      ghost var h0 := h;
      var next := desc[d].next;
      if prev != NIL {
        desc := desc[prev := desc[prev].(next := next)];
      } else {
        chain[b] := next;
      }
      pool := pool + {desc[d].page};
      desc := desc[d := desc[d].(next := freeDesc)];
      freeDesc := d;
      h := Detached(h0, b, k);
      assert h.chain == chain[..];
    }

    /** The search for the predecessor; NIL if d is the first. */
    method Before(b: nat, d: nat, ghost k: nat) returns (prev: int)
      requires Rep() && Inv(h) && b < BUCKETS && k < |h.bucket[b]| && h.bucket[b][k] == d
      ensures prev == if k > 0 then h.bucket[b][k - 1] else NIL
    {
      ghost var s, j := h.bucket[b], 0;
      assert DescList(h.desc, h.chain[b], s);
      prev := chain[b];
      assert LinkAt(h.desc, s, 0);
      while prev != NIL && desc[prev].next != d
        invariant 0 <= j <= |s| && prev == if j < |s| then s[j] else NIL
        invariant prev != NIL ==> 0 <= prev < |desc|
        invariant k > 0 ==> j < k
        decreases |s| - j
      {
        assert LinkAt(h.desc, s, j);
        prev := desc[prev].next;
        j := j + 1;
        assert j < |s| ==> LinkAt(h.desc, s, j);
        assert k > 0 ==> LinkAt(h.desc, s, k - 1);
      }
      if prev != NIL {
        assert LinkAt(h.desc, s, j);
      }
    }
  }
}
