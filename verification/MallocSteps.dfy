/** What each change that malloc and free_s make does to the invariant and to the live objects. */
module MallocSteps {
  import opened Sequences
  import opened MallocState

  function Tail(s: seq<nat>): seq<nat> {
    if s == [] then [] else s[1..]
  }

  lemma TailSlots(mem: map<nat, nat>, head: nat, s: seq<nat>)
    requires FreeSlots(mem, head, s) && s != []
    ensures s[0] in mem && FreeSlots(mem, mem[s[0]], s[1..])
  {
    assert WordAt(mem, s, 0);
    forall i | 0 <= i < |s| - 1
      ensures WordAt(mem, s[1..], i)
    {
      assert WordAt(mem, s, i + 1);
    }
  }

  lemma ConsSlots(mem: map<nat, nat>, head: nat, s: seq<nat>, a: nat)
    requires FreeSlots(mem, head, s) && a !in s
    ensures FreeSlots(mem[a := head], a, [a] + s)
  {
    var t, mem' := [a] + s, mem[a := head];
    forall i | 0 <= i < |t|
      ensures WordAt(mem', t, i)
    {
      if i > 0 {
        assert WordAt(mem, s, i - 1) && s[i - 1] in s;
      }
    }
  }

  /** A free list does not notice stores elsewhere. */
  lemma SlotsKept(mem: map<nat, nat>, mem': map<nat, nat>, head: nat, s: seq<nat>)
    requires FreeSlots(mem, head, s)
    requires forall a | a in s && a in mem :: a in mem' && mem'[a] == mem[a]
    ensures FreeSlots(mem', head, s)
  {
    forall i | 0 <= i < |s|
      ensures WordAt(mem', s, i)
    {
      assert WordAt(mem, s, i);
    }
  }

  /** Descriptor lists depend on the next fields only. */
  lemma ListKept(desc: seq<Desc>, desc': seq<Desc>, head: int, s: seq<nat>)
    requires DescList(desc, head, s) && |desc| <= |desc'|
    requires forall d | d in s && d < |desc| :: desc'[d].next == desc[d].next
    ensures DescList(desc', head, s)
  {
    forall i | 0 <= i < |s|
      ensures LinkAt(desc', s, i)
    {
      assert LinkAt(desc, s, i);
    }
  }

  /** The owner of a live object may store anything into it. */
  lemma UserStore(h: Heap, d: nat, a: nat, x: nat, v: nat)
    requires Inv(h) && LiveIn(h, d, a) && a <= x < a + h.desc[d].size
    ensures Inv(h.(mem := h.mem[x := v]))
    ensures forall y: nat :: Live(h.(mem := h.mem[x := v]), y) <==> Live(h, y)
  {
    var h' := h.(mem := h.mem[x := v]);
    forall e: nat | e < |h.desc|
      ensures HomeOk(h', e)
    {
      assert HomeOk(h, e);
    }
    forall e: nat | e < |h.desc| && HomeOf(h, e) != NIL
      ensures DescOk(h', e, HomeOf(h', e))
    {
      assert DescOk(h, e, HomeOf(h, e)) && DescOk(h, d, HomeOf(h, d));
      InsideObject(h, d, a, e, x);
      SlotsKept(h.mem, h'.mem, h.desc[e].freeptr, h.slots[e]);
    }
    forall y: nat
      ensures Live(h', y) <==> Live(h, y)
    {
      forall e: nat
        ensures LiveIn(h', e, y) == LiveIn(h, e, y)
      {
      }
    }
  }

  /** No free slot starts inside a live object. */
  lemma InsideObject(h: Heap, d: nat, a: nat, e: nat, x: nat)
    requires Inv(h) && LiveIn(h, d, a) && a <= x < a + h.desc[d].size
    requires e < |h.desc| && HomeOf(h, e) != NIL
    ensures e < |h.slots| && x !in h.slots[e]
  {
    assert DescOk(h, e, HomeOf(h, e)) && DescOk(h, d, HomeOf(h, d));
    SlotEnds(h.desc[d], HomeOf(h, d), a);
    if x in h.slots[e] {
      assert SlotOf(h.desc[e], x);
      assert h.desc[d].page == a / PAGE_SIZE == x / PAGE_SIZE == h.desc[e].page;
      if a < x {
        SlotsApart(h.desc[d], a, x);
      }
    }
  }

  // ----- one slot out, one slot in -----

  /** malloc's last step: the first free slot of d's page is handed out. */
  function Popped(h: Heap, d: nat): Heap
    requires d < |h.desc| && d < |h.slots|
  {
    var a := h.desc[d].freeptr;
    var next := if a in h.mem then h.mem[a] else 0;
    h.(desc := h.desc[d := h.desc[d].(freeptr := next, refcnt := h.desc[d].refcnt + 1)], slots := h.slots[d := Tail(h.slots[d])])
  }

  lemma ChangedDesc(h: Heap, h': Heap, d: nat)
    requires Inv(h) && d < |h.desc| && HomeOf(h, d) != NIL && |h'.desc| == |h.desc| && |h'.slots| == |h.slots|
    requires h'.home == h.home && h'.bucket == h.bucket && h'.spare == h.spare && h'.pool == h.pool
    requires h'.chain == h.chain && h'.freeDesc == h.freeDesc
    requires h'.desc[d] == h.desc[d].(freeptr := h'.desc[d].freeptr, refcnt := h'.desc[d].refcnt)
    requires forall e | 0 <= e < |h.desc| && e != d :: h'.desc[e] == h.desc[e] && h'.slots[e] == h.slots[e]
    requires DescOk(h', d, HomeOf(h, d))
    requires forall e: nat, a | e < |h.desc| && e != d && a in h.slots[e] && a in h.mem && HomeOf(h, e) != NIL ::
               a in h'.mem && h'.mem[a] == h.mem[a]
    ensures Inv(h')
  {
    forall e: nat | e < |h.desc|
      ensures HomeOk(h', e)
    {
      assert HomeOk(h, e);
    }
    forall e: nat | e < |h.desc| && HomeOf(h, e) != NIL
      ensures DescOk(h', e, HomeOf(h', e))
    {
      if e != d {
        assert DescOk(h, e, HomeOf(h, e));
        SlotsKept(h.mem, h'.mem, h.desc[e].freeptr, h.slots[e]);
      }
    }
    forall b | 0 <= b < BUCKETS
      ensures DescList(h'.desc, h'.chain[b], h'.bucket[b])
    {
      ListKept(h.desc, h'.desc, h.chain[b], h.bucket[b]);
    }
    ListKept(h.desc, h'.desc, h.freeDesc, h.spare);
  }

  lemma PopKeeps(h: Heap, d: nat)
    requires Inv(h) && d < |h.desc| && HomeOf(h, d) != NIL && h.desc[d].freeptr != 0
    ensures d < |h.slots| && Inv(Popped(h, d))
    ensures h.slots[d] != [] && h.desc[d].freeptr == h.slots[d][0] && h.desc[d].freeptr in h.mem
    ensures !Live(h, h.desc[d].freeptr)
    ensures LiveIn(Popped(h, d), d, h.desc[d].freeptr)
    ensures Stay(h, Popped(h, d), 0)
    ensures forall y: nat :: Live(Popped(h, d), y) <==> Live(h, y) || y == h.desc[d].freeptr
  {
    assert DescOk(h, d, HomeOf(h, d));
    var s, a, h' := h.slots[d], h.desc[d].freeptr, Popped(h, d);
    TailSlots(h.mem, a, s);
    assert a == s[0] && a in s;
    assert a !in s[1..];
    forall y | y in s[1..]
      ensures SlotOf(h'.desc[d], y)
    {
      assert y in s && SlotOf(h.desc[d], y);
    }
    ChangedDesc(h, h', d);
    forall e: nat
      ensures !LiveIn(h, e, a)
    {
    }
    assert LiveIn(h', d, a);
    forall y: nat
      ensures Live(h', y) <==> Live(h, y) || y == a
    {
      assert s == [a] + s[1..];
      forall e: nat
        ensures LiveIn(h', e, y) <==> LiveIn(h, e, y) || (e == d && y == a)
      {
      }
    }
  }

  /** free_s: object a goes back to the front of its page's free list. */
  function Pushed(h: Heap, d: nat, a: nat): Heap
    requires d < |h.desc| && d < |h.slots| && h.desc[d].refcnt > 0
  {
    h.(mem := h.mem[a := h.desc[d].freeptr],
       desc := h.desc[d := h.desc[d].(freeptr := a, refcnt := h.desc[d].refcnt - 1)],
       slots := h.slots[d := [a] + h.slots[d]])
  }

  lemma PushKeeps(h: Heap, d: nat, a: nat)
    requires Inv(h) && LiveIn(h, d, a) && h.desc[d].refcnt > 0
    ensures Inv(Pushed(h, d, a))
    ensures Stay(h, Pushed(h, d, a), a)
    ensures forall y: nat :: Live(Pushed(h, d, a), y) <==> Live(h, y) && y != a
  {
    assert DescOk(h, d, HomeOf(h, d));
    var h' := Pushed(h, d, a);
    ConsSlots(h.mem, h.desc[d].freeptr, h.slots[d], a);
    forall e: nat, y | e < |h.desc| && e != d && y in h.slots[e] && y in h.mem && HomeOf(h, e) != NIL
      ensures y in h'.mem && h'.mem[y] == h.mem[y]
    {
      assert DescOk(h, e, HomeOf(h, e));
      assert h.desc[e].page == y / PAGE_SIZE && h.desc[d].page == a / PAGE_SIZE;
    }
    ChangedDesc(h, h', d);
    forall y: nat
      ensures Live(h', y) <==> Live(h, y) && y != a
    {
      forall e: nat
        ensures LiveIn(h', e, y) <==> LiveIn(h, e, y) && y != a
      {
        if LiveIn(h, e, y) && y == a {
          LiveOnce(h, d, e, a);
        }
      }
    }
  }

  // ----- a page in, a page out -----

  /** All slots of a page, in the order of their addresses. */
  function AllSlots(page: nat, b: int): seq<nat> {
    seq(PAGE_SIZE / Size(b), k => if 0 <= k then page * PAGE_SIZE + k * Size(b) else 0)
  }

  /** From mem to mem' the slots of a page were threaded, and nothing outside the page changed. */
  ghost predicate Threaded(mem: map<nat, nat>, mem': map<nat, nat>, page: nat, b: int) {
    && FreeSlots(mem', page * PAGE_SIZE, AllSlots(page, b))
    && (forall a: nat | a / PAGE_SIZE != page && a in mem :: a in mem' && mem'[a] == mem[a])
  }

  lemma AllSlotsOk(page: nat, b: int, d: Desc)
    requires 0 <= b < BUCKETS && d.page == page && d.size == Size(b)
    ensures forall a :: a in AllSlots(page, b) <==> SlotOf(d, a)
  {
    var s, n := AllSlots(page, b), Size(b);
    PageDivides(b);
    forall k | 0 <= k < |s|
      ensures SlotOf(d, s[k])
    {
      SlotNumber(b, k);
    }
    forall a: nat | SlotOf(d, a)
      ensures a in s
    {
      var k := (a - page * PAGE_SIZE) / n;
      assert a - page * PAGE_SIZE == k * n;
      if k >= |s| {
        MulLe(|s|, k, n);
      } else {
        assert s[k] == a;
      }
    }
  }

  lemma SlotNumber(b: int, k: nat)
    requires 0 <= b < BUCKETS && k < PAGE_SIZE / Size(b)
    ensures k * Size(b) < PAGE_SIZE && (k * Size(b)) % Size(b) == 0
  {
    PageDivides(b);
    MulLe(k + 1, PAGE_SIZE / Size(b), Size(b));
    assert (k + 1) * Size(b) == k * Size(b) + Size(b);
    Multiple(k, Size(b));
  }

  lemma {:induction false} Multiple(k: nat, n: nat)
    requires n > 0
    ensures (k * n) % n == 0
  {
    if k == 0 {
    } else {
      Multiple(k - 1, n);
      assert k * n == (k - 1) * n + n;
      AddMod((k - 1) * n, n);
    }
  }

  lemma AddMod(x: nat, n: nat)
    requires n > 0
    ensures (x + n) % n == x % n
  {
    var q, q' := x / n, (x + n) / n;
    assert (q + 1) * n == q * n + n;
    assert (q' - q - 1) * n == x % n - (x + n) % n;
    assert (q + 1 - q') * n == (x + n) % n - x % n;
    if q' > q + 1 {
      MulLe(1, q' - q - 1, n);
    } else if q' < q + 1 {
      MulLe(1, q + 1 - q', n);
    }
  }

  /** The first spare descriptor becomes the first of bucket b, with a fresh, wholly free page. */
  function Attached(h: Heap, b: nat, page: nat, mem': map<nat, nat>): Heap
    requires h.spare != [] && h.spare[0] < |h.desc| && h.spare[0] < |h.slots| && h.spare[0] < |h.home|
    requires b < |h.chain| && b < |h.bucket|
  {
    var d := h.spare[0];
    Heap(h.desc[d := Desc(page, h.chain[b], page * PAGE_SIZE, 0, Size(b))],
         h.chain[b := d], h.desc[d].next, mem', h.pool - {page},
         h.bucket[b := [d] + h.bucket[b]], h.spare[1..], h.slots[d := AllSlots(page, b)], h.home[d := b])
  }

  /** The precondition of Attached, in words: there is a spare descriptor and a page. */
  ghost predicate Attachable(h: Heap, b: nat, page: nat, mem': map<nat, nat>) {
    && Inv(h) && b < BUCKETS && h.spare != []
    && page in h.pool && page > 0 && Threaded(h.mem, mem', page, b)
  }

  lemma TailList(desc: seq<Desc>, head: int, s: seq<nat>)
    requires DescList(desc, head, s) && s != []
    ensures s[0] < |desc| && DescList(desc, desc[s[0]].next, s[1..]) && s[0] !in s[1..]
  {
    assert LinkAt(desc, s, 0);
    forall i | 0 <= i < |s| - 1
      ensures LinkAt(desc, s[1..], i)
    {
      assert LinkAt(desc, s, i + 1);
    }
  }

  lemma ConsList(desc: seq<Desc>, head: int, s: seq<nat>, d: nat)
    requires DescList(desc, head, s) && d < |desc| && d !in s && desc[d].next == head
    ensures DescList(desc, d, [d] + s)
  {
    var t := [d] + s;
    forall i | 0 <= i < |t|
      ensures LinkAt(desc, t, i)
    {
      if i > 0 {
        assert LinkAt(desc, s, i - 1);
      }
    }
  }

  lemma AttachLists(h: Heap, b: nat, page: nat, mem': map<nat, nat>)
    requires Attachable(h, b, page, mem')
    ensures h.spare[0] < |h.desc| && h.spare[0] < |h.slots| && HomeOf(h, h.spare[0]) == NIL
    ensures var h' := Attached(h, b, page, mem');
      && Homes(h')
      && (forall c | 0 <= c < BUCKETS :: DescList(h'.desc, h'.chain[c], h'.bucket[c]))
      && DescList(h'.desc, h'.freeDesc, h'.spare)
  {
    var d := h.spare[0];
    TailList(h.desc, h.freeDesc, h.spare);
    assert HomeOk(h, d);
    var h' := Attached(h, b, page, mem');
    assert h.spare == [d] + h.spare[1..];
    forall e: nat | e < |h.desc|
      ensures HomeOk(h', e)
    {
      assert HomeOk(h, e);
    }
    ListKept(h.desc, h'.desc, h.desc[d].next, h.spare[1..]);
    forall c | 0 <= c < BUCKETS
      ensures DescList(h'.desc, h'.chain[c], h'.bucket[c])
    {
      assert d !in h.bucket[c];
      ListKept(h.desc, h'.desc, h.chain[c], h.bucket[c]);
      if c == b {
        ConsList(h'.desc, h.chain[c], h.bucket[c], d);
      }
    }
  }

  /** A new bucket page makes no object live: all its slots are free. */
  lemma AttachKeeps(h: Heap, b: nat, page: nat, mem': map<nat, nat>)
    requires Attachable(h, b, page, mem')
    ensures h.spare[0] < |h.desc| && h.spare[0] < |h.slots|
    ensures var h' := Attached(h, b, page, mem');
      && Inv(h') && h'.desc[h.spare[0]].freeptr != 0 && HomeOf(h', h.spare[0]) == b
      && (forall e | 0 <= e < |h.desc| && e != h.spare[0] :: h'.desc[e] == h.desc[e] && HomeOf(h', e) == HomeOf(h, e))
      && Stay(h, h', 0) && (forall y: nat :: Live(h', y) <==> Live(h, y))
  {
    AttachLists(h, b, page, mem');
    var d, h' := h.spare[0], Attached(h, b, page, mem');
    AllSlotsOk(page, b, h'.desc[d]);
    PageDivides(b);
    forall e: nat | e < |h.desc| && HomeOf(h', e) != NIL
      ensures DescOk(h', e, HomeOf(h', e))
    {
      if e != d {
        assert DescOk(h, e, HomeOf(h, e));
        forall a | a in h.slots[e] && a in h.mem
          ensures a in mem' && mem'[a] == h.mem[a]
        {
          assert SlotOf(h.desc[e], a);
          assert a / PAGE_SIZE == h.desc[e].page;
        }
        SlotsKept(h.mem, mem', h.desc[e].freeptr, h.slots[e]);
      }
    }
    forall e: nat, y: nat
      ensures LiveIn(h', e, y) == LiveIn(h, e, y)
    {
    }
    assert forall y: nat :: Live(h', y) <==> Live(h, y);
    assert PagesApart(h') by {
      forall e: nat | e < |h.desc| && e != d && HomeOf(h, e) != NIL
        ensures h.desc[e].page != page
      {
        assert DescOk(h, e, HomeOf(h, e));
      }
    }
  }

  /** refcnt is the number of live objects in d's page. */
  lemma RefcntCounts(h: Heap, d: nat)
    requires Inv(h) && d < |h.desc| && HomeOf(h, d) != NIL
    ensures d < |h.slots| && |LiveSlots(h, d)| == h.desc[d].refcnt
    ensures forall a: nat :: a in LiveSlots(h, d) <==> LiveIn(h, d, a)
  {
    var b := HomeOf(h, d);
    assert DescOk(h, d, b);
    var all := AllSlots(h.desc[d].page, b);
    AllSlotsOk(h.desc[d].page, b, h.desc[d]);
    assert Distinct(all) by {
      forall i, j | 0 <= i < j < |all|
        ensures all[i] != all[j]
      {
        MulLe(i + 1, j, Size(b));
        assert (i + 1) * Size(b) == i * Size(b) + Size(b);
      }
    }
    DistinctCount(h.slots[d]);
    DistinctCount(all);
    LessPart(Members(h.slots[d]), Members(all));
  }

  /** The slots of d's page that are not free. */
  function LiveSlots(h: Heap, d: nat): set<nat>
    requires d < |h.desc| && d < |h.slots|
  {
    Members(AllSlots(h.desc[d].page, HomeOf(h, d))) - Members(h.slots[d])
  }

  lemma LessPart(s: set<nat>, t: set<nat>)
    requires s <= t
    ensures |t - s| == |t| - |s|
  {
    assert t == s + (t - s);
  }

  /** Bucket b without its k-th descriptor d, whose page goes back: d becomes the first spare one. */
  function Detached(h: Heap, b: nat, k: nat): Heap
    requires b < |h.bucket| && b < |h.chain| && k < |h.bucket[b]|
    requires forall i | 0 <= i < |h.bucket[b]| :: h.bucket[b][i] < |h.desc| && h.bucket[b][i] < |h.home|
  {
    var s := h.bucket[b];
    var d := s[k];
    var next := h.desc[d].next;
    var desc1 := if k > 0 then h.desc[s[k - 1] := h.desc[s[k - 1]].(next := next)] else h.desc;
    Heap(desc1[d := desc1[d].(next := h.freeDesc)],
         if k > 0 then h.chain else h.chain[b := next],
         d, h.mem, h.pool + {h.desc[d].page},
         h.bucket[b := s[..k] + s[k + 1..]], [d] + h.spare, h.slots, h.home[d := NIL])
  }

  ghost predicate Detachable(h: Heap, b: nat, k: nat) {
    && Inv(h) && b < BUCKETS && k < |h.bucket[b]|
    && (forall i | 0 <= i < |h.bucket[b]| :: h.bucket[b][i] < |h.desc| && h.bucket[b][i] < |h.home|)
    && h.desc[h.bucket[b][k]].refcnt == 0
  }

  lemma CutList(desc: seq<Desc>, desc': seq<Desc>, head: int, s: seq<nat>, k: nat)
    requires DescList(desc, head, s) && k < |s| && |desc'| == |desc| && s[k] < |desc|
    requires forall i | 0 <= i < |s| && i != k && i + 1 != k && s[i] < |desc| :: desc'[s[i]].next == desc[s[i]].next
    requires k > 0 && s[k - 1] < |desc| ==> desc'[s[k - 1]].next == desc[s[k]].next
    ensures DescList(desc', if k > 0 then head else desc[s[k]].next, s[..k] + s[k + 1..])
  {
    var t := s[..k] + s[k + 1..];
    assert LinkAt(desc, s, k);
    forall i | 0 <= i < |t|
      ensures LinkAt(desc', t, i)
    {
      var j := if i < k then i else i + 1;
      assert LinkAt(desc, s, j) && t[i] == s[j];
    }
  }

  lemma DetachHomes(h: Heap, b: nat, k: nat)
    requires Detachable(h, b, k)
    ensures Homes(Detached(h, b, k)) && HomeOf(h, h.bucket[b][k]) == b
  {
    var s, h' := h.bucket[b], Detached(h, b, k);
    var d := s[k];
    assert d in s && HomeOk(h, d) && s == s[..k] + [d] + s[k + 1..];
    forall e: nat | e < |h.desc|
      ensures HomeOk(h', e)
    {
      assert HomeOk(h, e);
      assert e in s[..k] + s[k + 1..] <==> e in s && e != d;
    }
  }

  lemma DetachLists(h: Heap, b: nat, k: nat)
    requires Detachable(h, b, k)
    ensures var h' := Detached(h, b, k);
      && (forall c | 0 <= c < BUCKETS :: DescList(h'.desc, h'.chain[c], h'.bucket[c]))
      && DescList(h'.desc, h'.freeDesc, h'.spare)
      && (forall e | 0 <= e < |h.desc| :: h'.desc[e] == h.desc[e].(next := h'.desc[e].next))
  {
    var s, h' := h.bucket[b], Detached(h, b, k);
    DetachHomes(h, b, k);
    assert forall i | 0 <= i < |s| :: s[i] in s;
    forall c | 0 <= c < BUCKETS
      ensures DescList(h'.desc, h'.chain[c], h'.bucket[c])
    {
      if c == b {
        CutList(h.desc, h'.desc, h.chain[b], s, k);
      } else {
        NotHere(h, b, c, h.bucket[c]);
        OtherList(h, b, k, h.chain[c], h.bucket[c]);
      }
    }
    NotHere(h, b, NIL, h.spare);
    OtherList(h, b, k, h.freeDesc, h.spare);
    ConsList(h'.desc, h.freeDesc, h.spare, s[k]);
  }

  lemma NotHere(h: Heap, b: nat, c: int, t: seq<nat>)
    requires Homes(h) && b < BUCKETS && c != b
    requires forall e | e in t && e < |h.desc| :: HomeOk(h, e) ==> HomeOf(h, e) == c
    ensures forall e | e in t && e < |h.desc| :: e !in h.bucket[b]
  {
    forall e | e in t && e < |h.desc|
      ensures e !in h.bucket[b]
    {
      assert HomeOk(h, e);
    }
  }

  /** A list that shares no descriptor with bucket b stays as it is. */
  lemma OtherList(h: Heap, b: nat, k: nat, head: int, t: seq<nat>)
    requires Detachable(h, b, k) && DescList(h.desc, head, t)
    requires forall e | e in t && e < |h.desc| :: e !in h.bucket[b]
    ensures DescList(Detached(h, b, k).desc, head, t)
  {
    var s := h.bucket[b];
    assert s[k] in s && (k > 0 ==> s[k - 1] in s);
    ListKept(h.desc, Detached(h, b, k).desc, head, t);
  }

  /** Giving a wholly free page back makes no object appear or vanish. */
  lemma DetachKeeps(h: Heap, b: nat, k: nat)
    requires Detachable(h, b, k)
    ensures Inv(Detached(h, b, k))
    ensures Stay(h, Detached(h, b, k), 0)
    ensures forall y: nat :: Live(Detached(h, b, k), y) <==> Live(h, y)
  {
    DetachLists(h, b, k);
    DetachHomes(h, b, k);
    var d, h' := h.bucket[b][k], Detached(h, b, k);
    assert d in h.bucket[b] && HomeOk(h, d) && DescOk(h, d, b);
    forall e: nat | e < |h.desc| && HomeOf(h', e) != NIL
      ensures DescOk(h', e, HomeOf(h', e))
    {
      assert DescOk(h, e, HomeOf(h, e));
    }
    forall e: nat, y: nat
      ensures LiveIn(h', e, y) == LiveIn(h, e, y)
    {
      if e == d && LiveIn(h, e, y) {
        RefcntCounts(h, d);
      }
    }
    assert forall y: nat :: Live(h', y) <==> Live(h, y);
  }

  // ----- more descriptors -----

  /** init_bucket_desc: a page of descriptors in front of the spare ones. */
  function MoreDescs(h: Heap, page: nat): Heap {
    var n := |h.desc|;
    h.(desc := h.desc + NewDescs(n, h.freeDesc), freeDesc := n, pool := h.pool - {page},
       spare := seq(DESCS_PER_PAGE, i => n + i) + h.spare,
       slots := h.slots + seq(DESCS_PER_PAGE, _ => []), home := h.home + seq(DESCS_PER_PAGE, _ => NIL))
  }

  function NewDescs(n: nat, last: int): seq<Desc> {
    seq(DESCS_PER_PAGE, i => Desc(0, if i + 1 < DESCS_PER_PAGE then n + i + 1 else last, 0, 0, 0))
  }

  lemma MoreKeeps(h: Heap, page: nat)
    requires Inv(h)
    ensures Inv(MoreDescs(h, page)) && MoreDescs(h, page).spare != []
    ensures Stay(h, MoreDescs(h, page), 0)
    ensures forall y: nat :: Live(MoreDescs(h, page), y) <==> Live(h, y)
    ensures forall e: nat :: HomeOf(MoreDescs(h, page), e) == HomeOf(h, e)
  {
    var n, h' := |h.desc|, MoreDescs(h, page);
    assert forall e: nat :: HomeOf(h', e) == HomeOf(h, e);
    MoreSpare(h, page);
    forall e: nat | e < |h'.desc|
      ensures HomeOk(h', e)
    {
      if e < n {
        assert HomeOk(h, e);
        assert e in h'.spare <==> e in h.spare;
      } else {
        assert h'.spare[e - n] == e;
        forall b | 0 <= b < BUCKETS
          ensures e !in h.bucket[b]
        {
          assert DescList(h.desc, h.chain[b], h.bucket[b]);
          InRange(h.desc, h.chain[b], h.bucket[b], e);
        }
      }
    }
    forall b | 0 <= b < BUCKETS
      ensures DescList(h'.desc, h'.chain[b], h'.bucket[b])
    {
      ListKept(h.desc, h'.desc, h.chain[b], h.bucket[b]);
    }
    forall e: nat | e < |h'.desc| && HomeOf(h', e) != NIL
      ensures DescOk(h', e, HomeOf(h', e))
    {
      assert DescOk(h, e, HomeOf(h, e));
    }
    forall e: nat, y: nat
      ensures LiveIn(h', e, y) == LiveIn(h, e, y)
    {
    }
    assert forall y: nat :: Live(h', y) <==> Live(h, y);
  }

  lemma InRange(desc: seq<Desc>, head: int, s: seq<nat>, e: nat)
    requires DescList(desc, head, s) && e >= |desc|
    ensures e !in s
  {
    forall i | 0 <= i < |s|
      ensures s[i] != e
    {
      assert LinkAt(desc, s, i);
    }
  }

  lemma MoreSpare(h: Heap, page: nat)
    requires Inv(h)
    ensures DescList(MoreDescs(h, page).desc, MoreDescs(h, page).freeDesc, MoreDescs(h, page).spare)
  {
    var n, h' := |h.desc|, MoreDescs(h, page);
    var s := h'.spare;
    forall i | 0 <= i < |s|
      ensures LinkAt(h'.desc, s, i)
    {
      if i < DESCS_PER_PAGE {
        assert s[i] == n + i;
      } else {
        assert LinkAt(h.desc, h.spare, i - DESCS_PER_PAGE);
        assert s[i] == h.spare[i - DESCS_PER_PAGE];
      }
    }
    forall i, j | 0 <= i < j < |s|
      ensures s[i] != s[j]
    {
      if j >= DESCS_PER_PAGE {
        assert LinkAt(h.desc, h.spare, j - DESCS_PER_PAGE);
        if i >= DESCS_PER_PAGE {
          assert h.spare[i - DESCS_PER_PAGE] != h.spare[j - DESCS_PER_PAGE];
        }
      }
    }
  }
}
