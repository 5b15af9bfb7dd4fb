/** Any run of malloc, free_s and stores by the owners: objects never overlap, and a word that was
    stored in an object stays there until it is overwritten or the object is freed. */
module MallocRuns {
  import opened MallocState
  import opened MallocKernel

  const WORD := 4

  datatype Call = Alloc(len: nat) | Free(obj: nat) | Store(obj: nat, word: nat, value: nat)

  /** What the callers know: the requested length of each object, and the words stored in them. */
  datatype Ledger = Ledger(objs: map<nat, nat>, words: map<nat, nat>)

  ghost predicate Fits(h: Heap, a: nat, len: nat) {
    exists d: nat :: LiveIn(h, d, a) && len <= h.desc[d].size
  }

  /** Address x lies in the part of object a that was asked for. */
  predicate Within(objs: map<nat, nat>, a: nat, x: nat) {
    a in objs && a <= x < a + objs[a]
  }

  ghost predicate Tracked(h: Heap, g: Ledger) {
    Known(h, g.objs) && WordsOk(h.mem, g)
  }

  ghost predicate Known(h: Heap, objs: map<nat, nat>) {
    && (forall a: nat :: a in objs <==> Live(h, a))
    && (forall a | a in objs :: Fits(h, a, objs[a]))
  }

  ghost predicate WordsOk(mem: map<nat, nat>, g: Ledger) {
    forall x | x in g.words :: WordOk(mem, g, x)
  }

  /** What was stored at x is there, in an object that is still handed out. */
  ghost predicate WordOk(mem: map<nat, nat>, g: Ledger, x: nat)
    requires x in g.words
  {
    Owned(g.objs, x) && x in mem && mem[x] == g.words[x]
  }

  ghost predicate Owned(objs: map<nat, nat>, x: nat) {
    exists a: nat :: Within(objs, a, x)
  }

  predicate Apart(objs: map<nat, nat>, a: nat, b: nat)
    requires a in objs && b in objs
  {
    a == b || a + objs[a] <= b || b + objs[b] <= a
  }

  lemma NoOverlap(h: Heap, g: Ledger, a: nat, b: nat)
    requires Inv(h) && Tracked(h, g) && a in g.objs && b in g.objs
    ensures Apart(g.objs, a, b)
  {
    var d: nat :| LiveIn(h, d, a) && g.objs[a] <= h.desc[d].size;
    var e: nat :| LiveIn(h, e, b) && g.objs[b] <= h.desc[e].size;
    if a < b {
      LiveApart(h, d, a, e, b);
    } else if b < a {
      LiveApart(h, e, b, d, a);
    }
  }

  /** After a call that left every object but `gone` in place. */
  lemma StillFits(h: Heap, h': Heap, objs: map<nat, nat>, gone: nat)
    requires Known(h, objs) && Stay(h, h', gone)
    ensures forall a | a in objs && a != gone :: Fits(h', a, objs[a])
  {
    forall a | a in objs && a != gone
      ensures Fits(h', a, objs[a])
    {
      var d: nat :| LiveIn(h, d, a) && objs[a] <= h.desc[d].size;
    }
  }

  function Without(g: Ledger, obj: nat): Ledger {
    Ledger(g.objs - {obj}, map x | x in g.words && !Within(g.objs, obj, x) :: g.words[x])
  }

  /** The word-th word of obj is one of its owner's. */
  predicate Holds(g: Ledger, obj: nat, word: nat) {
    obj in g.objs && WORD * (word + 1) <= g.objs[obj]
  }

  function WithWord(g: Ledger, x: nat, v: nat): Ledger {
    g.(words := g.words[x := v])
  }

  /** What is known after a call whose answer was r: a new object's address. */
  function LedgerAfter(g: Ledger, c: Call, r: nat): Ledger {
    match c
    case Alloc(len) => g.(objs := g.objs[r := len])
    case Free(obj) => Without(g, obj)
    case Store(obj, word, value) =>
      if Holds(g, obj, word) then WithWord(g, obj + WORD * word, value) else g
  }

  function LedgerOf(calls: seq<Call>, answers: seq<nat>): Ledger
    requires |calls| == |answers|
  {
    if calls == [] then Ledger(map[], map[])
    else
      var n := |calls| - 1;
      LedgerAfter(LedgerOf(calls[..n], answers[..n]), calls[n], answers[n])
  }

  /** The call ends the run: a panic of malloc, or the freeing of an address that is not handed out. */
  ghost predicate Ends(h: Heap, g: Ledger, c: Call) {
    match c
    case Alloc(len) => Refused(h, len)
    case Free(obj) => obj !in g.objs
    case Store(_, _, _) => false
  }

  // ----- one call -----

  /** The words of live objects, but for the first of `gone`, are as they were. */
  ghost predicate WordsKept(h: Heap, h': Heap, gone: nat) {
    forall x: nat | Covered(h, x) && x != gone && x in h.mem :: x in h'.mem && h'.mem[x] == h.mem[x]
  }

  /** malloc gave r. */
  ghost predicate Gave(h: Heap, len: nat, r: nat, h': Heap) {
    && r != 0 && !Live(h, r) && ObjectFits(h', r, len) && (forall y: nat :: Live(h', y) <==> Live(h, y) || y == r)
    && Stay(h, h', 0) && WordsKept(h, h', 0)
    && h'.pool <= h.pool && |h'.pool| == |h.pool| - PagesTaken(h, len) && |h'.desc| == |h.desc| + DescsAdded(h, len)
  }

  /** free_s took obj. */
  ghost predicate Took(h: Heap, obj: nat, h': Heap) {
    && Live(h, obj) && (forall y: nat :: Live(h', y) <==> Live(h, y) && y != obj)
    && Stay(h, h', obj) && WordsKept(h, h', obj)
    && h'.pool == (if LastOnPage(h, obj) then h.pool + {obj / PAGE_SIZE} else h.pool) && |h'.desc| == |h.desc|
  }

  /** The heap from one call to the next. With the live objects, the pool and the number of descriptors
      it is settled which sizes have a free slot, and what a new bucket takes. */
  ghost predicate StepIs(h: Heap, g: Ledger, c: Call, r: nat, h': Heap) {
    && !Ends(h, g, c) && Inv(h') && Busy(h') && 0 !in h'.pool
    && match c
       case Alloc(len) => Gave(h, len, r, h')
       case Free(obj) => Took(h, obj, h')
       case Store(obj, word, value) => h' == h.(mem := if Holds(g, obj, word) then h.mem[obj + WORD * word := value] else h.mem)
  }

  /** One call. A call that ends the run changes nothing, unless malloc has panicked in the middle. */
  method DoCall(m: Allocator, c: Call, g: Ledger) returns (ok: bool, r: nat, g': Ledger)
    requires m.Valid() && Tracked(m.h, g)
    modifies m, m.chain
    ensures ok <==> !Ends(old(m.h), g, c)
    ensures ok ==> m.Valid() && Tracked(m.h, g') && g' == LedgerAfter(g, c, r) && (c.Alloc? ==> r !in g.objs)
    ensures ok ==> StepIs(old(m.h), g, c, r, m.h)
    ensures !ok && !c.Alloc? ==> m.Valid() && m.h == old(m.h)
  {
    ok, r, g' := true, 0, g;
    match c
    case Alloc(len) =>
      r, g' := DoAlloc(m, len, g);
      return r != 0, r, g';
    case Free(obj) =>
      ok := obj in g.objs;
      if ok {
        g' := DoFree(m, obj, g);
        return;
      }
    case Store(obj, word, value) =>
      g' := DoStore(m, obj, word, value, g);
  }

  method DoAlloc(m: Allocator, len: nat, g: Ledger) returns (r: nat, g': Ledger)
    requires m.Valid() && Tracked(m.h, g)
    modifies m, m.chain
    ensures r == 0 <==> Refused(old(m.h), len)
    ensures r != 0 ==> m.Valid() && Tracked(m.h, g') && g' == LedgerAfter(g, Alloc(len), r) && r !in g.objs
    ensures r != 0 ==> Gave(old(m.h), len, r, m.h)
  {
    ghost var h0 := m.h;
    r := m.Malloc(len);
    g' := g.(objs := g.objs[r := len]);
    if r != 0 {
      NotZero(h0);
      WordsStay(h0, m.h.mem, g);
      AllocTracked(h0, m.h, g, r, len);
    }
  }

  lemma AllocTracked(h: Heap, h': Heap, g: Ledger, r: nat, len: nat)
    requires Tracked(h, g) && 0 !in g.objs && Stay(h, h', 0) && Fits(h', r, len) && r !in g.objs
    requires forall y: nat :: Live(h', y) <==> Live(h, y) || y == r
    requires forall x | x in g.words :: x in h'.mem && h'.mem[x] == g.words[x]
    ensures Tracked(h', g.(objs := g.objs[r := len]))
  {
    KnownGiven(h, h', g.objs, r, len);
    OwnersStay(h.mem, h'.mem, g, g.(objs := g.objs[r := len]));
  }

  lemma KnownGiven(h: Heap, h': Heap, objs: map<nat, nat>, r: nat, len: nat)
    requires Known(h, objs) && 0 !in objs && Stay(h, h', 0) && Fits(h', r, len)
    requires forall y: nat :: Live(h', y) <==> Live(h, y) || y == r
    ensures Known(h', objs[r := len])
  {
    StillFits(h, h', objs, 0);
  }

  lemma OwnersStay(mem: map<nat, nat>, mem': map<nat, nat>, g: Ledger, g': Ledger)
    requires WordsOk(mem, g) && g'.words.Keys <= g.words.Keys
    requires forall x | x in g'.words :: x in mem' && mem'[x] == g'.words[x] == g.words[x]
    requires forall a: nat, x | x in g'.words && Within(g.objs, a, x) :: Within(g'.objs, a, x)
    ensures WordsOk(mem', g')
  {
    forall x | x in g'.words
      ensures WordOk(mem', g', x)
    {
      assert WordOk(mem, g, x);
      var a: nat :| Within(g.objs, a, x);
      assert Within(g'.objs, a, x);
    }
  }

  /** Words that a call leaves alone inside live objects are words of the ledger. */
  lemma WordsStay(h: Heap, mem': map<nat, nat>, g: Ledger)
    requires Tracked(h, g)
    requires forall x: nat | Covered(h, x) && x in h.mem :: x in mem' && mem'[x] == h.mem[x]
    ensures forall x | x in g.words :: x in mem' && mem'[x] == g.words[x]
  {
    forall x | x in g.words
      ensures x in mem' && mem'[x] == g.words[x]
    {
      assert WordOk(h.mem, g, x);
      var a: nat :| Within(g.objs, a, x);
      InCovered(h, g, a, x);
    }
  }

  lemma NotZero(h: Heap)
    requires Inv(h)
    ensures !Live(h, 0)
  {
    forall d: nat
      ensures !LiveIn(h, d, 0)
    {
      if LiveIn(h, d, 0) {
        ZeroIsNoSlot(h, d);
      }
    }
  }

  lemma ZeroIsNoSlot(h: Heap, d: nat)
    requires Inv(h) && d < |h.desc| && HomeOf(h, d) != NIL
    ensures !SlotOf(h.desc[d], 0)
  {
    assert DescOk(h, d, HomeOf(h, d));
  }

  lemma InCovered(h: Heap, g: Ledger, a: nat, x: nat)
    requires Tracked(h, g) && Within(g.objs, a, x)
    ensures Covered(h, x)
  {
    assert Fits(h, a, g.objs[a]);
  }

  method DoFree(m: Allocator, obj: nat, g: Ledger) returns (g': Ledger)
    requires m.Valid() && Tracked(m.h, g) && obj in g.objs
    modifies m, m.chain
    ensures m.Valid() && Tracked(m.h, g') && g' == Without(g, obj) && Took(old(m.h), obj, m.h)
  {
    ghost var h0 := m.h;
    assert Fits(h0, obj, g.objs[obj]);
    var found := m.FreeS(obj, g.objs[obj]);
    g' := Without(g, obj);
    WordsElsewhere(h0, g, obj);
    WordsStay(h0, m.h.mem[obj := if obj in h0.mem then h0.mem[obj] else 0], g);
    FreeTracked(h0, m.h, g, obj);
  }

  lemma FreeTracked(h: Heap, h': Heap, g: Ledger, obj: nat)
    requires Tracked(h, g) && Stay(h, h', obj) && obj in g.objs
    requires forall y: nat :: Live(h', y) <==> Live(h, y) && y != obj
    requires forall x | x in g.words && x != obj :: x in h'.mem && h'.mem[x] == g.words[x]
    requires forall x | x in g.words && !Within(g.objs, obj, x) :: x != obj
    ensures Tracked(h', Without(g, obj))
  {
    KnownFreed(h, h', g.objs, obj);
    OwnersStay(h.mem, h'.mem, g, Without(g, obj));
  }

  lemma KnownFreed(h: Heap, h': Heap, objs: map<nat, nat>, obj: nat)
    requires Known(h, objs) && Stay(h, h', obj)
    requires forall y: nat :: Live(h', y) <==> Live(h, y) && y != obj
    ensures Known(h', objs - {obj})
  {
    StillFits(h, h', objs, obj);
  }

  /** A word of another object is not the first one of obj, even if obj has length 0. */
  lemma WordsElsewhere(h: Heap, g: Ledger, obj: nat)
    requires Inv(h) && Tracked(h, g) && obj in g.objs
    ensures forall x | x in g.words && !Within(g.objs, obj, x) :: x != obj
  {
    forall x | x in g.words && !Within(g.objs, obj, x)
      ensures x != obj
    {
      assert WordOk(h.mem, g, x);
      var a: nat :| Within(g.objs, a, x);
      NotAt(h, g, obj, a, x);
    }
  }

  lemma NotAt(h: Heap, g: Ledger, obj: nat, a: nat, x: nat)
    requires Inv(h) && Tracked(h, g) && obj in g.objs && Within(g.objs, a, x) && a != obj
    ensures x != obj
  {
    var d: nat :| LiveIn(h, d, a) && g.objs[a] <= h.desc[d].size;
    var e: nat :| LiveIn(h, e, obj) && g.objs[obj] <= h.desc[e].size;
    if a < obj {
      LiveApart(h, d, a, e, obj);
    }
  }

  /** A store outside the caller's object is none of malloc's business and passed over. */
  method DoStore(m: Allocator, obj: nat, word: nat, v: nat, g: Ledger) returns (g': Ledger)
    requires m.Valid() && Tracked(m.h, g)
    modifies m`mem, m`h
    ensures m.Valid() && Tracked(m.h, g') && g' == LedgerAfter(g, Store(obj, word, v), 0)
    ensures StepIs(old(m.h), g, Store(obj, word, v), 0, m.h)
  {
    g' := LedgerAfter(g, Store(obj, word, v), 0);
    StoredTo(g, obj, word, v);
    ghost var h0 := m.h;
    if Holds(g, obj, word) {
      StoreAt(m, obj, obj + WORD * word, v, g, g');
    }
    StoreIs(h0, g, obj, word, v, m.h);
  }

  lemma StoreIs(h: Heap, g: Ledger, obj: nat, word: nat, v: nat, h': Heap)
    requires Inv(h') && Busy(h') && 0 !in h'.pool
    requires h' == if Holds(g, obj, word) then h.(mem := h.mem[obj + WORD * word := v]) else h
    ensures StepIs(h, g, Store(obj, word, v), 0, h')
  {
  }

  lemma StoredTo(g: Ledger, obj: nat, word: nat, v: nat)
    ensures var g' := LedgerAfter(g, Store(obj, word, v), 0);
      if Holds(g, obj, word) then
        Within(g.objs, obj, obj + WORD * word) && g' == WithWord(g, obj + WORD * word, v)
      else g' == g
  {
  }

  method StoreAt(m: Allocator, obj: nat, x: nat, v: nat, ghost g: Ledger, ghost g': Ledger)
    requires m.Valid() && Tracked(m.h, g) && Within(g.objs, obj, x) && g' == WithWord(g, x, v)
    modifies m`mem, m`h
    ensures m.Valid() && Tracked(m.h, g') && m.h == old(m.h).(mem := old(m.h).mem[x := v])
  {
    ghost var h0 := m.h;
    assert Fits(h0, obj, g.objs[obj]);
    m.UserStore(obj, x, v);
    NotZero(h0);
    StoreTracked(h0, m.h, g, obj, x, v);
  }

  lemma StoreTracked(h: Heap, h': Heap, g: Ledger, obj: nat, x: nat, v: nat)
    requires Tracked(h, g) && 0 !in g.objs && Stay(h, h', 0) && Within(g.objs, obj, x)
    requires h'.mem == h.mem[x := v] && forall y: nat :: Live(h', y) <==> Live(h, y)
    ensures Tracked(h', WithWord(g, x, v))
  {
    StillFits(h, h', g.objs, 0);
    StoreWords(h.mem, g, obj, x, v);
  }

  lemma StoreWords(mem: map<nat, nat>, g: Ledger, obj: nat, x: nat, v: nat)
    requires WordsOk(mem, g) && Within(g.objs, obj, x)
    ensures WordsOk(mem[x := v], WithWord(g, x, v))
  {
    forall y | y in g.words
      ensures Owned(g.objs, y)
    {
      assert WordOk(mem, g, y);
    }
  }

  lemma LedgerMore(calls: seq<Call>, answers: seq<nat>, r: nat)
    requires |answers| < |calls|
    ensures LedgerOf(calls[..|answers| + 1], answers + [r]) == LedgerAfter(LedgerOf(calls[..|answers|], answers), calls[|answers|], r)
  {
    assert calls[..|answers| + 1][..|answers|] == calls[..|answers|];
    assert (answers + [r])[..|answers|] == answers;
  }

  /** The heaps of a run: from the first on, each is what the call made of the one before. */
  ghost predicate History(hs: seq<Heap>, calls: seq<Call>, answers: seq<nat>) {
    && |hs| == |answers| + 1 && |answers| <= |calls|
    && forall i | 0 <= i < |answers| :: StepAt(hs, calls, answers, i)
  }

  ghost predicate StepAt(hs: seq<Heap>, calls: seq<Call>, answers: seq<nat>, i: nat)
    requires i < |answers| <= |calls| && |hs| == |answers| + 1
  {
    StepIs(hs[i], LedgerOf(calls[..i], answers[..i]), calls[i], answers[i], hs[i + 1])
  }

  lemma HistoryMore(hs: seq<Heap>, calls: seq<Call>, answers: seq<nat>, h: Heap, r: nat)
    requires History(hs, calls, answers) && |answers| < |calls|
    requires StepIs(hs[|answers|], LedgerOf(calls[..|answers|], answers), calls[|answers|], r, h)
    ensures History(hs + [h], calls, answers + [r])
  {
    var n, hs', answers' := |answers|, hs + [h], answers + [r];
    forall i | 0 <= i < n + 1
      ensures StepAt(hs', calls, answers', i)
    {
      assert answers'[..i] == answers[..i] && hs'[i] == hs[i];
      if i < n {
        assert StepAt(hs, calls, answers, i);
      } else {
        assert answers[..n] == answers;
      }
    }
  }

  /** From an allocator with nothing handed out, through any sequence of calls. Each call changes the heap
      and answers as `StepIs` says; the ledger is that of the calls and their answers: every object has
      the length that was asked for, the objects are apart, and each word that was stored in one is
      there. The run stops early exactly at the first call that ends it. */
  method Execute(m: Allocator, calls: seq<Call>) returns (answers: seq<nat>, g: Ledger, ghost hs: seq<Heap>)
    requires m.Valid() && forall y: nat :: !Live(m.h, y)
    modifies m, m.chain
    ensures History(hs, calls, answers) && hs[0] == old(m.h) && g == LedgerOf(calls[..|answers|], answers)
    ensures var h := hs[|answers|];
      && Inv(h) && Tracked(h, g) && (forall a, b | a in g.objs && b in g.objs :: Apart(g.objs, a, b))
      && (|answers| < |calls| ==> Ends(h, g, calls[|answers|]))
      && (|answers| == |calls| || !calls[|answers|].Alloc? ==> m.Valid() && m.h == h)
  {
    answers, g, hs := [], Ledger(map[], map[]), [m.h];
    var ok := true;
    while |answers| < |calls| && ok
      invariant History(hs, calls, answers) && hs[0] == old(m.h) && g == LedgerOf(calls[..|answers|], answers)
      invariant Inv(hs[|answers|]) && Tracked(hs[|answers|], g)
      invariant ok || (|answers| < |calls| && !calls[|answers|].Alloc?) ==> m.Valid() && m.h == hs[|answers|]
      invariant !ok ==> |answers| < |calls| && Ends(hs[|answers|], g, calls[|answers|])
      decreases |calls| - |answers|, ok
    {
      var r, g';
      ok, r, g' := DoCall(m, calls[|answers|], g);
      if ok {
        LedgerMore(calls, answers, r);
        HistoryMore(hs, calls, answers, m.h, r);
        answers, g, hs := answers + [r], g', hs + [m.h];
      }
    }
    AllApart(hs[|answers|], g);
  }

  lemma AllApart(h: Heap, g: Ledger)
    requires Inv(h) && Tracked(h, g)
    ensures forall a, b | a in g.objs && b in g.objs :: Apart(g.objs, a, b)
  {
    forall a, b | a in g.objs && b in g.objs
      ensures Apart(g.objs, a, b)
    {
      NoOverlap(h, g, a, b);
    }
  }
}
