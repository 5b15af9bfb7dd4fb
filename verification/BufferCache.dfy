/** getblk of fs/buffer.c and what it calls. A task may sleep in the middle; meanwhile other tasks
    and interrupts run. What they do is an arbitrary script, each act done only where the kernel's
    code does it, so every theorem here holds for every interleaving. */
module BufferCache {
  import opened Sequences
  import opened BufferQueues

  /** A step on buffer b, of this task, of another one, or of a disk interrupt. */
  datatype Act =
    | Hold(b: nat)                            // get_hash_table found it: one more user
    | Drop(b: nat)                            // brelse: one user less
    | Ask(b: nat, cmd: Cmd)                   // make_request: locked, until there is a request slot
    | GiveUp(b: nat)                          // there is none, and it was only read ahead: unlocked
    | Start(b: nat)                           // add_request: in the queue of the device, no longer dirty
    | Finish(b: nat, ok: bool)                // the interrupt's end_request: unlocked
    | Dirty(b: nat, whole: bool)              // a user changed the data, or all of them
    | Forget(b: nat)                          // free_block, by the only user
    | Invalidate(b: nat)                      // invalidate_buffers
    | Claim(b: nat, dev: nat, block: nat)     // getblk takes an unused buffer
    | Full                                    // no request slot is free when this task wants one
    | Wake                                    // this task runs again

  /** A step and whether it is this task's own. */
  datatype Entry = Entry(own: bool, act: Act)

  /** At most one buffer for a device and block. */
  ghost predicate Unique(bufs: seq<Buf>) {
    forall b, c | 0 <= b < |bufs| && 0 <= c < |bufs| && bufs[b].dev != 0
      && bufs[b].dev == bufs[c].dev && bufs[b].block == bufs[c].block :: b == c
  }

  predicate Has(bufs: seq<Buf>, b: nat, dev: nat, block: nat) {
    b < |bufs| && bufs[b].dev == dev && bufs[b].block == block
  }

  ghost predicate Cached(bufs: seq<Buf>, dev: nat, block: nat) {
    exists b :: Has(bufs, b, dev, block)
  }

  predicate SameBlock(x: Buf, y: Buf) {
    y.dev == x.dev && y.block == x.block
  }

  /** Before it was claimed for (dev, block), buffer b was unused, unlocked and clean, and no buffer
      had that identity. */
  ghost predicate TakenOver(bufs: seq<Buf>, b: nat, dev: nat, block: nat) {
    b < |bufs| && bufs[b].count == 0 && !bufs[b].lock && !bufs[b].dirt && !Cached(bufs, dev, block)
  }

  /** Count and flags of a buffer after a step on it, which is done only where the code does it: with a
      reference of one's own, and after the waits for the lock. */
  function Acted(buf: Buf, a: Act, own: bool): (r: Buf)
    ensures r == buf.(count := r.count, lock := r.lock, dirt := r.dirt, uptodate := r.uptodate, own := r.own, io := r.io)
  {
    var others := if own then 0 else buf.own;
    match a
    case Hold(_) =>
      if buf.dev != 0 then buf.(count := buf.count + 1, own := buf.own + if own then 1 else 0) else buf
    case Drop(_) =>
      if !buf.lock && buf.count > others
      then buf.(count := buf.count - 1, own := if own && buf.own > 0 then buf.own - 1 else buf.own) else buf
    case Ask(_, cmd) =>
      if !buf.lock && (if cmd.Write? then buf.dirt else buf.count > 0 && !buf.uptodate)
      then buf.(lock := true, io := Asked(cmd, own)) else buf
    case GiveUp(_) =>
      if buf.io.Asked? && buf.io.own == own then buf.(lock := false, io := Idle) else buf
    case Start(_) =>
      if buf.io.Asked? && buf.io.own == own then buf.(dirt := false, io := Queued(buf.io.cmd)) else buf
    case Finish(_, ok) =>
      if buf.io.Queued? && !own then buf.(lock := false, uptodate := ok, io := Idle) else buf
    case Dirty(_, whole) =>
      if buf.count > others then buf.(dirt := true, uptodate := buf.uptodate || (whole && !buf.lock)) else buf
    case Forget(_) =>
      if !buf.lock && buf.count == 1 && buf.count > others then buf.(dirt := false, uptodate := false) else buf
    case Invalidate(_) =>
      if !buf.lock then buf.(uptodate := false, dirt := false) else buf
    case _ => buf
  }

  /** The buffer that a step is on, if it is a step on a buffer. */
  predicate OnBuffer(a: Act, n: nat) {
    !a.Full? && !a.Wake? && a.b < n
  }

  /** The buffers after a step, but for the links. */
  ghost function Next(bufs: seq<Buf>, e: Entry): seq<Buf> {
    if !OnBuffer(e.act, |bufs|) then bufs
    else if !e.act.Claim? then bufs[e.act.b := Acted(bufs[e.act.b], e.act, e.own)]
    else if e.act.dev == 0 || !TakenOver(bufs, e.act.b, e.act.dev, e.act.block) then bufs
    else bufs[e.act.b := Claimed(bufs[e.act.b], e.act.dev, e.act.block, e.own)]
  }

  function Claimed(buf: Buf, dev: nat, block: nat, own: bool): Buf {
    buf.(dev := dev, block := block, count := 1, dirt := false, uptodate := false, own := if own then 1 else 0)
  }

  /** This task's steps for a buffer that is a dirty one of the device. */
  function WriteSteps(bufs: seq<Buf>, i: nat, dev: nat): seq<Entry> {
    if CleanAt(bufs, i, dev) then [] else [Entry(true, Ask(i, Write)), Entry(true, Start(i))]
  }

  /** The end of a request: the buffer is unlocked, and up to date if the transfer was right. What was written to
      it meanwhile stays unwritten. */
  lemma FinishedIs(bufs: seq<Buf>, b: nat, ok: bool)
    requires b < |bufs| && bufs[b].io.Queued?
    ensures Next(bufs, Entry(false, Finish(b, ok))) == bufs[b := bufs[b].(lock := false, uptodate := ok, io := Idle)]
  {
  }

  lemma AskedIs(bufs: seq<Buf>, i: nat)
    requires i < |bufs| && !bufs[i].lock && bufs[i].dirt
    ensures Next(bufs, Entry(true, Ask(i, Write))) == bufs[i := bufs[i].(lock := true, io := Asked(Write, true))]
  {
  }

  lemma StartedIs(bufs: seq<Buf>, i: nat)
    requires i < |bufs| && bufs[i].io == Asked(Write, true)
    ensures Next(bufs, Entry(true, Start(i))) == bufs[i := bufs[i].(dirt := false, io := Queued(Write))]
  {
  }

  /** What holds of a buffer at every moment. */
  predicate FineAt(x: Buf) {
    && x.own <= x.count && (x.lock <==> !x.io.Idle?)
    && (x.io.Asked? ==> if x.io.cmd.Write? then x.dirt else !x.uptodate)
  }

  ghost predicate Fine(bufs: seq<Buf>) {
    Unique(bufs) && forall b | 0 <= b < |bufs| :: FineAt(bufs[b])
  }

  ghost predicate StepAt(trace: seq<seq<Buf>>, log: seq<Entry>, i: nat)
    requires |trace| == |log| + 1 && i < |log|
  {
    SameButLinks(Next(trace[i], log[i]), trace[i + 1])
  }

  /** A history of the cache: every state follows from the one before it by the next step of the log. */
  ghost predicate History(trace: seq<seq<Buf>>, log: seq<Entry>) {
    && |trace| == |log| + 1
    && (forall i | 0 <= i < |trace| :: Fine(trace[i]))
    && (forall i: nat | i < |log| :: StepAt(trace, log, i))
  }

  /** The steps of the others among the first n, in their order. */
  function Others(log: seq<Entry>, n: nat): seq<Act>
    requires n <= |log|
  {
    if n == 0 then []
    else if log[n - 1].own then Others(log, n - 1)
    else Others(log, n - 1) + [log[n - 1].act]
  }

  lemma {:induction false} OthersKept(log: seq<Entry>, more: seq<Entry>, n: nat)
    requires log <= more && n <= |log|
    ensures Others(more, n) == Others(log, n)
  {
    if n == 0 {
    } else {
      OthersKept(log, more, n - 1);
    }
  }

  lemma TurnTaken(done: seq<Act>, script: seq<Act>)
    requires script != []
    ensures (done + [script[0]]) + script[1..] == done + script
  {
  }

  /** Before anything has happened. */
  lemma FirstHistory(bufs: seq<Buf>)
    requires forall b | 0 <= b < |bufs| :: bufs[b].dev == 0 && bufs[b].own == 0 && !bufs[b].lock && bufs[b].io == Idle
    ensures History([bufs], [])
  {
  }

  /** From a moment on, all steps were those of others. */
  predicate NoOwn(log: seq<Entry>, from: nat) {
    forall i | from <= i < |log| :: !log[i].own
  }

  /** Or this task only wrote buffers. */
  predicate OnlyWrites(log: seq<Entry>, from: nat) {
    forall i | from <= i < |log| && log[i].own :: Writing(log[i].act)
  }

  predicate Writing(a: Act) {
    a.Start? || (a.Ask? && a.cmd.Write?)
  }

  /** Only counts and flags differ. */
  ghost predicate FlagsOnly(bufs: seq<Buf>, bufs': seq<Buf>) {
    && |bufs'| == |bufs|
    && forall b | 0 <= b < |bufs| ::
         bufs'[b] == bufs[b].(uptodate := bufs'[b].uptodate, dirt := bufs'[b].dirt, count := bufs'[b].count,
                              lock := bufs'[b].lock, own := bufs'[b].own, io := bufs'[b].io)
  }

  lemma FlagsKeepRing(bufs: seq<Buf>, bufs': seq<Buf>, head: int, s: seq<nat>)
    requires FlagsOnly(bufs, bufs') && Ring(bufs, head, s)
    ensures Ring(bufs', head, s)
  {
    forall i | 0 <= i < |s|
      ensures RingAt(bufs', s, i)
    {
      assert RingAt(bufs, s, i);
    }
  }

  lemma FlagsKeepChains(bufs: seq<Buf>, bufs': seq<Buf>, hash: seq<int>, chain: seq<seq<nat>>)
    requires FlagsOnly(bufs, bufs') && Chains(bufs, hash, chain, NULL)
    ensures Chains(bufs', hash, chain, NULL)
  {
    forall h | 0 <= h < NR_HASH
      ensures Chain(bufs', hash[h], chain[h])
    {
      assert Chain(bufs, hash[h], chain[h]);
      ChainKept(bufs, bufs', hash[h], chain[h]);
    }
  }

  /** BADNESS: prefer clean to dirty, unlocked to locked. */
  function Badness(b: Buf): nat {
    (if b.dirt then 2 else 0) + (if b.lock then 1 else 0)
  }

  /** A dirty buffer is worse than any clean one; otherwise a locked one is worse. */
  lemma BadnessIs(a: Buf, b: Buf)
    ensures Badness(a) < Badness(b) <==> (!a.dirt && b.dirt) || (a.dirt == b.dirt && !a.lock && b.lock)
  {
  }

  /** Buffer b, unlocked and in use, has one user less; nothing else differs. */
  predicate Released(bufs: seq<Buf>, bufs': seq<Buf>, b: nat)
    requires b < |bufs|
  {
    && bufs[b].count > 0 && !bufs[b].lock
    && bufs' == bufs[b := bufs[b].(count := bufs[b].count - 1, own := if bufs[b].own > 0 then bufs[b].own - 1 else 0)]
  }

  lemma DroppedIs(bufs: seq<Buf>, b: nat)
    requires b < |bufs| && bufs[b].count > 0 && !bufs[b].lock
    ensures Released(bufs, Next(bufs, Entry(true, Drop(b))), b)
  {
  }

  /** The device has no unwritten data in buffer i. */
  predicate CleanAt(bufs: seq<Buf>, i: nat, dev: nat) {
    i < |bufs| && !(bufs[i].dev == dev && bufs[i].dirt)
  }

  /** At some moment, from `start` on, buffer i was without unwritten data of the device. */
  ghost predicate CleanedSince(trace: seq<seq<Buf>>, start: nat, i: nat, dev: nat) {
    exists n :: start <= n < |trace| && CleanAt(trace[n], i, dev)
  }

  ghost predicate AllCleaned(trace: seq<seq<Buf>>, start: nat, k: nat, dev: nat) {
    forall i: nat | i < k :: CleanedSince(trace, start, i, dev)
  }

  lemma OneMoreCleaned(trace: seq<seq<Buf>>, more: seq<seq<Buf>>, start: nat, k: nat, dev: nat)
    requires AllCleaned(trace, start, k, dev) && trace <= more && start < |more| && CleanAt(more[|more| - 1], k, dev)
    ensures AllCleaned(more, start, k + 1, dev)
  {
    forall i: nat | i < k
      ensures CleanedSince(more, start, i, dev)
    {
      assert CleanedSince(trace, start, i, dev);
      var n :| start <= n < |trace| && CleanAt(trace[n], i, dev);
      assert more[n] == trace[n];
    }
  }

  /** Only queue links differ. */
  ghost predicate SameButLinks(bufs: seq<Buf>, bufs': seq<Buf>) {
    && |bufs'| == |bufs|
    && forall b | 0 <= b < |bufs| ::
         bufs'[b] == bufs[b].(next := bufs'[b].next, prev := bufs'[b].prev,
                              nextFree := bufs'[b].nextFree, prevFree := bufs'[b].prevFree)
  }

  lemma RenamedIs(b0: seq<Buf>, b1: seq<Buf>, b2: seq<Buf>, b3: seq<Buf>, x: nat, dev: nat, block: nat)
    requires x < |b0| && SameButLinks(b0, b1) && b2 == b1[x := b1[x].(dev := dev, block := block)] && SameButLinks(b2, b3)
    ensures SameButLinks(b0[x := b0[x].(dev := dev, block := block)], b3)
  {
  }

  lemma HashKeepsRing(bufs: seq<Buf>, bufs': seq<Buf>, head: int, s: seq<nat>)
    requires SameButHash(bufs, bufs') && Ring(bufs, head, s)
    ensures Ring(bufs', head, s)
  {
    forall i | 0 <= i < |s|
      ensures RingAt(bufs', s, i)
    {
      assert RingAt(bufs, s, i);
    }
  }

  lemma FreeKeepsChains(bufs: seq<Buf>, bufs': seq<Buf>, hash: seq<int>, chain: seq<seq<nat>>, out: int)
    requires SameButFree(bufs, bufs') && Chains(bufs, hash, chain, out)
    ensures Chains(bufs', hash, chain, out)
  {
    forall h | 0 <= h < NR_HASH
      ensures Chain(bufs', hash[h], chain[h])
    {
      assert Chain(bufs, hash[h], chain[h]);
      ChainKept(bufs, bufs', hash[h], chain[h]);
    }
  }

  /** Buffer b is used as before: same identity, count and flags. */
  predicate SameUse(bufs: seq<Buf>, bufs': seq<Buf>, b: nat) {
    b < |bufs| && b < |bufs'| &&
    bufs'[b] == bufs[b].(next := bufs'[b].next, prev := bufs'[b].prev, nextFree := bufs'[b].nextFree, prevFree := bufs'[b].prevFree)
  }

  lemma WithoutDistinct(s: seq<nat>, x: nat)
    requires Distinct(s) && x in s
    ensures Distinct(Without(s, x)) && x !in Without(s, x)
    ensures forall b | b in s && b != x :: b in Without(s, x)
  {
    MemberOfWithout(s, x, x);
    var k :| 0 <= k < |s| && s[k] == x;
    WithoutAt(s, k);
    forall b | b in s && b != x
      ensures b in Without(s, x)
    {
      MemberOfWithout(s, x, b);
    }
  }

  /** The identity of a buffer in no queue can change. */
  lemma RenameKeeps(bufs: seq<Buf>, bufs': seq<Buf>, head: int, free: seq<nat>, hash: seq<int>, chain: seq<seq<nat>>, x: nat)
    requires |bufs'| == |bufs| && x < |bufs| && x !in free
    requires forall b | 0 <= b < |bufs| && b != x :: bufs'[b] == bufs[b]
    requires Ring(bufs, head, free) && Chains(bufs, hash, chain, x)
    ensures Ring(bufs', head, free) && Chains(bufs', hash, chain, x)
  {
    forall i | 0 <= i < |free|
      ensures RingAt(bufs', free, i)
    {
      assert RingAt(bufs, free, i) && free[i] != x;
    }
    RenameKeepsChains(bufs, bufs', hash, chain, x);
  }

  lemma RenameKeepsChains(bufs: seq<Buf>, bufs': seq<Buf>, hash: seq<int>, chain: seq<seq<nat>>, x: nat)
    requires |bufs'| == |bufs| && x < |bufs| && Chains(bufs, hash, chain, x)
    requires forall b | 0 <= b < |bufs| && b != x :: bufs'[b] == bufs[b]
    ensures Chains(bufs', hash, chain, x)
  {
    forall h | 0 <= h < NR_HASH
      ensures Chain(bufs', hash[h], chain[h])
    {
      assert Chain(bufs, hash[h], chain[h]);
      ChainKept(bufs, bufs', hash[h], chain[h]);
    }
    forall h, b | 0 <= h < NR_HASH && b in chain[h]
      ensures b < |bufs'| && b != x && bufs'[b].dev != 0 && Hash(bufs'[b].dev, bufs'[b].block) == h
    {
      assert bufs'[b] == bufs[b];
    }
    forall b: nat | b < |bufs'| && b != x
      ensures if bufs'[b].dev != 0 then b in chain[Hash(bufs'[b].dev, bufs'[b].block)]
              else bufs'[b].next == NULL && bufs'[b].prev == NULL
    {
      assert bufs'[b] == bufs[b];
    }
  }

  // ----- what every step keeps -----

  lemma NextFine(bufs: seq<Buf>, e: Entry)
    requires Fine(bufs)
    ensures Fine(Next(bufs, e)) && |Next(bufs, e)| == |bufs|
  {
    var bufs' := Next(bufs, e);
    forall b | 0 <= b < |bufs|
      ensures FineAt(bufs'[b])
    {
      assert FineAt(bufs[b]);
    }
    if e.act.Claim? && bufs' != bufs {
      ClaimedUnique(bufs, bufs', e.act.b, e.act.dev, e.act.block);
    } else {
      SameBlocksUnique(bufs, bufs');
    }
  }

  lemma SameBlocksUnique(bufs: seq<Buf>, bufs': seq<Buf>)
    requires Unique(bufs) && |bufs'| == |bufs| && forall b | 0 <= b < |bufs| :: SameBlock(bufs[b], bufs'[b])
    ensures Unique(bufs')
  {
    forall b, c | 0 <= b < |bufs| && 0 <= c < |bufs| && bufs'[b].dev != 0
      && bufs'[b].dev == bufs'[c].dev && bufs'[b].block == bufs'[c].block
      ensures b == c
    {
      assert SameBlock(bufs[b], bufs'[b]) && SameBlock(bufs[c], bufs'[c]);
    }
  }

  lemma ClaimedUnique(bufs: seq<Buf>, bufs': seq<Buf>, x: nat, dev: nat, block: nat)
    requires Unique(bufs) && |bufs'| == |bufs| && x < |bufs| && !Cached(bufs, dev, block) && Has(bufs', x, dev, block)
    requires forall b | 0 <= b < |bufs| && b != x :: bufs'[b] == bufs[b]
    ensures Unique(bufs')
  {
    forall b, c | 0 <= b < |bufs| && 0 <= c < |bufs| && bufs'[b].dev != 0
      && bufs'[b].dev == bufs'[c].dev && bufs'[b].block == bufs'[c].block
      ensures b == c
    {
      assert !Has(bufs, b, dev, block) && !Has(bufs, c, dev, block);
    }
  }

  lemma LinksFine(bufs: seq<Buf>, bufs': seq<Buf>)
    requires Fine(bufs) && SameButLinks(bufs, bufs')
    ensures Fine(bufs')
  {
    forall b | 0 <= b < |bufs'|
      ensures FineAt(bufs'[b]) && SameBlock(bufs[b], bufs'[b])
    {
      assert FineAt(bufs[b]);
    }
    SameBlocksUnique(bufs, bufs');
  }

  lemma HistoryMore(trace: seq<seq<Buf>>, log: seq<Entry>, e: Entry, bufs: seq<Buf>)
    requires History(trace, log) && SameButLinks(Next(trace[|log|], e), bufs)
    ensures History(trace + [bufs], log + [e])
  {
    var n, t, l := |log|, trace + [bufs], log + [e];
    assert Fine(trace[n]);
    NextFine(trace[n], e);
    LinksFine(Next(trace[n], e), bufs);
    forall i | 0 <= i < |t|
      ensures Fine(t[i])
    {
      assert i <= n ==> t[i] == trace[i];
    }
    forall i: nat | i < |l|
      ensures StepAt(t, l, i)
    {
      assert t[i] == trace[i];
      if i < n {
        assert StepAt(trace, log, i) && l[i] == log[i];
      }
    }
  }

  /** One step of a history, at buffer b. */
  lemma StepIs(trace: seq<seq<Buf>>, log: seq<Entry>, i: nat, b: nat)
    requires History(trace, log) && i < |log| && b < |trace[i]|
    ensures |trace[i + 1]| == |trace[i]| && FineAt(trace[i][b]) && SameUse(Next(trace[i], log[i]), trace[i + 1], b)
  {
    assert StepAt(trace, log, i) && Fine(trace[i]);
  }

  /** What this task has is not the others' to take: its references, and its lock while it waits for a
      request slot. */
  predicate Kept(x: Buf, y: Buf) {
    && y.own == x.own && (x.own > 0 ==> SameBlock(x, y))
    && (x.io.Asked? && x.io.own ==> y.io == x.io && SameBlock(x, y))
  }

  lemma {:induction false} OthersKeep(trace: seq<seq<Buf>>, log: seq<Entry>, i: nat, j: nat, b: nat)
    requires History(trace, log) && i <= j < |trace| && b < |trace[i]|
    requires forall n | i <= n < j :: !log[n].own
    ensures |trace[j]| == |trace[i]| && Kept(trace[i][b], trace[j][b])
  {
    if i == j {
    } else {
      OthersKeep(trace, log, i, j - 1, b);
      StepIs(trace, log, j - 1, b);
    }
  }

  /** As long as a buffer has users, however many steps that lasts, it is the same block. */
  lemma {:induction false} UsedStaysSame(trace: seq<seq<Buf>>, log: seq<Entry>, i: nat, j: nat, b: nat)
    requires History(trace, log) && i <= j < |trace| && b < |trace[i]|
    requires forall n | i <= n < j && b < |trace[n]| :: trace[n][b].count > 0
    ensures Has(trace[j], b, trace[i][b].dev, trace[i][b].block)
  {
    if i == j {
    } else {
      UsedStaysSame(trace, log, i, j - 1, b);
      StepIs(trace, log, j - 1, b);
    }
  }

  /** Whoever gave buffer b a new block found it unused, unlocked and clean, and that block not cached. */
  lemma {:induction false} ReusedClean(trace: seq<seq<Buf>>, log: seq<Entry>, i: nat, j: nat, b: nat) returns (n: nat)
    requires History(trace, log) && i <= j < |trace| && b < |trace[i]|
    requires !Has(trace[j], b, trace[i][b].dev, trace[i][b].block)
    ensures i <= n < j && Has(trace[n], b, trace[i][b].dev, trace[i][b].block)
    ensures log[n].act.Claim? && log[n].act.b == b && TakenOver(trace[n], b, log[n].act.dev, log[n].act.block)
  {
    if Has(trace[j - 1], b, trace[i][b].dev, trace[i][b].block) {
      StepIs(trace, log, j - 1, b);
      return j - 1;
    } else {
      n := ReusedClean(trace, log, i, j - 1, b);
    }
  }

  /** The unwritten data of buffer b stop being so: they go to the disk, or somebody gives them up. Only
      data that are not up to date are given up for a read. */
  predicate Discharged(bufs: seq<Buf>, a: Act, b: nat) {
    && b < |bufs| && bufs[b].dirt
    && (a == Forget(b) || a == Invalidate(b) ||
        (a == Start(b) && bufs[b].io.Asked? && (bufs[b].io.cmd.Write? || !bufs[b].uptodate)))
  }

  /** Unwritten data are never just lost: a dirty buffer that is clean later, or another block, was written
      or given up at a moment between, when it still was that block. */
  lemma {:induction false} NothingLost(trace: seq<seq<Buf>>, log: seq<Entry>, i: nat, j: nat, b: nat) returns (n: nat)
    requires History(trace, log) && i <= j < |trace| && b < |trace[i]| && trace[i][b].dirt
    requires !(Has(trace[j], b, trace[i][b].dev, trace[i][b].block) && trace[j][b].dirt)
    ensures i <= n < j && Has(trace[n], b, trace[i][b].dev, trace[i][b].block)
    ensures Discharged(trace[n], log[n].act, b)
  {
    if Has(trace[j - 1], b, trace[i][b].dev, trace[i][b].block) && trace[j - 1][b].dirt {
      StepIs(trace, log, j - 1, b);
      return j - 1;
    } else {
      n := NothingLost(trace, log, i, j - 1, b);
    }
  }

  /** A lock opens at the end of the request, or when a read ahead is given up. */
  lemma {:induction false} OpenedAtEnd(trace: seq<seq<Buf>>, log: seq<Entry>, i: nat, j: nat, b: nat) returns (n: nat)
    requires History(trace, log) && i <= j < |trace| && b < |trace[i]| && trace[i][b].lock
    requires !(b < |trace[j]| && trace[j][b].lock)
    ensures i <= n < j && b < |trace[n]| && trace[n][b].lock
    ensures if trace[n][b].io.Queued? then log[n] in {Entry(false, Finish(b, true)), Entry(false, Finish(b, false))}
            else log[n].act == GiveUp(b)
  {
    if b < |trace[j - 1]| && trace[j - 1][b].lock {
      StepIs(trace, log, j - 1, b);
      return j - 1;
    } else {
      n := OpenedAtEnd(trace, log, i, j - 1, b);
    }
  }

  /** Unused, unlocked and clean. */
  predicate Spare(x: Buf) {
    x.count == 0 && Badness(x) == 0
  }

  ghost predicate NoneSpare(bufs: seq<Buf>) {
    forall b | 0 <= b < |bufs| :: !Spare(bufs[b])
  }

  /** getblk need not wait: the block is cached and not locked, or it is not cached and there is a spare buffer. */
  ghost predicate Ready(bufs: seq<Buf>, dev: nat, block: nat) {
    if Cached(bufs, dev, block) then exists b: nat :: Has(bufs, b, dev, block) && !bufs[b].lock
    else !NoneSpare(bufs)
  }

  /** Buffer b is in use, or no better than the choice r. */
  predicate NoBetter(bufs: seq<Buf>, b: nat, r: int) {
    b < |bufs| && bufs[b].count == 0 ==> 0 <= r < |bufs| && Badness(bufs[r]) <= Badness(bufs[b])
  }

  lemma EveryoneSeen(bufs: seq<Buf>, free: seq<nat>, r: int)
    requires forall b: nat | b < |bufs| :: b in free
    requires NULL <= r < |bufs| && forall i | 0 <= i < |free| :: free[i] < |bufs|
    requires forall j | 0 <= j < |free| :: NoBetter(bufs, free[j], r)
    ensures r == NULL ==> forall b | 0 <= b < |bufs| :: bufs[b].count > 0
    ensures r != NULL ==> forall b | 0 <= b < |bufs| && bufs[b].count == 0 :: Badness(bufs[r]) <= Badness(bufs[b])
  {
    forall b | 0 <= b < |bufs| && bufs[b].count == 0
      ensures r != NULL && Badness(bufs[r]) <= Badness(bufs[b])
    {
      assert b in free;
      var j :| 0 <= j < |free| && free[j] == b;
      assert NoBetter(bufs, free[j], r);
    }
  }

  datatype Brelsed = Done | Waiting | Panic

  class Cache {
    const bh: array<Buf>
    const hash: array<int>
    /** What the others do, in the course of all calls; `script` is what is left of it. */
    const others: seq<Act>
    var freeList: int
    var script: seq<Act>
    ghost var free: seq<nat>
    ghost var chain: seq<seq<nat>>
    ghost var trace: seq<seq<Buf>>
    ghost var log: seq<Entry>

    /** The pointer structure, with buffer `out` in no queue. */
    ghost predicate Linked(out: int)
      reads this`freeList, this`free, this`chain, bh, hash
    {
      && bh as object != hash
      && Ring(bh[..], freeList, free)
      && Chains(bh[..], hash[..], chain, out)
    }

    /** Every buffer is in the free list. */
    ghost predicate Shape()
      reads this`freeList, this`free, this`chain, bh, hash
    {
      Linked(NULL) && bh.Length > 0 && forall b: nat | b < bh.Length :: b in free
    }

    /** And the buffers are the end of a history. */
    ghost predicate Recorded()
      reads this`freeList, this`free, this`chain, this`trace, this`log, bh, hash
    {
      Shape() && History(trace, log) && trace[|log|] == bh[..]
    }

    /** In which the others have done what is gone of the script, in its order. */
    ghost predicate Valid()
      reads this, bh, hash
    {
      Recorded() && Others(log, |log|) + script == others
    }

    /** buffer_init: all buffers free and without device, in one ring in the order of their addresses. */
    constructor (n: nat, others: seq<Act>)
      requires n > 0
      ensures Valid() && bh.Length == n && script == others && trace == [bh[..]] && log == []
    {
      bh := new Buf[n](i => Buf(0, 0, false, false, 0, false, NULL, NULL,
                                if i == 0 then n - 1 else i - 1, if i + 1 == n then 0 else i + 1, 0, Idle));
      hash := new int[NR_HASH](_ => NULL);
      freeList := 0;
      this.others, script := others, others;
      new;
      FirstHistory(bh[..]);
      free := seq(n, i => i);
      chain := seq(NR_HASH, _ => []);
      trace, log := [bh[..]], [];
      forall i | 0 <= i < n
        ensures RingAt(bh[..], free, i)
      {
      }
      forall b: nat | b < n
        ensures b in free
      {
        assert free[b] == b;
      }
    }

    /** Takes x out of its hash chain and out of the free list. */
    method RemoveFromQueues(x: nat)
      requires Linked(NULL) && x in free
      modifies bh, hash, `freeList, `free, `chain
      ensures Linked(x)
      ensures free == Without(old(free), x) && chain == ChainsWithout(old(bh[..]), old(chain), x)
      ensures free == [] ==> freeList == x && bh[x].nextFree == x && bh[x].prevFree == x
      ensures SameButLinks(old(bh[..]), bh[..])
    {
      ghost var b0 := bh[..];
      LeaveChainOf(x);
      HashKeepsRing(b0, bh[..], freeList, free);
      ghost var b1 := bh[..];
      LeaveFreeList(x);
      FreeKeepsChains(b1, bh[..], hash[..], chain, x);
    }

    method LeaveChainOf(x: nat)
      requires bh as object != hash && Chains(bh[..], hash[..], chain, NULL) && x < bh.Length
      modifies bh, hash, `chain
      ensures Chains(bh[..], hash[..], chain, x) && chain == ChainsWithout(old(bh[..]), old(chain), x)
      ensures SameButHash(old(bh[..]), bh[..])
    {
      ghost var b0, hash0 := bh[..], hash[..];
      LeaveChains(b0, hash0, chain, x);
      var p, n := bh[x].prev, bh[x].next;
      if n != NULL {
        bh[n] := bh[n].(prev := p);
      }
      if p != NULL {
        bh[p] := bh[p].(next := n);
      }
      var h := Hash(bh[x].dev, bh[x].block);
      if hash[h] == x {
        hash[h] := bh[x].next;
      }
      assert bh[..] == ChainUnlinked(b0, x);
      assert hash[..] == HashUnlinked(b0, hash0, x);
      chain := ChainsWithout(b0, chain, x);
    }

    method LeaveFreeList(x: nat)
      requires Ring(bh[..], freeList, free) && x in free
      modifies bh, `freeList, `free
      ensures Ring(bh[..], freeList, free) && free == Without(old(free), x)
      ensures free == [] ==> freeList == x && bh[x].nextFree == x && bh[x].prevFree == x
      ensures SameButFree(old(bh[..]), bh[..])
    {
      ghost var b0 := bh[..];
      ghost var k :| 0 <= k < |free| && free[k] == x;
      LeaveRing(b0, freeList, free, k);
      WithoutAt(free, k);
      var p, n := bh[x].prevFree, bh[x].nextFree;
      bh[p] := bh[p].(nextFree := n);
      bh[n] := bh[n].(prevFree := p);
      assert bh[..] == RingUnlinked(b0, x);
      if freeList == x {
        freeList := n;
      }
      free := Without(free, x);
    }

    /** Puts x at the end of the free list and, if it has a device, in front of its chain. The
        store through the old first buffer of the chain is done only if there is one. */
    method InsertIntoQueues(x: nat)
      requires Linked(x) && x < bh.Length && x !in free
      requires free == [] ==> freeList == x && bh[x].nextFree == x && bh[x].prevFree == x
      modifies bh, hash, `free, `chain
      ensures Linked(NULL) && free == old(free) + [x] && chain == ChainsWith(old(bh[..]), old(chain), x)
      ensures SameButLinks(old(bh[..]), bh[..])
    {
      ghost var b0 := bh[..];
      EnterFreeList(x);
      ghost var b1 := bh[..];
      FreeKeepsChains(b0, b1, hash[..], chain, x);
      EnterChain(x);
      HashKeepsRing(b1, bh[..], freeList, free);
    }

    method EnterFreeList(x: nat)
      requires Ring(bh[..], freeList, free) && x < bh.Length && x !in free
      requires free == [] ==> freeList == x && bh[x].nextFree == x && bh[x].prevFree == x
      modifies bh, `free
      ensures Ring(bh[..], freeList, free) && free == old(free) + [x]
      ensures SameButFree(old(bh[..]), bh[..])
    {
      ghost var b0 := bh[..];
      JoinRing(b0, freeList, free, x);
      var last := bh[freeList].prevFree;
      bh[x] := bh[x].(nextFree := freeList, prevFree := last);
      bh[last] := bh[last].(nextFree := x);
      bh[freeList] := bh[freeList].(prevFree := x);
      assert bh[..] == RingLinked(b0, x, freeList);
      free := free + [x];
    }

    method EnterChain(x: nat)
      requires bh as object != hash && Chains(bh[..], hash[..], chain, x) && x < bh.Length
      modifies bh, hash, `chain
      ensures Chains(bh[..], hash[..], chain, NULL) && chain == ChainsWith(old(bh[..]), old(chain), x)
      ensures SameButHash(old(bh[..]), bh[..])
    {
      ghost var b0, hash0 := bh[..], hash[..];
      JoinChains(b0, hash0, chain, x);
      bh[x] := bh[x].(prev := NULL, next := NULL);
      if bh[x].dev != 0 {
        var h := Hash(bh[x].dev, bh[x].block);
        bh[x] := bh[x].(next := hash[h]);
        hash[h] := x;
        var n := bh[x].next;
        if n != NULL {
          bh[n] := bh[n].(prev := x);
        }
      }
      assert bh[..] == BufsLinked(b0, hash0, x);
      assert hash[..] == HashLinked(b0, hash0, x);
      chain := ChainsWith(b0, chain, x);
    }

    /** Looks through the bucket's chain: exactly the buffer of that device and block, if any. */
    method FindBuffer(dev: nat, block: nat) returns (r: int)
      requires Shape() && dev != 0
      ensures r == NULL ==> !Cached(bh[..], dev, block)
      ensures r != NULL ==> 0 <= r < bh.Length && Has(bh[..], r, dev, block)
    {
      var h := Hash(dev, block);
      ghost var s := chain[h];
      assert Chain(bh[..], hash[h], s);
      r := hash[h];
      ghost var k := 0;
      while r != NULL
        invariant 0 <= k <= |s| && r == if k < |s| then s[k] else NULL
        invariant forall j | 0 <= j < k :: !Has(bh[..], s[j], dev, block)
        decreases |s| - k
      {
        assert ChainAt(bh[..], s, k);
        if bh[r].dev == dev && bh[r].block == block {
          return;
        }
        r := bh[r].next;
        k := k + 1;
      }
      assert forall b | 0 <= b < bh.Length && b in s :: !Has(bh[..], b, dev, block);
    }

    /** remove_from_queues, the new device and block, insert_into_queues. */
    method Rename(x: nat, dev: nat, block: nat)
      requires Linked(NULL) && x in free
      modifies bh, hash, `freeList, `free, `chain
      ensures Linked(NULL) && SameButLinks(old(bh[..])[x := old(bh[x]).(dev := dev, block := block)], bh[..])
      ensures forall b: nat | b in old(free) :: b in free
    {
      ghost var b0 := bh[..];
      WithoutDistinct(free, x);
      RemoveFromQueues(x);
      ghost var b1 := bh[..];
      Relabel(x, dev, block);
      ghost var b2 := bh[..];
      InsertIntoQueues(x);
      RenamedIs(b0, b1, b2, bh[..], x, dev, block);
    }

    method Relabel(x: nat, dev: nat, block: nat)
      requires Linked(x) && x < bh.Length && x !in free
      modifies bh
      ensures Linked(x) && bh[..] == old(bh[..])[x := old(bh[x]).(dev := dev, block := block)]
    {
      ghost var b1 := bh[..];
      bh[x] := bh[x].(dev := dev);
      bh[x] := bh[x].(block := block);
      RenameKeeps(b1, bh[..], freeList, free, hash[..], chain, x);
    }

    /** The end of getblk: an unused, unlocked, clean buffer gets a new identity. */
    method ClaimBuffer(x: nat, dev: nat, block: nat, own: bool)
      requires Shape() && dev != 0 && TakenOver(bh[..], x, dev, block)
      modifies bh, hash, `freeList, `free, `chain
      ensures Shape() && SameButLinks(old(bh[..])[x := Claimed(old(bh[x]), dev, block, own)], bh[..])
    {
      ghost var b0 := bh[..];
      bh[x] := bh[x].(count := 1, own := if own then 1 else 0);
      bh[x] := bh[x].(dirt := false);
      bh[x] := bh[x].(uptodate := false);
      ghost var b1 := bh[..];
      FlagsKeepRing(b0, b1, freeList, free);
      FlagsKeepChains(b0, b1, hash[..], chain);
      Rename(x, dev, block);
      assert b1[x := b1[x].(dev := dev, block := block)] == b0[x := Claimed(b0[x], dev, block, own)];
    }

    /** A buffer's count and flags change. */
    method SetFlags(b: nat, a: Act, own: bool)
      requires Shape() && b < bh.Length
      modifies bh
      ensures Shape() && bh[..] == old(bh[..])[b := Acted(old(bh[b]), a, own)]
    {
      ghost var b0 := bh[..];
      bh[b] := Acted(bh[b], a, own);
      FlagsKeepRing(b0, bh[..], freeList, free);
      FlagsKeepChains(b0, bh[..], hash[..], chain);
    }

    /** Another getblk gets to its end, if it may. */
    method ClaimIfFree(b: nat, dev: nat, block: nat, own: bool)
      requires Shape() && b < bh.Length
      modifies bh, hash, `freeList, `free, `chain
      ensures Shape() && SameButLinks(Next(old(bh[..]), Entry(own, Claim(b, dev, block))), bh[..])
    {
      if dev != 0 && bh[b].count == 0 && !bh[b].lock && !bh[b].dirt {
        var other := FindBuffer(dev, block);
        if other == NULL {
          ClaimBuffer(b, dev, block, own);
        } else {
          assert Has(bh[..], other, dev, block);
        }
      }
    }

    method Change(a: Act, own: bool)
      requires Shape()
      modifies bh, hash, `freeList, `free, `chain
      ensures Shape() && SameButLinks(Next(old(bh[..]), Entry(own, a)), bh[..])
      ensures !a.Claim? ==> bh[..] == Next(old(bh[..]), Entry(own, a))
    {
      match a
      case Full =>
      case Wake =>
      case Claim(b, dev, block) =>
        if b < bh.Length {
          ClaimIfFree(b, dev, block, own);
        }
      case _ =>
        if a.b < bh.Length {
          SetFlags(a.b, a, own);
        }
    }

    /** A step of the history. */
    method Perform(a: Act, own: bool)
      requires Recorded()
      modifies bh, hash, `freeList, `free, `chain, `trace, `log
      ensures Recorded() && trace == old(trace) + [bh[..]] && log == old(log) + [Entry(own, a)]
      ensures SameButLinks(Next(old(bh[..]), Entry(own, a)), bh[..])
      ensures !a.Claim? ==> bh[..] == Next(old(bh[..]), Entry(own, a))
      ensures Others(log, |log|) == if own then Others(old(log), |old(log)|) else Others(old(log), |old(log)|) + [a]
    {
      Change(a, own);
      HistoryMore(trace, log, Entry(own, a), bh[..]);
      OthersKept(log, log + [Entry(own, a)], |log|);
      trace, log := trace + [bh[..]], log + [Entry(own, a)];
    }

    /** One of this task's own steps. */
    method Do(a: Act)
      requires Valid()
      modifies bh, hash, `freeList, `free, `chain, `trace, `log
      ensures Valid() && trace == old(trace) + [bh[..]] && log == old(log) + [Entry(true, a)]
      ensures SameButLinks(Next(old(bh[..]), Entry(true, a)), bh[..])
      ensures !a.Claim? ==> bh[..] == Next(old(bh[..]), Entry(true, a))
    {
      Perform(a, true);
    }

    /** The next step of the others. */
    method TakeTurn()
      requires Valid() && script != []
      modifies bh, hash, `freeList, `free, `chain, `trace, `log, `script
      ensures Valid() && |script| < |old(script)| && old(trace) <= trace && log == old(log) + [Entry(false, old(script)[0])]
    {
      var a := script[0];
      TurnTaken(Others(log, |log|), script);
      script := script[1..];
      Perform(a, false);
    }

    /** Nothing has happened since. */
    twostate predicate Still()
      reads this, bh
    {
      log == old(log) && trace == old(trace) && script == old(script) && bh[..] == old(bh[..])
    }

    /** sleep_on: others run until somebody wakes this task. False: the script ends before that. */
    method Sleep() returns (woken: bool)
      requires Valid()
      modifies bh, hash, `freeList, `free, `chain, `trace, `log, `script
      ensures Valid() && old(trace) <= trace && old(log) <= log && NoOwn(log, |old(log)|)
      ensures if woken then |script| < |old(script)| else script == []
      ensures if old(script) == [] then Still() else |script| < |old(script)|
    {
      while script != []
        invariant Valid() && old(trace) <= trace && old(log) <= log && NoOwn(log, |old(log)|)
        invariant Still() || |script| < |old(script)|
        decreases |script|
      {
        var a := script[0];
        TakeTurn();
        if a == Wake {
          return true;
        }
      }
      return false;
    }

    /** wait_on_buffer. False: the buffer is still locked when the script ends. */
    method WaitOnBuffer(b: nat) returns (woken: bool)
      requires Valid() && b < bh.Length
      modifies bh, hash, `freeList, `free, `chain, `trace, `log, `script
      ensures Valid() && old(trace) <= trace && old(log) <= log && NoOwn(log, |old(log)|)
      ensures Kept(old(bh[b]), bh[b]) && (woken <==> !bh[b].lock) && (!woken ==> script == [])
      ensures if old(bh[b].lock) then |script| <= |old(script)| && (woken ==> |script| < |old(script)|) else Still()
    {
      ghost var m := |log|;
      while bh[b].lock
        invariant Valid() && old(trace) <= trace && old(log) <= log && NoOwn(log, |old(log)|)
        invariant |script| <= |old(script)| && (Still() || (old(bh[b].lock) && |script| < |old(script)|))
        decreases |script|
      {
        var ok := Sleep();
        if !ok {
          break;
        }
      }
      OthersKeep(trace, log, m, |log|, b);
      woken := !bh[b].lock;
    }

    /** This task holds buffer b, of that block, since step n, and waits for its lock. */
    ghost predicate WaitsFor(b: nat, dev: nat, block: nat, n: nat)
      reads this`log, bh
    {
      && Has(bh[..], b, dev, block) && bh[b].own > 0 && bh[b].lock
      && n < |log| && log[n] == Entry(true, Hold(b))
    }

    /** Buffer r has the block, is not locked, and is this task's since step n: then it was cached, or
        unused, unlocked, clean, and the block not cached. */
    ghost predicate Got(r: int, dev: nat, block: nat, n: nat)
      reads this`trace, this`log, bh
    {
      && 0 <= r < bh.Length && Has(bh[..], r, dev, block) && bh[r].own > 0 && bh[r].count > 0 && !bh[r].lock
      && n < |log| && n < |trace|
      && (|| (log[n] == Entry(true, Hold(r)) && Has(trace[n], r, dev, block))
          || (log[n] == Entry(true, Claim(r, dev, block)) && n == |log| - 1 && NewlyClaimed(r, dev, block)))
    }

    /** At the last step r was claimed for the block, when it was unused, unlocked and clean and no buffer had
        that identity. */
    ghost predicate NewlyClaimed(r: int, dev: nat, block: nat)
      reads this`trace, bh
    {
      && 0 <= r < bh.Length && Has(bh[..], r, dev, block) && bh[r].count == 1
      && !bh[r].lock && !bh[r].dirt && !bh[r].uptodate
      && |trace| >= 2 && TakenOver(trace[|trace| - 2], r, dev, block)
    }

    /** get_hash_table: a cached buffer, unlocked and with one more user. The source checks the
        identity again after the wait and starts over if it changed; a buffer in use keeps it, so
        that never happens. `asleep` means that the script ended while the buffer was locked. */
    method GetHashTable(dev: nat, block: nat) returns (r: int, asleep: bool)
      requires Valid() && dev != 0
      modifies bh, hash, `freeList, `free, `chain, `trace, `log, `script
      ensures Valid() && old(trace) <= trace && old(log) <= log && |script| <= |old(script)|
      ensures r == NULL && !asleep ==> Still() && !Cached(bh[..], dev, block)
      ensures r != NULL ==> !asleep && Got(r, dev, block, |old(log)|) && log[|old(log)|].act.Hold? && NoOwn(log, |old(log)| + 1)
      ensures r != NULL ==> trace[|old(log)| + 1] == old(bh[..])[r := old(bh[r]).(count := old(bh[r]).count + 1, own := old(bh[r]).own + 1)]
      ensures r != NULL ==> if old(bh[r].lock) then |script| < |old(script)| else script == old(script)
      ensures asleep ==> script == [] && exists b: nat :: WaitsFor(b, dev, block, |old(log)|)
      ensures asleep ==> !Ready(old(bh[..]), dev, block) && NoOwn(log, |old(log)| + 1)
    {
      r := FindBuffer(dev, block);
      asleep := false;
      if r == NULL {
        return;
      }
      assert Fine(trace[|log|]);
      Do(Hold(r));
      var woken := WaitOnBuffer(r);
      if !woken {
        assert WaitsFor(r, dev, block, |old(log)|);
        return NULL, true;
      }
    }

    /** The search of getblk: an unused buffer of least badness, if there is an unused one. */
    method LeastBad() returns (r: int)
      requires Valid()
      ensures r == NULL ==> forall b | 0 <= b < bh.Length :: bh[b].count > 0
      ensures r != NULL ==> 0 <= r < bh.Length && bh[r].count == 0
      ensures r != NULL ==> forall b | 0 <= b < bh.Length && bh[b].count == 0 :: Badness(bh[r]) <= Badness(bh[b])
    {
      r := NULL;
      var tmp := freeList;
      ghost var k, s := 0, free;
      assert 0 in s;
      while true
        invariant 0 <= k < |s| && tmp == s[k]
        invariant NULL <= r < bh.Length && (r != NULL ==> bh[r].count == 0 && Badness(bh[r]) > 0)
        invariant forall j | 0 <= j < k :: NoBetter(bh[..], s[j], r)
        decreases |s| - k
      {
        assert RingAt(bh[..], s, k);
        if bh[tmp].count == 0 {
          if r == NULL || Badness(bh[tmp]) < Badness(bh[r]) {
            r := tmp;
            if Badness(bh[tmp]) == 0 {
              return;
            }
          }
        }
        tmp := bh[tmp].nextFree;
        if tmp == freeList {
          assert Succ(s, k) == 0;
          EveryoneSeen(bh[..], s, r);
          return;
        }
        k := k + 1;
      }
    }

    /** ll_rw_block(WRITE) for a dirty buffer: locked, it stays dirty until there is a request slot for
        it; the task sleeps as long as there is none. */
    method StartWriting(i: nat) returns (woken: bool)
      requires Valid() && i < bh.Length && !bh[i].lock && bh[i].dirt
      modifies bh, hash, `freeList, `free, `chain, `trace, `log, `script
      ensures Valid() && old(trace) <= trace && old(log) <= log && OnlyWrites(log, |old(log)|) && |script| <= |old(script)|
      ensures SameBlock(old(bh[i]), bh[i]) && bh[i].lock
      ensures if woken then !bh[i].dirt && bh[i].io == Queued(Write)
              else script == [] && bh[i].dirt && bh[i].io == Asked(Write, true)
      ensures woken && |script| == |old(script)| ==> log == old(log) + [Entry(true, Ask(i, Write)), Entry(true, Start(i))]
    {
      AskWrite(i);
      woken := WaitForSlot(i);
      if woken {
        StartWrite(i);
      }
    }

    method AskWrite(i: nat)
      requires Valid() && i < bh.Length && !bh[i].lock && bh[i].dirt
      modifies bh, hash, `freeList, `free, `chain, `trace, `log
      ensures Valid() && old(trace) <= trace && log == old(log) + [Entry(true, Ask(i, Write))]
      ensures bh[..] == old(bh[..])[i := old(bh[i]).(lock := true, io := Asked(Write, true))]
    {
      AskedIs(bh[..], i);
      Do(Ask(i, Write));
    }

    method StartWrite(i: nat)
      requires Valid() && i < bh.Length && bh[i].io == Asked(Write, true)
      modifies bh, hash, `freeList, `free, `chain, `trace, `log
      ensures Valid() && old(trace) <= trace && log == old(log) + [Entry(true, Start(i))]
      ensures bh[..] == old(bh[..])[i := old(bh[i]).(dirt := false, io := Queued(Write))]
    {
      StartedIs(bh[..], i);
      Do(Start(i));
    }

    /** The sleep of make_request, with buffer i locked, until there is a slot. */
    method WaitForSlot(i: nat) returns (woken: bool)
      requires Valid() && i < bh.Length && bh[i].io == Asked(Write, true)
      modifies bh, hash, `freeList, `free, `chain, `trace, `log, `script
      ensures Valid() && old(trace) <= trace && old(log) <= log && NoOwn(log, |old(log)|) && |script| <= |old(script)|
      ensures !woken ==> script == [] && old(script) != [] && old(script)[0] == Full
      ensures SameBlock(old(bh[i]), bh[i]) && bh[i].io == Asked(Write, true)
      ensures bh[i].lock && bh[i].dirt && (|script| == |old(script)| ==> log == old(log))
    {
      woken := true;
      ghost var m := |log|;
      while woken && script != [] && script[0] == Full
        invariant Valid() && old(trace) <= trace && old(log) <= log && NoOwn(log, |old(log)|) && |script| <= |old(script)|
        invariant (woken && Still()) || (|script| < |old(script)| && old(script)[0] == Full)
        invariant !woken ==> script == []
        decreases |script|
      {
        TakeTurn();
        woken := Sleep();
      }
      OthersKeep(trace, log, m, |log|, i);
      assert Fine(trace[|log|]);
    }

    /** One turn of sync_dev's loops: a dirty buffer of the device starts being written. */
    method WriteIfDirty(i: nat, dev: nat) returns (woken: bool)
      requires Valid() && i < bh.Length
      modifies bh, hash, `freeList, `free, `chain, `trace, `log, `script
      ensures Valid() && old(trace) <= trace && old(log) <= log && OnlyWrites(log, |old(log)|) && |script| <= |old(script)|
      ensures if woken then CleanAt(bh[..], i, dev) else script == [] && bh[i].lock
      ensures woken && |script| == |old(script)| ==> log == old(log) + WriteSteps(old(bh[..]), i, dev)
    {
      woken := true;
      if bh[i].dev == dev {
        woken := WaitOnBuffer(i);
        if woken && bh[i].dev == dev && bh[i].dirt {
          woken := StartWriting(i);
        }
      }
    }

    /** A turn after the first i have been done. */
    method WriteNext(i: nat, dev: nat, ghost start: nat) returns (woken: bool)
      requires Valid() && i < bh.Length && start < |trace| && AllCleaned(trace, start, i, dev)
      modifies bh, hash, `freeList, `free, `chain, `trace, `log, `script
      ensures Valid() && old(trace) <= trace && old(log) <= log && OnlyWrites(log, |old(log)|) && |script| <= |old(script)|
      ensures if woken then AllCleaned(trace, start, i + 1, dev) else script == []
    {
      ghost var seen := trace;
      woken := WriteIfDirty(i, dev);
      if woken {
        OneMoreCleaned(seen, trace, start, i, dev);
      }
    }

    /** One of sync_dev's two loops: every dirty buffer of the device starts being written. */
    method WriteDirty(dev: nat, ghost start: nat) returns (woken: bool)
      requires Valid() && start < |trace|
      modifies bh, hash, `freeList, `free, `chain, `trace, `log, `script
      ensures Valid() && old(trace) <= trace && old(log) <= log && OnlyWrites(log, |old(log)|) && |script| <= |old(script)|
      ensures if woken then AllCleaned(trace, start, bh.Length, dev) else script == []
    {
      var i := 0;
      woken := true;
      while i < bh.Length && woken
        invariant 0 <= i <= bh.Length && Valid() && old(trace) <= trace && old(log) <= log && |script| <= |old(script)|
        invariant OnlyWrites(log, |old(log)|)
        invariant if woken then AllCleaned(trace, start, i, dev) else script == []
        decreases bh.Length - i, woken
      {
        woken := WriteNext(i, dev, start);
        i := i + 1;
      }
    }

    /** sync_inodes, up to the next Wake, and sync_dev's second loop. */
    method SyncAgain(dev: nat, ghost start: nat) returns (woken: bool)
      requires Valid() && start < |trace|
      modifies bh, hash, `freeList, `free, `chain, `trace, `log, `script
      ensures Valid() && old(trace) <= trace && old(log) <= log && OnlyWrites(log, |old(log)|)
      ensures if woken then |script| < |old(script)| && AllCleaned(trace, start, bh.Length, dev) else script == []
    {
      woken := Sleep();
      if woken {
        woken := WriteDirty(dev, start);
      }
    }

    /** sync_dev */
    method SyncDev(dev: nat) returns (woken: bool)
      requires Valid()
      modifies bh, hash, `freeList, `free, `chain, `trace, `log, `script
      ensures Valid() && old(trace) <= trace && old(log) <= log && OnlyWrites(log, |old(log)|)
      ensures if woken then |script| < |old(script)| else script == []
      ensures woken ==> AllCleaned(trace, |old(log)|, bh.Length, dev)
    {
      ghost var start := |log|;
      woken := WriteDirty(dev, start);
      if woken {
        woken := SyncAgain(dev, start);
      }
    }

    /** The waiting part of getblk on its candidate x: unlock and clean it. `again` is the jump back
        to the start, taken when somebody took x meanwhile. */
    method MakeClean(x: nat) returns (again: bool, asleep: bool)
      requires Valid() && x < bh.Length && bh[x].count == 0
      modifies bh, hash, `freeList, `free, `chain, `trace, `log, `script
      ensures Valid() && old(trace) <= trace && old(log) <= log && OnlyWrites(log, |old(log)|) && |script| <= |old(script)|
      ensures asleep ==> script == []
      ensures !asleep && !again ==> Spare(bh[x])
      ensures if old(Spare(bh[x])) then Still() && !again && !asleep else asleep || |script| < |old(script)|
    {
      again, asleep := true, false;
      var woken := WaitOnBuffer(x);
      if !woken {
        return true, true;
      }
      if bh[x].count != 0 {
        return;
      }
      while bh[x].dirt
        invariant Valid() && old(trace) <= trace && old(log) <= log && OnlyWrites(log, |old(log)|) && |script| <= |old(script)|
        invariant bh[x].count == 0 && !bh[x].lock
        invariant (|script| < |old(script)| && !old(Spare(bh[x]))) || (Still() && !old(bh[x].lock))
        decreases |script|
      {
        woken := SyncAndWait(x);
        if !woken {
          return true, true;
        }
        if bh[x].count != 0 {
          return;
        }
      }
      again := false;
    }

    method SyncAndWait(x: nat) returns (woken: bool)
      requires Valid() && x < bh.Length
      modifies bh, hash, `freeList, `free, `chain, `trace, `log, `script
      ensures Valid() && old(trace) <= trace && old(log) <= log && OnlyWrites(log, |old(log)|)
      ensures if woken then |script| < |old(script)| && !bh[x].lock else script == []
    {
      woken := SyncDev(bh[x].dev);
      if woken {
        woken := WaitOnBuffer(x);
      }
    }

    /** One pass of getblk for a block that was not cached: an unused buffer is made clean and claimed, if
        nobody comes between. `again` is the jump back to the start; with neither, this task still waits, and
        there was no spare buffer. */
    method TryClaim(dev: nat, block: nat) returns (r: int, again: bool)
      requires Valid() && dev != 0 && !Cached(bh[..], dev, block)
      modifies bh, hash, `freeList, `free, `chain, `trace, `log, `script
      ensures Valid() && old(trace) <= trace && old(log) <= log && |script| <= |old(script)|
      ensures again ==> r == NULL && |script| < |old(script)| && OnlyWrites(log, |old(log)|)
      ensures r == NULL && !again ==> script == [] && OnlyWrites(log, |old(log)|)
      ensures r != NULL ==> |log| > |old(log)| && Got(r, dev, block, |log| - 1) && log[|log| - 1].act.Claim?
      ensures r != NULL ==> OnlyWrites(log[..|log| - 1], |old(log)|)
      ensures if old(NoneSpare(bh[..])) then r == NULL || |script| < |old(script)| else r != NULL && script == old(script)
    {
      again := false;
      r := LeastBad();
      if r == NULL {
        again := Sleep();
        return;
      }
      var asleep;
      again, asleep := MakeClean(r);
      if asleep || again {
        return NULL, !asleep;
      }
      var other := FindBuffer(dev, block);
      if other != NULL {
        return NULL, true;
      }
      Take(r, dev, block);
    }

    /** The end of getblk. */
    method Take(x: nat, dev: nat, block: nat)
      requires Valid() && dev != 0 && TakenOver(bh[..], x, dev, block)
      modifies bh, hash, `freeList, `free, `chain, `trace, `log
      ensures Valid() && old(trace) <= trace && log == old(log) + [Entry(true, Claim(x, dev, block))]
      ensures Got(x, dev, block, |log| - 1)
    {
      ghost var b0 := bh[..];
      Do(Claim(x, dev, block));
      assert SameUse(b0[x := Claimed(b0[x], dev, block, true)], bh[..], x);
      assert trace[|log| - 1] == b0 && trace[|trace| - 2] == b0;
    }

    /** Returns a buffer for a device and block, with the caller as a user: at step n it was cached, or it
        was claimed. This task's other steps only write buffers, to make one clean. NULL: when the script
        ends it still waits, for the lock of the buffer with that block, or because after step n there was
        no spare buffer. It need not wait if and only if it could go on at once. */
    method Getblk(dev: nat, block: nat) returns (r: int, ghost n: nat)
      requires Valid() && dev != 0
      modifies bh, hash, `freeList, `free, `chain, `trace, `log, `script
      ensures Valid() && old(trace) <= trace && old(log) <= log && |old(log)| <= n <= |log|
      ensures OnlyWrites(log[..n], |old(log)|) && OnlyWrites(log, n + 1)
      ensures if r != NULL then Got(r, dev, block, n) else script == [] && StillWaiting(dev, block, n)
      ensures r != NULL && script == old(script) <==> Ready(old(bh[..]), dev, block)
    {
      var again;
      r, again, n := Pass(dev, block);
      while again
        invariant Valid() && old(trace) <= trace && old(log) <= log && |old(log)| <= n <= |log|
        invariant OnlyWrites(log[..n], |old(log)|) && OnlyWrites(log, n + 1)
        invariant if again then OnlyWrites(log, |old(log)|) && |script| < |old(script)|
                  else if r != NULL then Got(r, dev, block, n) else script == [] && StillWaiting(dev, block, n)
        invariant if again then !Ready(old(bh[..]), dev, block)
                  else (r != NULL && script == old(script) <==> Ready(old(bh[..]), dev, block))
        decreases |script|, again
      {
        r, again, n := Pass(dev, block);
      }
    }

    /** Why this task still waits in getblk. */
    ghost predicate StillWaiting(dev: nat, block: nat, n: nat)
      reads this`trace, this`log, bh
    {
      || (exists b: nat :: WaitsFor(b, dev, block, n))
      || (n < |trace| && OnlyWrites(log, n) && !Cached(trace[n], dev, block) && NoneSpare(trace[n]))
    }

    /** From one `repeat` to the next. */
    method Pass(dev: nat, block: nat) returns (r: int, again: bool, ghost n: nat)
      requires Valid() && dev != 0
      modifies bh, hash, `freeList, `free, `chain, `trace, `log, `script
      ensures Valid() && old(trace) <= trace && old(log) <= log && |old(log)| <= n <= |log| && |script| <= |old(script)|
      ensures OnlyWrites(log[..n], |old(log)|) && OnlyWrites(log, n + 1)
      ensures again ==> r == NULL && OnlyWrites(log, |old(log)|) && |script| < |old(script)|
      ensures !again ==> if r != NULL then Got(r, dev, block, n) else script == [] && StillWaiting(dev, block, n)
      ensures r != NULL && script == old(script) <==> Ready(old(bh[..]), dev, block)
    {
      n := |log|;
      ghost var b0 := bh[..];
      var asleep;
      r, asleep := GetHashTable(dev, block);
      again := false;
      if r != NULL || asleep {
        return;
      }
      assert trace[n] == b0;
      r, again := TryClaim(dev, block);
      if r != NULL {
        n := |log| - 1;
      }
    }

    /** brelse: one user less; waits first if the buffer is locked. A buffer without users is a panic, which
        cannot be if one of them is this task. */
    method Brelse(b: nat) returns (r: Brelsed)
      requires Valid() && b < bh.Length
      modifies bh, hash, `freeList, `free, `chain, `trace, `log, `script
      ensures Valid() && old(trace) <= trace && old(log) <= log && (old(bh[b].lock) || script == old(script))
      ensures r == Waiting ==> script == [] && bh[b].lock && NoOwn(log, |old(log)|)
      ensures r == Panic ==> bh[b].count == 0 && old(bh[b].own) == 0 && NoOwn(log, |old(log)|)
      ensures r == Done ==> |log| > |old(log)| && log[|log| - 1] == Entry(true, Drop(b)) && NoOwn(log[..|log| - 1], |old(log)|)
      ensures r == Done ==> |trace| >= 2 && b < |trace[|trace| - 2]| && Released(trace[|trace| - 2], bh[..], b)
      ensures r == Done && old(bh[b].own) > 0 ==> Has(bh[..], b, old(bh[b]).dev, old(bh[b]).block)
    {
      var woken := WaitOnBuffer(b);
      if !woken {
        return Waiting;
      }
      if bh[b].count == 0 {
        return Panic;
      }
      DropOne(b);
      return Done;
    }

    method DropOne(b: nat)
      requires Valid() && b < bh.Length && !bh[b].lock && bh[b].count > 0
      modifies bh, hash, `freeList, `free, `chain, `trace, `log
      ensures Valid() && log == old(log) + [Entry(true, Drop(b))] && old(trace) <= trace
      ensures Has(bh[..], b, old(bh[b]).dev, old(bh[b]).block)
      ensures |trace| >= 2 && b < |trace[|trace| - 2]| && Released(trace[|trace| - 2], bh[..], b)
    {
      DroppedIs(bh[..], b);
      ghost var b0 := bh[..];
      Do(Drop(b));
      assert trace[|trace| - 2] == b0;
    }
  }
}
