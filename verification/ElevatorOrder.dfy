/** The elevator order of disk requests (kernel/blk_drv/blk.h), and what inserting a request does to
    the order in which a queue is served. */
module ElevatorOrder {

  const READ := 0
  const WRITE := 1

  datatype Key = Key(cmd: int, dev: int, sector: int)

  /** IN_ORDER: reads before writes, then by device, then by sector. */
  predicate InOrder(a: Key, b: Key) {
    a.cmd < b.cmd || (a.cmd == b.cmd && (a.dev < b.dev || (a.dev == b.dev && a.sector < b.sector)))
  }

  function Turn(a: Key, b: Key): nat {
    if InOrder(a, b) then 0 else 1
  }

  /** How often the order turns back in l: 0 for a single sweep. */
  function Turns(l: seq<Key>): nat {
    if |l| < 2 then 0 else Turn(l[0], l[1]) + Turns(l[1..])
  }

  /** The turns before entry i is reached. */
  function TurnsTo(l: seq<Key>, i: nat): nat
    requires i < |l|
  {
    if i == 0 then 0 else Turn(l[0], l[1]) + TurnsTo(l[1..], i - 1)
  }

  /** The test of add_request: is x to go between a and b? */
  predicate Between(a: Key, x: Key, b: Key) {
    (InOrder(a, x) || !InOrder(a, b)) && InOrder(x, b)
  }

  /** The position at which add_request puts x into a queue that is not empty. */
  function At(l: seq<Key>, x: Key): (k: nat)
    requires l != []
    ensures 1 <= k <= |l|
  {
    if |l| == 1 || Between(l[0], x, l[1]) then 1 else 1 + At(l[1..], x)
  }

  /** At is the first place whose neighbours accept x, or else the end. */
  lemma {:induction false} AtIsFirst(l: seq<Key>, x: Key)
    requires l != []
    ensures var k := At(l, x);
      && (k < |l| ==> Between(l[k - 1], x, l[k]))
      && (forall i | 0 < i < k :: !Between(l[i - 1], x, l[i]))
  {
    if |l| == 1 || Between(l[0], x, l[1]) {
    } else {
      AtIsFirst(l[1..], x);
      var k := At(l[1..], x);
      forall i | 0 < i < k + 1
        ensures !Between(l[i - 1], x, l[i])
      {
        if i > 1 {
          assert l[1..][i - 2] == l[i - 1] && l[1..][i - 1] == l[i];
        }
      }
    }
  }

  function Inserted(l: seq<Key>, x: Key): seq<Key>
    requires l != []
  {
    l[..At(l, x)] + [x] + l[At(l, x)..]
  }

  /** x's key is equal to none in l. */
  ghost predicate Fresh(l: seq<Key>, x: Key) {
    forall i | 0 <= i < |l| :: InOrder(l[i], x) <==> !InOrder(x, l[i])
  }

  lemma InsertedTail(l: seq<Key>, x: Key)
    requires l != []
    ensures At(l, x) == 1 ==> Inserted(l, x) == [l[0], x] + l[1..]
    ensures At(l, x) > 1 ==> Inserted(l, x) == [l[0]] + Inserted(l[1..], x) && Inserted(l[1..], x)[0] == l[1]
  {
    if At(l, x) == 1 {
      assert l[..1] == [l[0]];
    } else {
      SplitTail(l, At(l[1..], x), x);
    }
  }

  lemma SplitTail(l: seq<Key>, k: nat, x: Key)
    requires 1 <= k < |l|
    ensures l[..k + 1] + [x] + l[k + 1..] == [l[0]] + (l[1..][..k] + [x] + l[1..][k..])
    ensures (l[1..][..k] + [x] + l[1..][k..])[0] == l[1]
  {
    assert l[..k + 1] == [l[0]] + l[1..][..k];
    assert l[k + 1..] == l[1..][k..];
  }

  /** x comes after the head of a queue that is a single sweep: it remains one. */
  lemma {:induction false} InsertInSweep(l: seq<Key>, x: Key)
    requires l != [] && Turns(l) == 0 && InOrder(l[0], x) && Fresh(l, x)
    ensures Turns(Inserted(l, x)) == 0
  {
    var r := Inserted(l, x);
    InsertedTail(l, x);
    if At(l, x) == 1 {
      assert r[1..][1..] == l[1..];
    } else {
      assert r[1..] == Inserted(l[1..], x);
      InsertInSweep(l[1..], x);
    }
  }

  /** A queue that turns back at most once still does after an insertion. */
  lemma {:induction false} InsertTurns(l: seq<Key>, x: Key)
    requires l != [] && Turns(l) <= 1 && Fresh(l, x)
    ensures Turns(Inserted(l, x)) <= 1
  {
    var r := Inserted(l, x);
    InsertedTail(l, x);
    if At(l, x) == 1 {
      assert r[1..] == [x] + l[1..] && r[1..][1..] == l[1..];
    } else {
      assert r[1..] == Inserted(l[1..], x);
      if InOrder(l[0], l[1]) {
        InsertTurns(l[1..], x);
      } else {
        InsertInSweep(l[1..], x);
      }
    }
  }

  /** No insertion adds a turn before an entry that is queued already. */
  lemma {:induction false} InsertBefore(l: seq<Key>, x: Key, i: nat)
    requires l != [] && Fresh(l, x) && i < |l|
    ensures var j := if i < At(l, x) then i else i + 1;
      Inserted(l, x)[j] == l[i] && TurnsTo(Inserted(l, x), j) <= TurnsTo(l, i)
  {
    var r := Inserted(l, x);
    InsertedTail(l, x);
    if i == 0 {
    } else {
      if At(l, x) == 1 {
        assert r[1..] == [x] + l[1..] && r[1..][1..] == l[1..];
      } else {
        assert r[1..] == Inserted(l[1..], x);
        InsertBefore(l[1..], x, i - 1);
      }
    }
  }

  lemma {:induction false} TurnsToLess(l: seq<Key>, i: nat)
    requires i < |l|
    ensures TurnsTo(l, i) <= Turns(l)
  {
    if i == 0 {
    } else {
      TurnsToLess(l[1..], i - 1);
    }
  }
}
