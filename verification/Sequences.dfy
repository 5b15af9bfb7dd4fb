/** Sequences without repetition: queues, chains and rings are such sequences of slots. */
module Sequences {

  ghost predicate Distinct(s: seq<nat>) {
    forall i, j | 0 <= i < j < |s| :: s[i] != s[j]
  }

  lemma DistinctAppend(a: seq<nat>, b: seq<nat>)
    requires Distinct(a) && Distinct(b) && forall z | z in a :: z !in b
    ensures Distinct(a + b)
  {
    forall i, j | 0 <= i < j < |a + b|
      ensures (a + b)[i] != (a + b)[j]
    {
      if i < |a| <= j {
        assert a[i] in a && b[j - |a|] in b;
      }
    }
  }

  /** The sequence without its k-th element. */
  lemma LeftOut(s: seq<nat>, k: nat)
    requires Distinct(s) && k < |s|
    ensures var s' := s[..k] + s[k + 1..];
      Distinct(s') && |s'| == |s| - 1 && forall i | 0 <= i < |s'| :: s'[i] == s[if i < k then i else i + 1]
  {
    var s' := s[..k] + s[k + 1..];
    forall i | 0 <= i < |s'|
      ensures s'[i] == s[if i < k then i else i + 1]
    {
    }
  }

  function Members(s: seq<nat>): (r: set<nat>)
    ensures forall a :: a in r <==> a in s
  {
    if s == [] then {} else Members(s[..|s| - 1]) + {s[|s| - 1]}
  }

  lemma {:induction false} DistinctCount(s: seq<nat>)
    requires Distinct(s)
    ensures |Members(s)| == |s|
  {
    if s == [] {
    } else {
      DistinctCount(s[..|s| - 1]);
    }
  }

  /** The place of x in s. */
  function Pos(s: seq<nat>, x: nat): (i: nat)
    requires x in s
    ensures i < |s| && s[i] == x
  {
    if s[0] == x then 0 else 1 + Pos(s[1..], x)
  }

  lemma {:induction false} PosIs(s: seq<nat>, i: nat)
    requires Distinct(s) && i < |s|
    ensures s[i] in s && Pos(s, s[i]) == i
  {
    if i == 0 {
    } else {
      assert s[0] != s[i] && s[1..][i - 1] == s[i];
      PosIs(s[1..], i - 1);
    }
  }
}
