/** copy_strings of fs/exec.c: the argument strings are put into up to 32 loose pages, from the end
    towards the front. */
module ExecImage {

  const PAGE_SIZE := 4096
  const MAX_ARG_PAGES := 32
  /** Where the strings end: the last word of the area stays free. */
  const END := PAGE_SIZE * MAX_ARG_PAGES - 4

  newtype byte = x: int | 0 <= x < 256

  /** A C string: without its terminating zero. */
  type Text = s: seq<byte> | 0 !in s

  /** The strings as they lie in memory, one behind the other. */
  function Flat(ss: seq<Text>): seq<byte> {
    if ss == [] then [] else ss[0] + [0] + Flat(ss[1..])
  }

  lemma {:induction false} FlatAppend(a: seq<Text>, b: seq<Text>)
    ensures Flat(a + b) == Flat(a) + Flat(b)
  {
    if a == [] {
      assert a + b == b;
    } else {
      FlatAppend(a[1..], b);
      assert (a + b)[1..] == a[1..] + b;
    }
  }

  lemma FlatFrom(ss: seq<Text>, i: nat, s: seq<byte>)
    requires i < |ss|
    ensures Flat(ss[i..]) + s == ss[i] + [0] + (Flat(ss[i + 1..]) + s)
    ensures |Flat(ss[i..])| == |ss[i]| + 1 + |Flat(ss[i + 1..])|
  {
    assert ss[i..][1..] == ss[i + 1..];
  }

  lemma {:induction false} FlatShort(ss: seq<Text>, i: nat)
    requires i <= |ss|
    ensures |Flat(ss[i..])| <= |Flat(ss)|
  {
    if i == 0 {
      assert ss[0..] == ss;
    } else {
      FlatShort(ss[1..], i - 1);
      assert ss[i..] == ss[1..][i - 1..];
    }
  }

  // ----- how many pages are needed -----

  /** The places from lo on that have no page. */
  function Gaps(pages: seq<nat>, lo: nat): nat
    decreases |pages| - lo
  {
    if lo >= |pages| then 0 else (if pages[lo] == 0 then 1 else 0) + Gaps(pages, lo + 1)
  }

  lemma {:induction false} GapsFewer(pages: seq<nat>, lo: nat, hi: nat)
    requires lo <= hi
    ensures Gaps(pages, hi) <= Gaps(pages, lo)
    decreases hi - lo
  {
    if lo == hi {
    } else {
      GapsFewer(pages, lo + 1, hi);
    }
  }

  lemma {:induction false} GapFilled(pages: seq<nat>, lo: nat, i: nat, pag: nat)
    requires lo <= i < |pages| && pages[i] == 0 && pag != 0
    ensures Gaps(pages[i := pag], lo) == Gaps(pages, lo) - 1
    decreases i - lo
  {
    if lo == i {
      SameGaps(pages, pages[i := pag], i + 1);
    } else {
      GapFilled(pages, lo + 1, i, pag);
    }
  }

  lemma {:induction false} SameGaps(pages: seq<nat>, pages': seq<nat>, lo: nat)
    requires |pages'| == |pages| && forall i | lo <= i < |pages| :: pages'[i] == pages[i]
    ensures Gaps(pages', lo) == Gaps(pages, lo)
    decreases |pages| - lo
  {
    if lo >= |pages| {
    } else {
      SameGaps(pages, pages', lo + 1);
    }
  }

  lemma {:induction false} NoGaps(pages: seq<nat>, lo: nat)
    requires forall i | lo <= i < |pages| :: pages[i] != 0
    ensures Gaps(pages, lo) == 0
    decreases |pages| - lo
  {
    if lo >= |pages| {
    } else {
      NoGaps(pages, lo + 1);
    }
  }

  lemma {:induction false} AllGaps(pages: seq<nat>, lo: nat)
    requires lo <= |pages| && forall i | lo <= i < |pages| :: pages[i] == 0
    ensures Gaps(pages, lo) == |pages| - lo
    decreases |pages| - lo
  {
    if lo == |pages| {
    } else {
      AllGaps(pages, lo + 1);
    }
  }

  /** The page in which n bytes below p begin; the first one, if there is no room for them. */
  function Lowest(p: nat, n: nat): nat {
    (if n < p then p - n else 0) / PAGE_SIZE
  }

  lemma LowestNone(n: nat)
    ensures Lowest(0, n) == 0
  {
  }

  lemma LowestPart(p: nat, m: nat, n: nat, total: nat)
    requires m + n <= total && m <= p
    ensures Lowest(p, total) <= Lowest(p - m, n)
  {
  }

  lemma LowestAt(p: nat, n: nat, q: nat)
    requires q <= p <= q + n
    ensures Lowest(p, n) <= q / PAGE_SIZE
  {
  }

  lemma LowestMore(p: nat, m: nat, n: nat)
    requires m <= n
    ensures Lowest(p, n) <= Lowest(p, m) <= p / PAGE_SIZE
    ensures m <= p ==> Lowest(p, n) == Lowest(p - m, n - m)
  {
  }

  function Ended(tmp: Text): (t: seq<byte>)
    ensures |t| == |tmp| + 1
  {
    tmp + [0]
  }

  lemma NothingYet(tmp: Text, rest: seq<byte>)
    ensures Ended(tmp)[|tmp| + 1..] + rest == rest && Ended(tmp)[0..] + rest == tmp + [0] + rest
  {
    assert Ended(tmp)[|tmp| + 1..] == [] && Ended(tmp)[0..] == Ended(tmp);
  }

  lemma OneMore(t: seq<byte>, i: nat, rest: seq<byte>)
    requires i < |t|
    ensures t[i..] + rest == [t[i]] + (t[i + 1..] + rest)
  {
    assert t[i..] == [t[i]] + t[i + 1..];
  }

  lemma StepDown(p: nat)
    requires p % PAGE_SIZE != 0
    ensures (p - 1) / PAGE_SIZE == p / PAGE_SIZE && (p - 1) % PAGE_SIZE == p % PAGE_SIZE - 1
  {
  }

  class ArgPages {
    /** The frame that holds the i-th page of the area, 0 for none. */
    const page: array<nat>
    var frame: map<nat, seq<byte>>
    /** The frames that get_free_page can give. */
    var pool: set<nat>
    ghost const all: set<nat>

    /** Frame f is free, or holds a page of the area. */
    ghost predicate Accounted(f: nat)
      reads `pool, page
    {
      f in pool || exists i :: 0 <= i < page.Length && page[i] == f
    }

    ghost predicate Valid()
      reads this, page
    {
      && page.Length == MAX_ARG_PAGES && 0 !in pool
      && (forall i | 0 <= i < MAX_ARG_PAGES && page[i] != 0 ::
            page[i] in frame && |frame[page[i]]| == PAGE_SIZE && page[i] !in pool && page[i] in all)
      && (forall i, j | 0 <= i < j < MAX_ARG_PAGES && page[i] != 0 :: page[i] != page[j])
      && pool <= all && 0 !in all
      && (forall f {:trigger Accounted(f)} | f in all :: Accounted(f))
    }

    predicate HasByte(x: int, b: byte)
      reads this, page
    {
      && 0 <= x < PAGE_SIZE * page.Length && page[x / PAGE_SIZE] in frame && page[x / PAGE_SIZE] != 0
      && |frame[page[x / PAGE_SIZE]]| == PAGE_SIZE && frame[page[x / PAGE_SIZE]][x % PAGE_SIZE] == b
    }

    /** The free frames that are left when all places from `low` on have their page; negative if there are
        too few. */
    ghost function Room(low: nat): int
      reads this, page
    {
      |pool| - Gaps(page[..], low)
    }

    ghost predicate NoPages()
      reads page
    {
      forall i | 0 <= i < page.Length :: page[i] == 0
    }

    /** From p to the end the area holds s. */
    ghost predicate Holds(p: int, s: seq<byte>)
      reads this, page
    {
      p + |s| == END && forall i | 0 <= i < |s| :: HasByte(p + i, s[i])
    }

    constructor (pages: set<nat>)
      requires 0 !in pages
      ensures Valid() && pool == pages == all && fresh(page) && Holds(END, []) && NoPages()
    {
      page := new nat[MAX_ARG_PAGES](_ => 0);
      frame, pool, all := map[], pages, pages;
    }

    /** A page for position i of the area, if there is none yet; false if memory has run out. */
    method NeedPage(i: nat, ghost low: nat) returns (pag: nat)
      requires Valid() && low <= i < MAX_ARG_PAGES
      modifies `frame, `pool, page
      ensures Valid() && pag == page[i] && Room(low) == old(Room(low)) && (pag == 0 ==> Room(low) < 0)
      ensures forall x, b | old(HasByte(x, b)) :: HasByte(x, b)
    {
      pag := page[i];
      if pag == 0 {
        if pool == {} {
          NoFrame(i, low);
          return;
        }
        pag :| pag in pool;
        ghost var pages := page[..];
        pool := pool - {pag};
        frame := frame[pag := seq(PAGE_SIZE, _ => 0)];
        page[i] := pag;
        GapFilled(pages, low, i, pag);
        assert page[..] == pages[i := pag];
        assert forall j | 0 <= j < MAX_ARG_PAGES && j != i :: page[j] == pages[j];
        forall x, b | old(HasByte(x, b))
          ensures HasByte(x, b)
        {
          assert page[x / PAGE_SIZE] == pages[x / PAGE_SIZE] != pag;
        }
        forall f | f in all
          ensures Accounted(f)
        {
          assert old(Accounted(f));
          if f == pag {
            assert page[i] == f;
          } else if f !in pool {
            var j :| 0 <= j < MAX_ARG_PAGES && pages[j] == f;
            assert page[j] == f;
          }
        }
      }
    }

    lemma NoFrame(i: nat, low: nat)
      requires Valid() && low <= i < MAX_ARG_PAGES && page[i] == 0 && pool == {}
      ensures Room(low) < 0
    {
      GapsFewer(page[..], low, i);
    }

    /** What holds bytes has pages. */
    lemma HoldsPages(p: nat, s: seq<byte>)
      requires Valid() && Holds(p, s) && s != []
      ensures Room(p / PAGE_SIZE) >= 0
    {
      forall i | p / PAGE_SIZE <= i < MAX_ARG_PAGES
        ensures page[i] != 0
      {
        var x := if PAGE_SIZE * i < p then p else PAGE_SIZE * i;
        assert HasByte(p + (x - p), s[x - p]) && x / PAGE_SIZE == i;
      }
      NoGaps(page[..], p / PAGE_SIZE);
    }

    /** *(pag + offset) = b */
    method Store(x: nat, b: byte)
      requires Valid() && x < PAGE_SIZE * MAX_ARG_PAGES && page[x / PAGE_SIZE] != 0
      modifies `frame
      ensures Valid() && HasByte(x, b)
      ensures forall y, c | old(HasByte(y, c)) && y != x :: HasByte(y, c)
    {
      var pag := page[x / PAGE_SIZE];
      frame := frame[pag := frame[pag][x % PAGE_SIZE := b]];
      forall y, c | old(HasByte(y, c)) && y != x
        ensures HasByte(y, c)
      {
        if page[y / PAGE_SIZE] == pag {
          assert y / PAGE_SIZE == x / PAGE_SIZE && y % PAGE_SIZE != x % PAGE_SIZE;
        }
      }
    }

    /** One more byte in front of those that the area holds. */
    method PutByte(x: nat, b: byte, ghost rest: seq<byte>)
      requires Valid() && Holds(x + 1, rest) && page[x / PAGE_SIZE] != 0
      modifies `frame
      ensures Valid() && Holds(x, [b] + rest)
    {
      Store(x, b);
      forall i | 0 <= i < |rest| + 1
        ensures HasByte(x + i, ([b] + rest)[i])
      {
        if i > 0 {
          assert old(HasByte(x + 1 + (i - 1), rest[i - 1]));
        }
      }
    }

    /** NeedPage does not disturb what the area holds. */
    method NeedPageFor(x: nat, ghost rest: seq<byte>, ghost low: nat) returns (ok: bool)
      requires Valid() && x < PAGE_SIZE * MAX_ARG_PAGES && Holds(x + 1, rest) && low <= x / PAGE_SIZE
      modifies `frame, `pool, page
      ensures Valid() && Holds(x + 1, rest) && (ok <==> page[x / PAGE_SIZE] != 0)
      ensures Room(low) == old(Room(low)) && (!ok ==> Room(low) < 0)
    {
      var pag := NeedPage(x / PAGE_SIZE, low);
      forall i | 0 <= i < |rest|
        ensures HasByte(x + 1 + i, rest[i])
      {
        assert old(HasByte(x + 1 + i, rest[i]));
      }
      ok := pag != 0;
    }

    /** copy_strings. The result is the new p; 0 if a page is missing, or if nothing is left of the area.
        `beyond` means that it goes on in front of the first page, where the source has no check that
        works. `low` can be any page that the strings do not go below. */
    method CopyStrings(argv: seq<Text>, p0: nat, ghost s: seq<byte>, ghost low: nat) returns (p: nat, beyond: bool)
      requires Valid() && (p0 != 0 ==> Holds(p0, s) && low <= Lowest(p0, |Flat(argv)|))
      modifies `frame, `pool, page
      ensures Valid() && Room(low) == old(Room(low)) && (p0 == 0 ==> p == 0 && !beyond && pool == old(pool))
      ensures var total := |Flat(argv)|;
        && (p != 0 ==> p == p0 - total && Holds(p, Flat(argv) + s))
        && (beyond ==> p == 0 && total > p0 > 0 && Room(low) >= 0)
        && (p == 0 && !beyond ==> p0 == 0 || total == p0 || (total > 0 && Room(low) < 0))
        && (p0 > 0 && total > 0 && low == Lowest(p0, total) ==>
              (beyond <==> total > p0 && Room(low) >= 0) && (p == 0 && !beyond <==> total == p0 || Room(low) < 0))
    {
      if p0 == 0 {
        return 0, false;
      }
      p, beyond := p0, false;
      var argc := |argv|;
      var offset := 0;
      ghost var area := s;
      assert argv[argc..] == [] && [] + s == s;
      while argc > 0
        invariant 0 <= argc <= |argv| && Valid() && !beyond && Room(low) == old(Room(low))
        invariant area == Flat(argv[argc..]) + s && Holds(p, area)
        invariant offset == 0 || Inside(p, offset)
      {
        argc := argc - 1;
        FlatFrom(argv, argc, s);
        FlatShort(argv, argc);
        LowestMore(p0, |Flat(argv[argc..])|, |Flat(argv)|);
        var ok;
        ok, beyond, p, offset := CopyString(argv[argc], p, offset, area, low);
        if !ok {
          return 0, beyond;
        }
        area := argv[argc] + [0] + area;
      }
      assert argv[0..] == argv;
      if area != [] {
        HoldsPages(p, area);
      }
    }

    /** p lies at `offset` of a page that is there. */
    predicate Inside(p: nat, offset: nat)
      reads page
    {
      offset == p % PAGE_SIZE && p / PAGE_SIZE < page.Length && page[p / PAGE_SIZE] != 0
    }

    /** The next byte in front of p > 0; when a page is entered, it may be missing. */
    method PutNext(p0: nat, offset0: nat, b: byte, ghost rest: seq<byte>, ghost low: nat) returns (ok: bool, offset: nat)
      requires Valid() && 0 < p0 <= END && Holds(p0, rest) && low <= (p0 - 1) / PAGE_SIZE
      requires offset0 == 0 || Inside(p0, offset0)
      modifies `frame, `pool, page
      ensures Valid() && Room(low) == old(Room(low)) && (!ok ==> Room(low) < 0)
      ensures ok ==> Holds(p0 - 1, [b] + rest) && Inside(p0 - 1, offset)
    {
      ok := true;
      if offset0 == 0 {
        offset := (p0 - 1) % PAGE_SIZE;
        ok := NeedPageFor(p0 - 1, rest, low);
        if !ok {
          return;
        }
      } else {
        StepDown(p0);
        offset := offset0 - 1;
      }
      PutByte(p0 - 1, b, rest);
    }

    /** The string's bytes from `len` on, and its zero, lie at p in front of the rest. */
    ghost predicate HoldsFrom(tmp: Text, len: nat, p: nat, offset: nat, rest: seq<byte>)
      reads this, page
    {
      && len <= |tmp| + 1 && Holds(p, Ended(tmp)[len..] + rest)
      && ((offset == 0 && len > |tmp|) || Inside(p, offset))
    }

    /** Byte `len` of a string and its zero, when the bytes behind it are there. */
    method PutOne(tmp: Text, len: nat, p: nat, offset0: nat, ghost rest: seq<byte>, ghost low: nat) returns (ok: bool, offset: nat)
      requires Valid() && len <= |tmp| && 0 < p <= END && HoldsFrom(tmp, len + 1, p, offset0, rest)
      requires low <= (p - 1) / PAGE_SIZE
      modifies `frame, `pool, page
      ensures Valid() && Room(low) == old(Room(low)) && (!ok ==> Room(low) < 0)
      ensures ok ==> HoldsFrom(tmp, len, p - 1, offset, rest) && Inside(p - 1, offset)
    {
      OneMore(Ended(tmp), len, rest);
      ok, offset := PutNext(p, offset0, if len < |tmp| then tmp[len] else 0, Ended(tmp)[len + 1..] + rest, low);
    }

    /** In front of the first page. */
    lemma AllPages(tmp: Text, len: nat, offset: nat, rest: seq<byte>)
      requires Valid() && HoldsFrom(tmp, len, 0, offset, rest)
      ensures Room(0) >= 0
    {
      HoldsPages(0, Ended(tmp)[len..] + rest);
    }

    /** One string, its last byte first. */
    method CopyString(tmp: Text, p0: nat, offset0: nat, ghost rest: seq<byte>, ghost low: nat)
      returns (ok: bool, beyond: bool, p: nat, offset: nat)
      requires Valid() && low <= Lowest(p0, |tmp| + 1) && p0 <= END && Holds(p0, rest)
      requires offset0 == 0 || Inside(p0, offset0)
      modifies `frame, `pool, page
      ensures Valid() && Room(low) == old(Room(low)) && (!ok && !beyond ==> Room(low) < 0)
      ensures beyond ==> !ok && |tmp| + 1 > p0 && Room(low) >= 0
      ensures ok ==> p == p0 - |tmp| - 1 && Holds(p, tmp + [0] + rest) && Inside(p, offset)
    {
      NothingYet(tmp, rest);
      var left;
      ok, p, offset, left := CopyBytes(tmp, p0, offset0, rest, low);
      beyond := ok && left > 0;
      if beyond {
        LowestMore(p0, p0, |tmp| + 1);
        LowestNone(|tmp| + 1 - p0);
        AllPages(tmp, left, offset, rest);
        ok := false;
      }
    }

    /** Its loop; `len` bytes are left at the front of the area. */
    method CopyBytes(tmp: Text, p0: nat, offset0: nat, ghost rest: seq<byte>, ghost low: nat)
      returns (ok: bool, p: nat, offset: nat, len: nat)
      requires Valid() && low <= Lowest(p0, |tmp| + 1) && p0 <= END && HoldsFrom(tmp, |tmp| + 1, p0, offset0, rest)
      modifies `frame, `pool, page
      ensures Valid() && Room(low) == old(Room(low)) && (!ok ==> Room(low) < 0)
      ensures ok ==> len <= |tmp| + 1 && p == p0 - (|tmp| + 1 - len) && (len > 0 ==> p == 0)
      ensures ok ==> HoldsFrom(tmp, len, p, offset, rest) && (len <= |tmp| ==> Inside(p, offset))
    {
      len := |tmp| + 1;
      ok, p, offset := true, p0, offset0;
      while len > 0 && p > 0
        invariant 0 <= len <= |tmp| + 1 && p == p0 - (|tmp| + 1 - len)
        invariant Valid() && ok && Room(low) == old(Room(low)) && HoldsFrom(tmp, len, p, offset, rest)
        invariant len <= |tmp| ==> Inside(p, offset)
      {
        len := len - 1;
        LowestAt(p0, |tmp| + 1, p - 1);
        ok, offset := PutOne(tmp, len, p, offset, rest, low);
        if !ok {
          return;
        }
        p := p - 1;
      }
    }

    /** The way out of a failed execve: all pages go back. */
    method FreePages()
      requires Valid()
      modifies `pool, page
      ensures Valid() && pool == all
    {
      var i := 0;
      while i < MAX_ARG_PAGES
        invariant 0 <= i <= MAX_ARG_PAGES && Valid() && forall j | 0 <= j < i :: page[j] == 0
      {
        if page[i] != 0 {
          ReturnPage(i);
        }
        i := i + 1;
      }
      forall f | f in all
        ensures f in pool
      {
        assert Accounted(f);
      }
    }

    method ReturnPage(i: nat)
      requires Valid() && i < MAX_ARG_PAGES && page[i] != 0
      modifies `pool, page
      ensures Valid() && page[i] == 0 && forall j | 0 <= j < MAX_ARG_PAGES && j != i :: page[j] == old(page[j])
    {
      ghost var pages := page[..];
      pool := pool + {page[i]};
      page[i] := 0;
      forall f | f in all
        ensures Accounted(f)
      {
        assert old(Accounted(f));
        if f !in pool {
          var j :| 0 <= j < MAX_ARG_PAGES && pages[j] == f;
          assert page[j] == f;
        }
      }
    }
  }

  /** n frames. */
  function Frames(n: nat): (r: set<nat>)
    ensures |r| == n && forall f | f in r :: 1 <= f <= n
  {
    if n == 0 then {} else Frames(n - 1) + {n}
  }

  function Ones(n: nat): (s: Text)
    ensures |s| == n
  {
    if n == 0 then [] else [1] + Ones(n - 1)
  }

  lemma LongText(s: Text)
    requires |s| == END
    ensures |Flat([s])| > END && Lowest(END, |Flat([s])|) == 0
  {
    assert [s][1..] == [];
  }

  /** A list that leaves the area although there is memory for all of it: one string that is as long as the
      area. */
  method TooLongExample() returns (beyond: bool)
    ensures beyond
  {
    var a := new ArgPages(Frames(MAX_ARG_PAGES));
    AllGaps(a.page[..], 0);
    beyond := LeftArea(a, Ones(END));
  }

  method LeftArea(a: ArgPages, s: Text) returns (beyond: bool)
    requires a.Valid() && a.Holds(END, []) && |s| == END && a.Room(0) >= 0
    modifies a, a.page
    ensures beyond
  {
    LongText(s);
    var _, away := a.CopyStrings([s], END, [], 0);
    beyond := away;
  }
}
