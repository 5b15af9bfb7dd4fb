/** create_tables of fs/exec.c: the tables of pointers to the argument strings, below the strings in
    the new program's memory. */
module ExecTables {
  import opened ExecImage

  /** User memory, as far as there is something in it. */
  type Memory = map<nat, byte>

  /** From address a on the memory holds s. */
  ghost predicate Lies(mem: Memory, a: nat, s: seq<byte>) {
    forall i: nat | i < |s| :: ByteIs(mem, a + i, s[i])
  }

  predicate ByteIs(mem: Memory, a: nat, b: byte) {
    a in mem && mem[a] == b
  }

  /** mem' is mem but for the addresses from lo to hi. */
  ghost predicate Outside(mem: Memory, mem': Memory, lo: nat, hi: nat) {
    forall a | a in mem && !(lo <= a < hi) :: a in mem' && mem'[a] == mem[a]
  }

  lemma LiesOutside(mem: Memory, mem': Memory, lo: nat, hi: nat, a: nat, s: seq<byte>)
    requires Lies(mem, a, s) && Outside(mem, mem', lo, hi) && (hi <= a || a + |s| <= lo)
    ensures Lies(mem', a, s)
  {
    forall i: nat | i < |s|
      ensures ByteIs(mem', a + i, s[i])
    {
      assert ByteIs(mem, a + i, s[i]);
    }
  }

  // ----- words of four bytes -----

  function Byte(v: nat, k: nat): byte
    requires v < 0x1_0000_0000
  {
    (match k case 0 => v % 256 case 1 => v / 256 % 256 case 2 => v / 65536 % 256 case _ => v / 16777216) as byte
  }

  predicate LongIs(mem: Memory, a: nat, v: nat) {
    && a in mem && a + 1 in mem && a + 2 in mem && a + 3 in mem
    && v == mem[a] as int + mem[a + 1] as int * 256 + mem[a + 2] as int * 65536 + mem[a + 3] as int * 16777216
  }

  lemma BytesOf(v: nat)
    requires v < 0x1_0000_0000
    ensures v == Byte(v, 0) as int + Byte(v, 1) as int * 256 + Byte(v, 2) as int * 65536 + Byte(v, 3) as int * 16777216
  {
  }

  lemma LongOutside(mem: Memory, mem': Memory, lo: nat, hi: nat, a: nat, v: nat)
    requires LongIs(mem, a, v) && Outside(mem, mem', lo, hi) && (hi <= a || a + 4 <= lo)
    ensures LongIs(mem', a, v)
  {
  }

  /** put_fs_long */
  method PutLong(mem0: Memory, v: nat, a: nat) returns (mem: Memory)
    requires v < 0x1_0000_0000
    ensures LongIs(mem, a, v) && Outside(mem0, mem, a, a + 4)
  {
    BytesOf(v);
    mem := mem0[a := Byte(v, 0)][a + 1 := Byte(v, 1)][a + 2 := Byte(v, 2)][a + 3 := Byte(v, 3)];
  }

  // ----- the tables -----

  /** Where the i-th string begins. */
  function AddrOf(ss: seq<Text>, p: nat, i: nat): nat
    requires i <= |ss|
  {
    p + |Flat(ss[..i])|
  }

  /** The first n pointers of a table. */
  ghost predicate Points(mem: Memory, table: nat, ss: seq<Text>, p: nat, n: nat)
    requires n <= |ss|
  {
    forall i | 0 <= i < n :: LongIs(mem, table + 4 * i, AddrOf(ss, p, i))
  }

  /** while (get_fs_byte(p++)) */
  method SkipString(mem: Memory, p0: nat, ghost s: Text) returns (p: nat)
    requires Lies(mem, p0, s + [0])
    ensures p == p0 + |s| + 1
  {
    p := p0;
    ghost var i := 0;
    assert (s + [0])[|s|] == 0;
    while p in mem && mem[p] != 0
      invariant 0 <= i <= |s| && p == p0 + i
      decreases |s| - i
    {
      assert ByteIs(mem, p0 + i, (s + [0])[i]);
      i := i + 1;
      p := p + 1;
    }
    assert ByteIs(mem, p0 + i, (s + [0])[i]);
    p := p + 1;
  }

  lemma Regroup(a: seq<byte>, b: seq<byte>, c: seq<byte>, d: seq<byte>)
    ensures a + (b + c) + d == a + b + (c + d)
  {
  }

  lemma StringAt(mem: Memory, p: nat, ss: seq<Text>, rest: seq<byte>, i: nat)
    requires Lies(mem, p, Flat(ss) + rest) && i < |ss|
    ensures Lies(mem, AddrOf(ss, p, i), ss[i] + [0]) && AddrOf(ss, p, i + 1) == AddrOf(ss, p, i) + |ss[i]| + 1
    ensures AddrOf(ss, p, i + 1) <= p + |Flat(ss)|
  {
    var a, b := Flat(ss[..i]), Flat(ss[i + 1..]);
    assert ss == ss[..i] + ss[i..] && ss[..i + 1] == ss[..i] + [ss[i]];
    FlatAppend(ss[..i], ss[i..]);
    FlatAppend(ss[..i], [ss[i]]);
    FlatFrom(ss, i, []);
    assert Flat([ss[i]]) == ss[i] + [0] + Flat([]);
    assert Flat(ss[i..]) + [] == Flat(ss[i..]) && b + [] == b;
    var t := ss[i] + [0];
    Regroup(a, t, b, rest);
    LiesPart(mem, p, a, t, b + rest);
  }

  /** One of the two loops of create_tables: pointers to n strings, and a null pointer. */
  method FillTable(mem0: Memory, table: nat, p0: nat, n: nat, ghost ss: seq<Text>, ghost rest: seq<byte>)
      returns (mem: Memory, p: nat)
    requires n == |ss| && table + 4 * (n + 1) <= p0 && p0 + |Flat(ss)| < 0x1_0000_0000
    requires Lies(mem0, p0, Flat(ss) + rest)
    ensures p == p0 + |Flat(ss)| && Points(mem, table, ss, p0, n) && LongIs(mem, table + 4 * n, 0)
    ensures Outside(mem0, mem, table, table + 4 * (n + 1))
  {
    mem, p := mem0, p0;
    var i := 0;
    while i < n
      invariant 0 <= i <= n && p == AddrOf(ss, p0, i) && Points(mem, table, ss, p0, i)
      invariant Outside(mem0, mem, table, table + 4 * i)
    {
      LiesOutside(mem0, mem, table, table + 4 * i, p0, Flat(ss) + rest);
      StringAt(mem, p0, ss, rest, i);
      ghost var before := mem;
      mem := PutLong(mem, p, table + 4 * i);
      PointsMore(before, mem, table, ss, p0, i);
      LiesOutside(before, mem, table + 4 * i, table + 4 * i + 4, AddrOf(ss, p0, i), ss[i] + [0]);
      p := SkipString(mem, p, ss[i]);
      i := i + 1;
    }
    assert ss[..n] == ss;
    ghost var before := mem;
    mem := PutLong(mem, 0, table + 4 * n);
    PointsKept(before, mem, table + 4 * n, table + 4 * n + 4, table, ss, p0, n);
  }

  lemma PointsKept(mem: Memory, mem': Memory, lo: nat, hi: nat, table: nat, ss: seq<Text>, p: nat, n: nat)
    requires n <= |ss| && Points(mem, table, ss, p, n) && Outside(mem, mem', lo, hi) && (hi <= table || table + 4 * n <= lo)
    ensures Points(mem', table, ss, p, n)
  {
    forall i | 0 <= i < n
      ensures LongIs(mem', table + 4 * i, AddrOf(ss, p, i))
    {
      LongOutside(mem, mem', lo, hi, table + 4 * i, AddrOf(ss, p, i));
    }
  }

  lemma PointsMore(mem: Memory, mem': Memory, table: nat, ss: seq<Text>, p: nat, n: nat)
    requires n < |ss| && Points(mem, table, ss, p, n) && Outside(mem, mem', table + 4 * n, table + 4 * n + 4)
    requires LongIs(mem', table + 4 * n, AddrOf(ss, p, n))
    ensures Points(mem', table, ss, p, n + 1)
  {
    PointsKept(mem, mem', table + 4 * n, table + 4 * n + 4, table, ss, p, n);
  }

  /** At sp: the number of arguments and the two tables' addresses; then the tables; then, perhaps
      after some unused bytes, the strings at p. */
  ghost predicate TablesOk(mem: Memory, sp: nat, p: nat, args: seq<Text>, envs: seq<Text>) {
    var argv := sp + 12;
    var envp := argv + 4 * (|args| + 1);
    && LongIs(mem, sp, |args|) && LongIs(mem, sp + 4, argv) && LongIs(mem, sp + 8, envp)
    && Points(mem, argv, args, p, |args|) && LongIs(mem, argv + 4 * |args|, 0)
    && Points(mem, envp, envs, p + |Flat(args)|, |envs|) && LongIs(mem, envp + 4 * |envs|, 0)
    && p - 4 < envp + 4 * (|envs| + 1) <= p && sp % 4 == 0
    && Lies(mem, p, Flat(args) + Flat(envs))
  }

  /** Room for the tables. */
  predicate Room(p: nat, n: nat) {
    4 * n + 24 <= p
  }

  /** create_tables */
  method CreateTables(mem0: Memory, p0: nat, argc: nat, envc: nat, ghost args: seq<Text>, ghost envs: seq<Text>)
      returns (mem: Memory, sp: nat)
    requires argc == |args| && envc == |envs| && Lies(mem0, p0, Flat(args) + Flat(envs)) && Room(p0, argc + envc)
    requires p0 + |Flat(args)| + |Flat(envs)| < 0x1_0000_0000
    ensures TablesOk(mem, sp, p0, args, envs)
  {
    ghost var strings := Flat(args) + Flat(envs);
    sp := p0 - p0 % 4;
    sp := sp - 4 * (envc + 1);
    var envp := sp;
    sp := sp - 4 * (argc + 1);
    var argv := sp;
    var m3;
    m3, sp := PutHeader(mem0, sp, envp, argc);
    LiesOutside(mem0, m3, sp, argv, p0, strings);
    var m4, p1 := FillTable(m3, argv, p0, argc, args, Flat(envs));
    LiesOutside(m3, m4, argv, envp, p0, strings);
    EnvLies(m4, p0, Flat(args), Flat(envs));
    var p2;
    mem, p2 := FillTable(m4, envp, p1, envc, envs, []);
    assert sp == 4 * (p0 / 4 - argc - envc - 5);
    Multiple(p0 / 4 - argc - envc - 5);
    ghost var end := envp + 4 * (envc + 1);
    FirstTableKept(m4, mem, argv, envp, end, p0, args, strings);
    OutsideBoth(m3, m4, mem, argv, envp, end);
    HeaderKept(m3, mem, argv, envp, argc, end);
  }

  /** Filling the second table leaves the first one, and the strings, as they are. */
  lemma FirstTableKept(m4: Memory, mem: Memory, argv: nat, envp: nat, end: nat, p: nat, args: seq<Text>, strings: seq<byte>)
    requires envp == argv + 4 * |args| + 4 && end <= p && Outside(m4, mem, envp, end)
    requires Points(m4, argv, args, p, |args|) && LongIs(m4, argv + 4 * |args|, 0) && Lies(m4, p, strings)
    ensures Points(mem, argv, args, p, |args|) && LongIs(mem, argv + 4 * |args|, 0) && Lies(mem, p, strings)
  {
    PointsKept(m4, mem, envp, end, argv, args, p, |args|);
    LiesOutside(m4, mem, envp, end, p, strings);
    LongOutside(m4, mem, envp, end, argv + 4 * |args|, 0);
  }

  lemma OutsideBoth(m1: Memory, m2: Memory, m3: Memory, lo: nat, mid: nat, hi: nat)
    requires lo <= mid <= hi && Outside(m1, m2, lo, mid) && Outside(m2, m3, mid, hi)
    ensures Outside(m1, m3, lo, hi)
  {
  }

  lemma HeaderKept(mem: Memory, mem': Memory, argv: nat, envp: nat, argc: nat, end: nat)
    requires argv >= 12 && Outside(mem, mem', argv, end)
    requires LongIs(mem, argv - 12, argc) && LongIs(mem, argv - 8, argv) && LongIs(mem, argv - 4, envp)
    ensures LongIs(mem', argv - 12, argc) && LongIs(mem', argv - 8, argv) && LongIs(mem', argv - 4, envp)
  {
    LongOutside(mem, mem', argv, end, argv - 12, argc);
    LongOutside(mem, mem', argv, end, argv - 8, argv);
    LongOutside(mem, mem', argv, end, argv - 4, envp);
  }

  /** The three words below the tables. */
  method PutHeader(mem0: Memory, argv: nat, envp: nat, argc: nat) returns (mem: Memory, sp: nat)
    requires 12 <= argv <= envp < 0x1_0000_0000 && argc < 0x1_0000_0000
    ensures sp == argv - 12 && Outside(mem0, mem, sp, argv)
    ensures LongIs(mem, sp, argc) && LongIs(mem, sp + 4, argv) && LongIs(mem, sp + 8, envp)
  {
    sp := argv - 4;
    var m1 := PutLong(mem0, envp, sp);
    sp := sp - 4;
    var m2 := PutLong(m1, argv, sp);
    LongOutside(m1, m2, sp, sp + 4, sp + 4, envp);
    sp := sp - 4;
    mem := PutLong(m2, argc, sp);
    LongOutside(m2, mem, sp, sp + 4, sp + 8, envp);
    LongOutside(m2, mem, sp, sp + 4, sp + 4, argv);
  }

  lemma EnvLies(mem: Memory, p: nat, a: seq<byte>, b: seq<byte>)
    requires Lies(mem, p, a + b)
    ensures Lies(mem, p + |a|, b + [])
  {
    assert a + b == a + b + [] && b + [] == b;
    LiesPart(mem, p, a, b, []);
  }

  lemma LiesPart(mem: Memory, p: nat, a: seq<byte>, b: seq<byte>, c: seq<byte>)
    requires Lies(mem, p, a + b + c)
    ensures Lies(mem, p + |a|, b)
  {
    forall i: nat | i < |b|
      ensures ByteIs(mem, p + |a| + i, b[i])
    {
      var j := |a| + i;
      assert (a + b + c)[j] == b[i];
      assert ByteIs(mem, p + j, (a + b + c)[j]);
    }
  }

  lemma Multiple(k: nat)
    ensures 4 * k % 4 == 0
  {
  }

  /** The word at `at` is the address, not below p, of the string s. */
  ghost predicate LeadsTo(mem: Memory, at: nat, p: nat, s: Text) {
    exists a: nat :: LongIs(mem, at, a) && a >= p && Lies(mem, a, s + [0])
  }

  /** The reading of the tables: every pointer leads to its string. */
  lemma ArgumentsFound(mem: Memory, sp: nat, p: nat, args: seq<Text>, envs: seq<Text>)
    requires TablesOk(mem, sp, p, args, envs)
    ensures forall i | 0 <= i < |args| :: LeadsTo(mem, sp + 12 + 4 * i, p, args[i])
    ensures forall i | 0 <= i < |envs| :: LeadsTo(mem, sp + 12 + 4 * (|args| + 1) + 4 * i, p, envs[i])
  {
    forall i | 0 <= i < |args|
      ensures LeadsTo(mem, sp + 12 + 4 * i, p, args[i])
    {
      EntryFound(mem, sp + 12, p, args, Flat(envs), i);
    }
    EnvLies(mem, p, Flat(args), Flat(envs));
    forall i | 0 <= i < |envs|
      ensures LeadsTo(mem, sp + 12 + 4 * (|args| + 1) + 4 * i, p, envs[i])
    {
      EntryFound(mem, sp + 12 + 4 * (|args| + 1), p + |Flat(args)|, envs, [], i);
    }
  }

  lemma EntryFound(mem: Memory, table: nat, p: nat, ss: seq<Text>, rest: seq<byte>, i: nat)
    requires i < |ss| && Points(mem, table, ss, p, |ss|) && Lies(mem, p, Flat(ss) + rest)
    ensures LeadsTo(mem, table + 4 * i, p, ss[i])
  {
    StringAt(mem, p, ss, rest, i);
    assert LongIs(mem, table + 4 * i, AddrOf(ss, p, i));
  }
}
