/** do_execve's handling of arguments (fs/exec.c): with the interpreter line of a script, through the
    argument pages, into the new program's memory. */
module Exec {
  import opened ExecImage
  import opened ExecTables

  const DATA_LIMIT := 0x400_0000
  /** Where the argument area begins in user memory. */
  const AREA := DATA_LIMIT - PAGE_SIZE * MAX_ARG_PAGES

  const NEWLINE: byte := 10
  const TAB: byte := 9
  const SPACE: byte := 32
  const SLASH: byte := 47

  datatype Option<T> = None | Some(value: T)

  /** The interpreter line: its path, the last component of that, and an argument. */
  datatype Bang = Bang(interp: Text, name: Text, arg: Option<Text>)

  predicate Blank(b: byte) {
    b == SPACE || b == TAB
  }

  // ----- the interpreter line -----

  /** line is blanks, the interpreter's path, and perhaps one more blank and the argument; the name is
      what comes after the last slash of the path. */
  ghost predicate IsBang(line: seq<byte>, b: Bang) {
    && (exists lead :: 0 <= lead <= |line| && (forall i | 0 <= i < lead :: Blank(line[i])) && Split(line[lead..], b))
    && b.interp != [] && (forall i | 0 <= i < |b.interp| :: !Blank(b.interp[i]))
    && |b.name| <= |b.interp| && b.name == b.interp[|b.interp| - |b.name|..] && SLASH !in b.name
    && (|b.name| < |b.interp| ==> b.interp[|b.interp| - |b.name| - 1] == SLASH)
  }

  ghost predicate Split(s: seq<byte>, b: Bang) {
    match b.arg
    case None => s == b.interp
    case Some(arg) => exists c :: Blank(c) && s == b.interp + [c] + arg
  }

  method ParseBang(buf: Text) returns (r: Option<Bang>)
    ensures r.Some? ==> exists n :: 0 <= n < |buf| && buf[n] == NEWLINE && NEWLINE !in buf[..n] && IsBang(buf[..n], r.value)
    ensures r.None? <==> NEWLINE !in buf || exists n :: 0 <= n < |buf| && buf[n] == NEWLINE && forall i | 0 <= i < n :: Blank(buf[i])
  {
    var n := 0;
    while n < |buf| && buf[n] != NEWLINE
      invariant 0 <= n <= |buf| && NEWLINE !in buf[..n]
    {
      n := n + 1;
    }
    if n == |buf| {
      return None;
    }
    var line: Text := buf[..n];
    var cp := 0;
    while cp < n && Blank(line[cp])
      invariant 0 <= cp <= n && forall i | 0 <= i < cp :: Blank(line[i])
    {
      cp := cp + 1;
    }
    if cp == n {
      return None;
    }
    var b := Parts(line, cp);
    assert IsBang(line, b);
    r := Some(b);
  }

  /** Where the path ends, and where its last component begins. */
  ghost predicate PathIs(line: Text, start: nat, name: nat, cp: nat) {
    && start <= name <= cp <= |line|
    && (forall i | start <= i < cp :: !Blank(line[i]))
    && SLASH !in line[name..cp] && (name > start ==> line[name - 1] == SLASH)
  }

  method PathEnd(line: Text, start: nat) returns (cp: nat, i_name: nat)
    requires start < |line| && !Blank(line[start])
    ensures start < cp && PathIs(line, start, i_name, cp) && (cp < |line| ==> Blank(line[cp]))
  {
    cp, i_name := start, start;
    while cp < |line| && !Blank(line[cp])
      invariant PathIs(line, start, i_name, cp)
    {
      if line[cp] == SLASH {
        i_name := cp + 1;
      }
      cp := cp + 1;
    }
  }

  lemma SplitAt(line: Text, start: nat, name: nat, cp: nat, b: Bang)
    requires start < cp && PathIs(line, start, name, cp) && (cp < |line| ==> Blank(line[cp]))
    requires b.interp == line[start..cp] && b.name == line[name..cp]
    requires match b.arg case None => cp == |line| case Some(arg) => cp < |line| && arg == line[cp + 1..]
    ensures Split(line[start..], b) && b.name == b.interp[|b.interp| - |b.name|..]
  {
    if cp < |line| {
      assert line[start..] == b.interp + [line[cp]] + line[cp + 1..];
    } else {
      assert line[start..] == b.interp;
    }
  }

  lemma PartsAre(line: Text, start: nat, name: nat, cp: nat, b: Bang)
    requires start < cp && PathIs(line, start, name, cp) && forall i | 0 <= i < start :: Blank(line[i])
    requires b.interp == line[start..cp] && b.name == line[name..cp] && Split(line[start..], b)
    requires b.name == b.interp[|b.interp| - |b.name|..]
    ensures IsBang(line, b)
  {
  }

  /** The path from `start` on, and what follows it. */
  method Parts(line: Text, start: nat) returns (b: Bang)
    requires start < |line| && !Blank(line[start]) && forall i | 0 <= i < start :: Blank(line[i])
    ensures IsBang(line, b)
  {
    var cp, i_name := PathEnd(line, start);
    b := Bang(line[start..cp], line[i_name..cp], None);
    if cp < |line| {
      b := b.(arg := Some(line[cp + 1..]));
    }
    SplitAt(line, start, i_name, cp, b);
    PartsAre(line, start, i_name, cp, b);
  }

  // ----- the list of strings -----

  function Rest(argv: seq<Text>): seq<Text> {
    if argv == [] then [] else argv[1..]
  }

  /** The arguments of the new program: for a script the interpreter's name, its argument, the script,
      and the script's arguments. */
  function NewArgs(argv: seq<Text>, filename: Text, bang: Option<Bang>): seq<Text> {
    match bang
    case None => argv
    case Some(b) => [b.name] + (match b.arg case None => [] case Some(a) => [a]) + [filename] + Rest(argv)
  }

  /** Its arguments one by one: the first argument of the call is gone, the others come behind the script's name,
      each at its place. */
  lemma NewArgsAre(argv: seq<Text>, filename: Text, b: Bang)
    ensures var args, k := NewArgs(argv, filename, Some(b)), if b.arg.Some? then 3 else 2;
      && |args| == k + (if argv == [] then 0 else |argv| - 1)
      && args[0] == b.name && args[k - 1] == filename && (b.arg.Some? ==> args[1] == b.arg.value)
      && forall i | 1 <= i < |argv| :: args[k + i - 1] == argv[i]
  {
  }

  /** What do_execve counts as argc: for a script one less than argv had, and then one for each string
      that it puts in front. */
  function Argc(argv: seq<Text>, bang: Option<Bang>): int {
    match bang
    case None => |argv|
    case Some(b) => |argv| - 1 + 1 + (if b.arg.Some? then 1 else 0) + 1
  }

  /** The count is that of the new arguments unless a script is executed with an empty argument list:
      then the last argument becomes the first string of the environment. */
  lemma CountRight(argv: seq<Text>, filename: Text, bang: Option<Bang>, envp: seq<Text>)
    ensures var all, argc := NewArgs(argv, filename, bang) + envp, Argc(argv, bang);
      && 0 <= argc && argc + |envp| <= |all|
      && ((all[..argc] == NewArgs(argv, filename, bang) && all[argc..argc + |envp|] == envp) <==> bang.None? || argv != [])
  {
    var n, all := NewArgs(argv, filename, bang), NewArgs(argv, filename, bang) + envp;
    if bang.None? || argv != [] {
      assert |n| == Argc(argv, bang);
      assert all[..|n|] == n && all[|n|..|n| + |envp|] == envp;
    } else {
      assert |n| == Argc(argv, bang) + 1;
    }
  }

  /** Such a case: a script with no arguments at all, and one environment string. The script's name is not
      among the arguments, and is the whole environment. */
  lemma CountExample(b: Bang, filename: Text, env: Text)
    requires b.arg.None?
    ensures var all, argc := NewArgs([], filename, Some(b)) + [env], Argc([], Some(b));
      NewArgs([], filename, Some(b)) == [b.name, filename] && all[..argc] == [b.name] && all[argc..argc + 1] == [filename]
  {
    assert NewArgs([], filename, Some(b)) + [env] == [b.name, filename, env];
  }

  // ----- execve -----

  lemma {:induction false} FlatLong(ss: seq<Text>)
    ensures |ss| <= |Flat(ss)|
  {
    if ss == [] {
    } else {
      FlatLong(ss[1..]);
    }
  }

  /** All strings go into the pages, the last one first. 0 means that there is no memory, or that nothing is
      left of the area; `beyond`, that the strings do not fit and the copy leaves the area. */
  method CopyAll(a: ArgPages, argv: seq<Text>, envp: seq<Text>, filename: Text, bang: Option<Bang>)
    returns (p: nat, argc: int, beyond: bool)
    requires a.Valid() && a.Holds(END, [])
    modifies a, a.page
    ensures a.Valid() && argc == Argc(argv, bang)
    ensures var total := Total(NewArgs(argv, filename, bang), envp);
      && (beyond ==> p == 0 && total > END)
      && (p != 0 <==> total < END && (total == 0 || old(a.Room(Lowest(END, total))) >= 0))
      && (p != 0 ==> p == END - total && a.Holds(p, Flat(NewArgs(argv, filename, bang) + envp)))
  {
    ghost var args, total := NewArgs(argv, filename, bang), Total(NewArgs(argv, filename, bang), envp);
    ghost var low := Lowest(END, total);
    FlatAppend(args, envp);
    argc := Argc(argv, bang);
    LowestPart(END, 0, |Flat(envp)|, total);
    p, beyond := a.CopyStrings(envp, END, [], low);
    assert Flat(envp) + [] == Flat(envp);
    if !beyond {
      LowestPart(END, Min(END, |Flat(envp)|), |Flat(args)|, total);
      match bang {
        case None => p, beyond := a.CopyStrings(argv, p, Flat(envp), low);
        case Some(b) => p, argc, beyond := CopyScript(a, argv, Flat(envp), filename, b, p, low);
      }
    }
    if p != 0 && total > 0 {
      a.HoldsPages(p, Flat(args + envp));
    }
  }

  function Min(a: nat, b: nat): nat {
    if a < b then a else b
  }

  /** The length of all strings. */
  function Total(args: seq<Text>, envp: seq<Text>): nat {
    |Flat(args)| + |Flat(envp)|
  }

  /** One more string, the copy having got to p of p0: m bytes are in front of `env`. */
  method CopyOne(a: ArgPages, text: Text, p0: nat, p: nat, ghost s: seq<byte>, ghost m: nat, ghost total: nat, ghost low: nat)
    returns (p': nat, beyond: bool)
    requires a.Valid() && m + |text| + 1 <= total && p <= p0
    requires p != 0 ==> p == p0 - m && a.Holds(p, s) && low <= Lowest(p0, total)
    modifies a, a.page
    ensures a.Valid() && a.Room(low) == old(a.Room(low)) && (p == 0 ==> p' == 0 && !beyond && a.pool == old(a.pool))
    ensures beyond ==> p' == 0 && m + |text| + 1 > p0 > 0
    ensures p' == 0 && !beyond ==> p == 0 || m + |text| + 1 == p0 || a.Room(low) < 0
    ensures p' != 0 ==> p' == p0 - (m + |text| + 1) && a.Holds(p', text + [0] + s)
  {
    FlatOne(text);
    if p != 0 {
      LowestPart(p0, m, |text| + 1, total);
    }
    p', beyond := a.CopyStrings([text], p, s, low);
  }

  lemma FlatOne(text: Text)
    ensures Flat([text]) == text + [0]
  {
    assert [text][1..] == [];
  }

  /** The strings of a script's call. */
  method CopyScript(a: ArgPages, argv: seq<Text>, ghost env: seq<byte>, filename: Text, b: Bang, p0: nat, ghost low: nat)
    returns (p: nat, argc: int, beyond: bool)
    requires a.Valid() && p0 <= END && (p0 != 0 ==> a.Holds(p0, env) && low <= Lowest(p0, |Flat(NewArgs(argv, filename, Some(b)))|))
    modifies a, a.page
    ensures a.Valid() && a.Room(low) == old(a.Room(low)) && argc == Argc(argv, Some(b))
    ensures var args := Flat(NewArgs(argv, filename, Some(b)));
      && (beyond ==> p == 0 && |args| > p0 > 0)
      && (p == 0 && !beyond ==> p0 == 0 || |args| >= p0 || a.Room(low) < 0)
      && (p != 0 ==> |args| < p0 && p == p0 - |args| && a.Holds(p, args + env))
    ensures p0 == 0 ==> p == 0 && a.pool == old(a.pool)
  {
    ghost var total, m := |Flat(NewArgs(argv, filename, Some(b)))|, |Flat(Rest(argv))|;
    ScriptFlat(argv, filename, b, env);
    argc := |argv| - 1;
    LowestPart(p0, 0, m, total);
    p, beyond := a.CopyStrings(Rest(argv), p0, env, low);
    p, argc, beyond := CopyHead(a, filename, b, p0, p, argc, beyond, Flat(Rest(argv)) + env, m, total, low);
  }

  /** The strings in front of the arguments. */
  method CopyHead(a: ArgPages, filename: Text, b: Bang, p0: nat, p1: nat, argc0: int, beyond0: bool,
      ghost s: seq<byte>, ghost m: nat, ghost total: nat, ghost low: nat)
    returns (p: nat, argc: int, beyond: bool)
    requires a.Valid() && m + |Head(filename, b, [])| == total && p1 <= p0
    requires p0 != 0 ==> low <= Lowest(p0, total)
    requires (p1 != 0 ==> p1 == p0 - m && a.Holds(p1, s)) && (beyond0 ==> p1 == 0 && m > p0 > 0)
    modifies a, a.page
    ensures a.Valid() && a.Room(low) == old(a.Room(low)) && argc == argc0 + 1 + (if b.arg.Some? then 1 else 0) + 1
    ensures beyond ==> p == 0 && total > p0 > 0
    ensures p == 0 && !beyond ==> (p1 == 0 && !beyond0) || total >= p0 || a.Room(low) < 0
    ensures p != 0 ==> p == p0 - total && a.Holds(p, Head(filename, b, s))
    ensures p1 == 0 ==> p == 0 && a.pool == old(a.pool)
  {
    ghost var s1, m1 := filename + [0] + s, m + |filename| + 1;
    p, argc, beyond := p1, argc0, beyond0;
    if !beyond {
      p, beyond := CopyOne(a, filename, p0, p, s, m, total, low);
    }
    argc := argc + 1;
    if b.arg.Some? {
      if !beyond {
        p, beyond := CopyOne(a, b.arg.value, p0, p, s1, m1, total, low);
      }
      argc := argc + 1;
      s1, m1 := b.arg.value + [0] + s1, m1 + |b.arg.value| + 1;
    }
    if !beyond {
      p, beyond := CopyOne(a, b.name, p0, p, s1, m1, total, low);
    }
    argc := argc + 1;
  }

  /** The script's name and the interpreter's argument in front of s, and its name in front of those. */
  ghost function Behind(filename: Text, arg: Option<Text>, s: seq<byte>): seq<byte> {
    match arg case None => filename + [0] + s case Some(a) => a + [0] + (filename + [0] + s)
  }

  ghost function Head(filename: Text, b: Bang, s: seq<byte>): seq<byte> {
    b.name + [0] + Behind(filename, b.arg, s)
  }

  lemma FlatFront(text: Text, rest: seq<Text>, env: seq<byte>)
    ensures Flat([text] + rest) + env == text + [0] + (Flat(rest) + env)
    ensures |Flat([text] + rest)| == |text| + 1 + |Flat(rest)|
  {
    assert ([text] + rest)[1..] == rest;
  }

  lemma ScriptArgs(argv: seq<Text>, filename: Text, b: Bang)
    ensures NewArgs(argv, filename, Some(b)) == [b.name] + Tail(argv, filename, b.arg)
    ensures b.arg.Some? ==> Tail(argv, filename, b.arg) == [b.arg.value] + Tail(argv, filename, None)
  {
  }

  /** The arguments behind the interpreter's name. */
  function Tail(argv: seq<Text>, filename: Text, arg: Option<Text>): seq<Text> {
    match arg
    case None => [filename] + Rest(argv)
    case Some(a) => [a] + ([filename] + Rest(argv))
  }

  lemma TailFlat(argv: seq<Text>, filename: Text, arg: Option<Text>, env: seq<byte>)
    ensures Flat(Tail(argv, filename, arg)) + env == Behind(filename, arg, Flat(Rest(argv)) + env)
    ensures |Flat(Tail(argv, filename, arg))| == |Flat(Rest(argv))| + |Behind(filename, arg, [])|
  {
    FlatFront(filename, Rest(argv), env);
    if arg.Some? {
      FlatFront(arg.value, [filename] + Rest(argv), env);
    }
  }

  lemma ScriptFlat(argv: seq<Text>, filename: Text, b: Bang, env: seq<byte>)
    ensures Flat(NewArgs(argv, filename, Some(b))) + env == Head(filename, b, Flat(Rest(argv)) + env)
    ensures |Flat(NewArgs(argv, filename, Some(b)))| == |Flat(Rest(argv))| + |Head(filename, b, [])|
  {
    ScriptArgs(argv, filename, b);
    TailFlat(argv, filename, b.arg, env);
    FlatFront(b.name, Tail(argv, filename, b.arg), env);
  }

  /** change_ldt: page i of the area becomes the page at its place below the data limit. */
  method Place(a: ArgPages) returns (mem: Memory)
    requires a.Valid()
    ensures forall x: nat, b | a.HasByte(x, b) :: ByteIs(mem, AREA + x, b)
  {
    mem := map[];
    var data_base := DATA_LIMIT;
    var i := MAX_ARG_PAGES;
    while i > 0
      invariant 0 <= i <= MAX_ARG_PAGES && data_base == AREA + PAGE_SIZE * i
      invariant forall x: nat, b | a.HasByte(x, b) && x >= PAGE_SIZE * i :: ByteIs(mem, AREA + x, b)
    {
      i := i - 1;
      data_base := data_base - PAGE_SIZE;
      if a.page[i] != 0 {
        mem := PutPage(mem, a.frame[a.page[i]], data_base);
      }
      forall x: nat, b | a.HasByte(x, b) && x >= PAGE_SIZE * i
        ensures ByteIs(mem, AREA + x, b)
      {
        if x < PAGE_SIZE * (i + 1) {
          assert x / PAGE_SIZE == i;
        }
      }
    }
  }

  method PutPage(mem0: Memory, frame: seq<byte>, base: nat) returns (mem: Memory)
    requires |frame| == PAGE_SIZE
    ensures Outside(mem0, mem, base, base + PAGE_SIZE)
    ensures forall k: nat | k < PAGE_SIZE :: ByteIs(mem, base + k, frame[k])
  {
    mem := mem0;
    var k := 0;
    while k < PAGE_SIZE
      invariant 0 <= k <= PAGE_SIZE && Outside(mem0, mem, base, base + k)
      invariant forall j: nat | j < k :: ByteIs(mem, base + j, frame[j])
    {
      mem := mem[base + k := frame[k]];
      k := k + 1;
    }
  }

  /** `Beyond`: the strings went in front of the argument pages; what happens then is not modelled. */
  datatype Outcome = NoMemory | Beyond | Started(mem: Memory, sp: nat, p: nat)

  /** The arguments' way through execve: argument pages, placement, tables. A program is started exactly if
      its strings fit. The two tables at sp then lead to argc and |envp| strings, in order, of the new argument list and the
      environment. Without memory, or if the strings just fill the area, all pages are given back. Only
      strings that do not fit leave it. */
  method Execve(a: ArgPages, argv: seq<Text>, envp: seq<Text>, filename: Text, bang: Option<Bang>) returns (r: Outcome)
    requires a.Valid() && a.Holds(END, []) && a.NoPages()
    modifies a, a.page
    ensures var total := Total(NewArgs(argv, filename, bang), envp);
      (r.Started? <==> Fits(total, |old(a.pool)|)) && (r.Beyond? ==> total > END)
    ensures r.NoMemory? ==> a.Valid() && a.pool == a.all
    ensures r.Started? ==>
      var all, argc := NewArgs(argv, filename, bang) + envp, Argc(argv, bang);
      0 <= argc && argc + |envp| <= |all| && TablesOk(r.mem, r.sp, r.p, all[..argc], all[argc..argc + |envp|])
    ensures r.Started? && (bang.None? || argv != []) ==> TablesOk(r.mem, r.sp, r.p, NewArgs(argv, filename, bang), envp)
  {
    ghost var all := NewArgs(argv, filename, bang) + envp;
    var p, argc, beyond := LoadAll(a, argv, envp, filename, bang);
    if beyond {
      return Beyond;
    }
    if p == 0 {
      a.FreePages();
      return NoMemory;
    }
    CountRight(argv, filename, bang, envp);
    var mem, sp := Start(a, p, argc, |envp|, all);
    r := Started(mem, sp, AREA + p);
  }

  /** Strings of this length leave at least one byte of the area, and there are frames for all pages that they
      touch. */
  predicate Fits(total: nat, frames: nat) {
    total < END && (total == 0 || frames >= MAX_ARG_PAGES - (END - total) / PAGE_SIZE)
  }

  /** All strings go into pages of which there are none yet. */
  method LoadAll(a: ArgPages, argv: seq<Text>, envp: seq<Text>, filename: Text, bang: Option<Bang>)
    returns (p: nat, argc: int, beyond: bool)
    requires a.Valid() && a.Holds(END, []) && a.NoPages()
    modifies a, a.page
    ensures a.Valid() && argc == Argc(argv, bang)
    ensures var total, all := Total(NewArgs(argv, filename, bang), envp), NewArgs(argv, filename, bang) + envp;
      && (beyond ==> p == 0 && total > END) && (p != 0 <==> Fits(total, |old(a.pool)|))
      && (p != 0 ==> p + |Flat(all)| == END && a.Holds(p, Flat(all)))
  {
    ghost var total := Total(NewArgs(argv, filename, bang), envp);
    if total < END {
      EmptyRoom(a, total);
    }
    p, argc, beyond := CopyAll(a, argv, envp, filename, bang);
    FlatAppend(NewArgs(argv, filename, bang), envp);
  }

  lemma EmptyRoom(a: ArgPages, total: nat)
    requires a.Valid() && a.NoPages() && total < END
    ensures a.Room(Lowest(END, total)) == |a.pool| - (MAX_ARG_PAGES - (END - total) / PAGE_SIZE)
  {
    AllGaps(a.page[..], Lowest(END, total));
  }

  /** The pages go to their places, and the tables below them. */
  method Start(a: ArgPages, p: nat, argc: nat, envc: nat, ghost all: seq<Text>) returns (mem: Memory, sp: nat)
    requires a.Valid() && 0 < p && p + |Flat(all)| == END && a.Holds(p, Flat(all)) && argc + envc <= |all|
    ensures TablesOk(mem, sp, AREA + p, all[..argc], all[argc..argc + envc])
  {
    ghost var args, envs, more := all[..argc], all[argc..argc + envc], all[argc + envc..];
    InThree(all, argc, argc + envc);
    mem := Place(a);
    AreaLies(a, mem, p, Flat(args) + Flat(envs), Flat(more));
    mem, sp := CreateTables(mem, AREA + p, argc, envc, args, envs);
  }

  lemma InThree(ss: seq<Text>, i: nat, j: nat)
    requires i <= j <= |ss|
    ensures Flat(ss) == Flat(ss[..i]) + Flat(ss[i..j]) + Flat(ss[j..])
    ensures i <= |Flat(ss[..i])| && j - i <= |Flat(ss[i..j])|
  {
    assert ss == ss[..i] + ss[i..j] + ss[j..];
    FlatAppend(ss[..i] + ss[i..j], ss[j..]);
    FlatAppend(ss[..i], ss[i..j]);
    FlatLong(ss[..i]);
    FlatLong(ss[i..j]);
  }

  lemma AreaLies(a: ArgPages, mem: Memory, p: nat, s: seq<byte>, more: seq<byte>)
    requires a.Holds(p, s + more) && forall x: nat, b | a.HasByte(x, b) :: ByteIs(mem, AREA + x, b)
    ensures Lies(mem, AREA + p, s)
  {
    forall i: nat | i < |s|
      ensures ByteIs(mem, AREA + p + i, s[i])
    {
      assert a.HasByte(p + i, (s + more)[i]);
    }
  }
}
