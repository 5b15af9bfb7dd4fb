/** copy_to_cooked and tty_read (kernel/chr_drv/tty_io.c) on the terminal's queues. */
module Tty {
  import opened TtyQueue
  import opened LineEditor
  import opened TtyReading

  /** The characters `got`, and the end-of-file character if eof, were taken in s, leaving s'. */
  ghost predicate Drained(t: Termios, s: Session, s': Session, got: seq<Char>, eof: bool) {
    && var k := |got| + if eof then 1 else 0;
    && k <= |Text(s.e)| && s' == Give(s, k) && got == Text(s.e)[..|got|]
    && (t.icanon ==> forall c | c in got :: !Is(c, t.eof))
    && (eof ==> t.icanon && Is(Text(s.e)[|got|], t.eof))
  }

  lemma TookNone(s: Session)
    ensures Text(s.e)[..0] == [] && Took(s.e, 0) == s.e && s.given + [] == s.given
  {
  }

  lemma LastCount(t: Termios, text: seq<Char>, c: Char)
    ensures Breaks(t, text + [c]) == Breaks(t, text) + if Break(t, c) then 1 else 0
  {
    BreaksAppend(t, text, [c]);
    BreaksOne(t, c);
  }

  /** The first character is taken: the others remain, and one line end less if it was one. */
  lemma TookFirst(t: Termios, s: Session)
    requires WellFormed(t, s.e) && Text(s.e) != []
    ensures var s', c := Give(s, 1), Text(s.e)[0];
      && Text(s.e) == [c] + Text(s'.e) && WellFormed(t, s'.e)
      && s'.e.stopped == s.e.stopped && s'.e.signals == s.e.signals
      && Breaks(t, s.e.done) == Breaks(t, s'.e.done) + if Break(t, c) then 1 else 0
  {
    TookWellFormed(t, s.e, 1);
    var e := s.e;
    if e.done != [] {
      assert e.done == [e.done[0]] + e.done[1..];
      BreaksAppend(t, [e.done[0]], e.done[1..]);
      BreaksOne(t, e.done[0]);
    }
  }

  /** Taking k characters and then one is taking k + 1. */
  lemma TookMore(t: Termios, s: Session, k: nat)
    requires k < |Text(s.e)|
    ensures Give(Give(s, k), 1) == Give(s, k + 1)
    ensures Text(Give(s, k).e) == Text(s.e)[k..]
    ensures Text(s.e)[k..][0] == Text(s.e)[k] && Text(s.e)[..k + 1] == Text(s.e)[..k] + [Text(s.e)[k]]
  {
    TookText(s.e, k);
    TookTwice(s.e, k);
    assert Text(s.e)[k..][..1] == [Text(s.e)[k]];
    GivenTwice(s.given, Text(s.e), k);
  }

  lemma TookTwice(e: Editor, k: nat)
    requires k < |Text(e)|
    ensures |Text(Took(e, k))| > 0 && Took(Took(e, k), 1) == Took(e, k + 1)
  {
  }

  lemma GivenTwice(given: seq<Char>, text: seq<Char>, k: nat)
    requires k < |text|
    ensures given + text[..k] + [text[k]] == given + text[..k + 1]
  {
    assert text[..k + 1] == text[..k] + [text[k]];
  }

  lemma DrainedSize(t: Termios, s0: Session, s1: Session, got: seq<Char>, eof: bool, nr: nat)
    requires Drained(t, s0, s1, got, eof) && (eof || |got| == nr || Text(s1.e) == []) && |got| <= nr && (eof ==> |got| < nr)
    ensures |got| + (if eof then 1 else 0) == TakeSize(t, Text(s0.e), nr)
  {
    TookText(s0.e, |got|);
    TakeSizeEnds(t, Text(s0.e), nr, |got| + if eof then 1 else 0, eof);
  }

  lemma DrainedMore(t: Termios, s0: Session, s1: Session, s2: Session, got: seq<Char>, c: Char)
    requires Drained(t, s0, s1, got, false) && Text(s1.e) != [] && c == Text(s1.e)[0] && s2 == Give(s1, 1)
    ensures if Is(c, t.eof) && t.icanon then Drained(t, s0, s2, got, true) else Drained(t, s0, s2, got + [c], false)
    ensures |got| < |Text(s0.e)|
  {
    TookNone(s0);
    TookText(s0.e, |got|);
    TookMore(t, s0, |got|);
  }

  lemma TookText(e: Editor, k: nat)
    requires k <= |Text(e)|
    ensures Text(Took(e, k)) == Text(e)[k..]
  {
  }

  /** What was drained is a chunk. */
  lemma DrainedChunk(t: Termios, s0: Session, s1: Session, got: seq<Char>, eof: bool, nr: nat)
    requires Drained(t, s0, s1, got, eof) && |got| + (if eof then 1 else 0) == TakeSize(t, Text(s0.e), nr)
    ensures var text, k := Text(s0.e), TakeSize(t, Text(s0.e), nr);
      s1 == Give(s0, k) && got == Chunk(t, text, k) && eof == EndsFile(t, text, k)
  {
    var text, k := Text(s0.e), TakeSize(t, Text(s0.e), nr);
    if !eof && k > 0 {
      assert got[k - 1] == text[k - 1] && got[k - 1] in got;
    }
  }

  /** secondary.data is zero if and only if no line is finished. */
  lemma CountZero(t: Termios, e: Editor)
    requires WellFormed(t, e)
    ensures Breaks(t, e.done) == 0 <==> e.done == []
  {
    NoBreaks(t, e.done);
    if e.done != [] {
      assert Break(t, e.done[|e.done| - 1]);
    }
  }

  /** The first n characters of the input went to the editor, the others are left. */
  ghost predicate Cooked(t: Termios, s: Session, input: seq<Char>, s': Session, input': seq<Char>, n: nat) {
    n <= |input| && input' == input[n..] && s' == s.(e := Keys(t, s.e, input[..n]))
  }

  lemma KeysMore(t: Termios, e: Editor, input: seq<Char>, n: nat)
    requires n < |input|
    ensures Keys(t, e, input[..n + 1]) == Key(t, Keys(t, e, input[..n]), input[n])
    ensures input[n..] == [input[n]] + input[n + 1..]
  {
    assert input[..n + 1][..n] == input[..n];
  }

  lemma PressOrdinary(t: Termios, e: Editor, c: Char)
    requires WellFormed(t, e)
    requires !(t.icanon && (Is(c, t.kill) || Is(c, t.erase) || Is(c, t.stop) || Is(c, t.start)))
    requires !(t.isig && (Is(c, t.intr) || Is(c, t.quit)))
    ensures WellFormed(t, Press(t, e, c)) && Text(Press(t, e, c)) == Text(e) + [c]
    ensures Press(t, e, c).stopped == e.stopped && Press(t, e, c).signals == e.signals
  {
    if !Break(t, c) {
      assert e.done + (e.cur + [c]) == e.done + e.cur + [c];
    } else {
      assert e.done + e.cur + [c] + [] == e.done + e.cur + [c];
    }
  }

  /** The last character in the queue belongs to the line being typed unless it ends a line. */
  lemma LastOf(t: Termios, e: Editor)
    requires WellFormed(t, e) && Text(e) != []
    ensures e.cur != [] <==> !Break(t, Text(e)[|Text(e)| - 1])
  {
    if e.cur != [] {
      assert Text(e)[|Text(e)| - 1] == e.cur[|e.cur| - 1];
    } else {
      assert Text(e) == e.done;
    }
  }

  /** The editor after the last character of the line was erased. */
  function Erased(e: Editor): Editor
    requires e.cur != []
  {
    e.(cur := e.cur[..|e.cur| - 1])
  }

  lemma ErasedText(t: Termios, e: Editor)
    requires WellFormed(t, e) && e.cur != []
    ensures Text(e) != [] && Text(Erased(e)) == Text(e)[..|Text(e)| - 1]
    ensures WellFormed(t, Erased(e))
  {
    assert Text(e)[..|Text(e)| - 1] == e.done + e.cur[..|e.cur| - 1];
  }

  class Terminal {
    const t: Termios
    const readQ: Queue
    const secondary: Queue
    /** The field secondary.data. */
    var data: nat
    var stopped: bool
    /** The signals that tty_intr sent. */
    var signals: seq<int>
    /** The editor, and the text that readers took from it. */
    ghost var s: Session

    ghost predicate Shape()
      reads this, readQ, secondary
    {
      readQ != secondary && readQ.buf != secondary.buf && readQ.Valid() && secondary.Valid()
    }

    ghost predicate Valid()
      reads this, readQ, readQ.buf, secondary, secondary.buf
    {
      && Shape() && WellFormed(t, s.e)
      && secondary.Contents() == Text(s.e) && stopped == s.e.stopped && signals == s.e.signals
      && data == Breaks(t, s.e.done)
    }

    constructor (t: Termios)
      ensures Valid() && s == Session([], Start) && this.t == t && readQ.Contents() == []
      ensures fresh(readQ) && fresh(readQ.buf) && fresh(secondary) && fresh(secondary.buf)
    {
      this.t := t;
      readQ := new Queue();
      secondary := new Queue();
      data, stopped, signals := 0, false, [];
      s := Session([], Start);
    }

    /** Is the last character of the queue one that can be erased? */
    method Erasable() returns (r: bool)
      requires Valid()
      ensures r <==> s.e.cur != []
    {
      if secondary.Empty() {
        return false;
      }
      var c := secondary.Last();
      LastOf(t, s.e);
      r := !(Is(c, NL) || Is(c, t.eof));
    }

    method EraseOne()
      requires Valid() && s.e.cur != []
      modifies `s, secondary
      ensures Valid() && s == old(s).(e := Erased(old(s).e))
    {
      ErasedText(t, s.e);
      secondary.DropLast();
      s := s.(e := Erased(s.e));
    }

    /** One character that was taken from the read queue. */
    method CookOne(c0: Char)
      requires Valid() && |secondary.Contents()| < TTY_BUF_SIZE - 1
      modifies `s, `data, `stopped, `signals, secondary, secondary.buf
      ensures Valid() && s == old(s).(e := Key(t, old(s).e, c0))
      ensures Untouched(t, c0) ==> TextTyped(t, old(secondary.Contents()), secondary.Contents(), c0)
    {
      if Untouched(t, c0) {
        KeyText(t, s.e, c0);
      }
      var c := c0;
      if Is(c, CR) {
        if t.icrnl {
          c := 10;
        } else if t.igncr {
          return;
        }
      } else if Is(c, NL) && t.inlcr {
        c := 13;
      }
      if t.iuclc {
        c := Lower(c);
      }
      assert Map(t, c0) == As(c);
      if t.icanon && (Is(c, t.kill) || Is(c, t.erase)) {
        Correct(c);
        return;
      }
      if (t.icanon && (Is(c, t.stop) || Is(c, t.start))) || (t.isig && (Is(c, t.intr) || Is(c, t.quit))) {
        Control(c);
        return;
      }
      Append(c);
    }

    /** The kill and erase characters. */
    method Correct(c: Char)
      requires Valid() && t.icanon && (Is(c, t.kill) || Is(c, t.erase))
      modifies `s, secondary
      ensures Valid() && s == old(s).(e := Press(t, old(s).e, c))
    {
      if Is(c, t.kill) {
        Kill();
        return;
      }
      var erasable := Erasable();
      if erasable {
        EraseOne();
      }
    }

    /** The characters that stop and start output or send a signal. */
    method Control(c: Char)
      requires Valid() && !(t.icanon && (Is(c, t.kill) || Is(c, t.erase)))
      requires (t.icanon && (Is(c, t.stop) || Is(c, t.start))) || (t.isig && (Is(c, t.intr) || Is(c, t.quit)))
      modifies `s, `stopped, `signals
      ensures Valid() && s == old(s).(e := Press(t, old(s).e, c))
    {
      ghost var e := s.e;
      if t.icanon && Is(c, t.stop) {
        stopped := true;
      } else if t.icanon && Is(c, t.start) {
        stopped := false;
      } else if Is(c, t.intr) {
        signals := signals + [INTMASK];
      } else {
        signals := signals + [QUITMASK];
      }
      s := s.(e := Press(t, e, c));
    }

    /** The erasing of the whole line. */
    method Kill()
      requires Valid()
      modifies `s, secondary
      ensures Valid() && s == old(s).(e := old(s).e.(cur := []))
    {
      var erasable := Erasable();
      while erasable
        invariant Valid() && s == old(s).(e := old(s).e.(cur := s.e.cur)) && (erasable <==> s.e.cur != [])
        decreases |s.e.cur|
      {
        EraseOne();
        erasable := Erasable();
      }
    }

    /** An ordinary character: counted if it ends a line, and put into the queue. */
    method Append(c: Char)
      requires Valid() && |secondary.Contents()| < TTY_BUF_SIZE - 1
      requires !(t.icanon && (Is(c, t.kill) || Is(c, t.erase) || Is(c, t.stop) || Is(c, t.start)))
      requires !(t.isig && (Is(c, t.intr) || Is(c, t.quit)))
      modifies `s, `data, secondary, secondary.buf
      ensures Valid() && s == old(s).(e := Press(t, old(s).e, c))
    {
      ghost var e := s.e;
      PressOrdinary(t, e, c);
      CountDone(t, e);
      CountDone(t, Press(t, e, c));
      LastCount(t, Text(e), c);
      if Is(c, NL) || Is(c, t.eof) {
        data := data + 1;
      }
      secondary.Put(c);
      s := s.(e := Press(t, e, c));
    }

    /** The oldest character of the read queue. */
    method CookNext() returns (ghost c: Char)
      requires Valid() && readQ.Contents() != [] && |secondary.Contents()| < TTY_BUF_SIZE - 1
      modifies `s, `data, `stopped, `signals, readQ, secondary, secondary.buf
      ensures Valid() && old(readQ.Contents()) == [c] + readQ.Contents() && s == old(s).(e := Key(t, old(s).e, c))
    {
      var c0 := readQ.Get();
      CookOne(c0);
      c := c0;
    }

    /** The n-th character of the input. */
    method CookStep(ghost s0: Session, ghost input: seq<Char>, ghost n: nat)
      requires Valid() && n < |input| && readQ.Contents() == input[n..] && |secondary.Contents()| < TTY_BUF_SIZE - 1
      requires s == s0.(e := Keys(t, s0.e, input[..n]))
      modifies `s, `data, `stopped, `signals, readQ, secondary, secondary.buf
      ensures Valid() && readQ.Contents() == input[n + 1..] && s == s0.(e := Keys(t, s0.e, input[..n + 1]))
    {
      ghost var c := CookNext();
      KeysMore(t, s0.e, input, n);
      assert input[n..][1..] == input[n + 1..];
    }

    /** copy_to_cooked: the typed characters, in their order, until the second queue is full. */
    method CopyToCooked() returns (ghost n: nat)
      requires Valid()
      modifies `s, `data, `stopped, `signals, readQ, secondary, secondary.buf
      ensures Valid() && (readQ.Contents() == [] || |secondary.Contents()| == TTY_BUF_SIZE - 1)
      ensures Cooked(t, old(s), old(readQ.Contents()), s, readQ.Contents(), n)
      ensures n == CookSize(t, old(s).e, old(readQ.Contents()))
    {
      n := 0;
      ghost var input := readQ.Contents();
      while !readQ.Empty() && secondary.Left() != 0
        invariant Valid() && 0 <= n <= |input| && readQ.Contents() == input[n..]
        invariant s == old(s).(e := Keys(t, old(s).e, input[..n]))
        invariant n + CookSize(t, s.e, input[n..]) == CookSize(t, old(s).e, input)
        decreases |input| - n
      {
        KeysMore(t, old(s).e, input, n);
        CookStep(old(s), input, n);
        n := n + 1;
      }
    }

    /** The terminal's part of a state of a call. */
    ghost predicate Shows(x: State)
      reads this, readQ, readQ.buf, secondary, secondary.buf
    {
      Valid() && x.s == s && x.input == readQ.Contents()
    }

    /** The interrupt stores the characters for which there is room. */
    method Store(cs: seq<Char>)
      requires Valid()
      modifies readQ, readQ.buf
      ensures Valid() && readQ.Contents() == old(readQ.Contents()) + Room(old(readQ.Contents()), cs)
    {
      var i := 0;
      ghost var input := readQ.Contents();
      assert cs[..0] == [];
      while i < |cs| && readQ.Left() != 0
        invariant Valid() && 0 <= i <= |cs| && readQ.Contents() == input + cs[..i]
      {
        readQ.Put(cs[i]);
        assert cs[..i + 1] == cs[..i] + [cs[i]];
        i := i + 1;
      }
    }

    /** Characters arrive, and are cooked. */
    method Arrive(cs: seq<Char>, hears: bool, sig: bool, ghost x: State) returns (sig': bool)
      requires Shows(x) && x.signalled == sig
      modifies `s, `data, `stopped, `signals, readQ, readQ.buf, secondary, secondary.buf
      ensures var x' := Happened(t, hears, x, Input(cs)); Shows(x') && x'.signalled == sig'
    {
      var before := |signals|;
      Store(cs);
      ghost var n := CopyToCooked();
      sig' := sig || (hears && |signals| > before);
    }

    /** A character is handed over, or taken as the end of the file. */
    method TakeOne() returns (c: Char)
      requires Valid() && secondary.Contents() != []
      modifies `s, `data, secondary
      ensures Valid() && s == Give(old(s), 1)
      ensures old(secondary.Contents()) == [c] + secondary.Contents()
    {
      TookFirst(t, s);
      c := secondary.Get();
      if Is(c, t.eof) || Is(c, NL) {
        data := data - 1;
      }
      s := Give(s, 1);
    }

    /** The inner loop of tty_read: characters are handed over until nr is reached, the queue is empty,
        or an end-of-file character comes, which is not handed over. */
    method Drain(nr: nat) returns (got: seq<Char>, eof: bool)
      requires Valid() && nr > 0 && secondary.Contents() != []
      modifies `s, `data, secondary
      ensures Valid() && |got| <= nr && Drained(t, old(s), s, got, eof)
      ensures |got| + (if eof then 1 else 0) == TakeSize(t, Text(old(s).e), nr)
      ensures !eof ==> 0 < |got| && (|got| == nr || secondary.Contents() == [])
    {
      got, eof := [], false;
      ghost var s0 := s;
      TookNone(s0);
      while |got| < nr && !secondary.Empty() && !eof
        invariant Valid() && |got| <= nr && Drained(t, s0, s, got, eof) && (eof ==> |got| < nr)
        decreases nr - |got|, !eof
      {
        ghost var s1 := s;
        var c := TakeOne();
        DrainedMore(t, s0, s1, s, got, c);
        if Is(c, t.eof) && t.icanon {
          eof := true;
        } else {
          got := got + [c];
        }
      }
      DrainedSize(t, s0, s, got, eof, nr);
    }

    /** Another reader's chunk, if it need not wait. */
    method OtherReads(who: nat, nr: nat, hears: bool, ghost x: State)
      requires Shows(x)
      modifies `s, `data, secondary
      ensures Shows(Happened(t, hears, x, Reader(who, nr)))
    {
      var wait := MustWait();
      if nr > 0 && !wait {
        var got, eof := Drain(nr);
        DrainedChunk(t, old(s), s, got, eof, nr);
      }
    }

    /** The test before tty_read goes to sleep. */
    method MustWait() returns (r: bool)
      requires Valid()
      ensures r <==> !Readable(t, s.e)
    {
      CountZero(t, s.e);
      r := secondary.Empty() || (t.icanon && data == 0 && secondary.Left() > 20);
    }

    method OneArrival(a: Arrival, hears: bool, sig: bool, ghost x: State) returns (sig': bool)
      requires Shows(x) && x.signalled == sig
      modifies `s, `data, `stopped, `signals, readQ, readQ.buf, secondary, secondary.buf
      ensures var x' := Happened(t, hears, x, a); Shows(x') && x'.signalled == sig'
    {
      sig' := sig;
      match a
      case Input(cs) => sig' := Arrive(cs, hears, sig, x);
      case Reader(who, nr) => OtherReads(who, nr, hears, x);
      case Signal => sig' := true;
    }

    /** All that happens before the reader runs again. */
    method Arrivals(what: seq<Arrival>, hears: bool, sig: bool, ghost x: State) returns (sig': bool)
      requires Shows(x) && x.signalled == sig
      modifies `s, `data, `stopped, `signals, readQ, readQ.buf, secondary, secondary.buf
      ensures var x' := HappenedAll(t, hears, x, what); Shows(x') && x'.signalled == sig'
    {
      sig' := sig;
      var i := 0;
      while i < |what|
        invariant 0 <= i <= |what|
        invariant var x' := HappenedAll(t, hears, x, what[..i]); Shows(x') && x'.signalled == sig'
      {
        ghost var x1 := HappenedAll(t, hears, x, what[..i]);
        sig' := OneArrival(what[i], hears, sig', x1);
        assert what[..i + 1][..i] == what[..i];
        i := i + 1;
      }
      assert what[..i] == what;
    }

    /** What the reader takes of the text that is there. */
    method ReadChunk(who: nat, nr: nat, ghost x: State) returns (chunk: seq<Char>, end: bool)
      requires Shows(x) && nr > 0 && secondary.Contents() != []
      modifies `s, `data, secondary
      ensures Shows(ChunkTaken(t, who, nr, x)) && 0 <= |chunk| <= nr && (end || chunk != [])
      ensures var text, k := Text(x.s.e), TakeSize(t, Text(x.s.e), nr);
        chunk == Chunk(t, text, k) && end == EndsFile(t, text, k)
    {
      chunk, end := Drain(nr);
      DrainedChunk(t, old(s), s, chunk, end, nr);
    }

    /** One turn of the loop, when the reader still wants something: it waits, or takes a chunk, or has a
        signal. */
    method ReadOnce(who: nat, nr: nat, hears: bool, ghost r: Job, got: seq<Char>, sig: bool, arrivals: seq<seq<Arrival>>, i: nat)
        returns (got': seq<Char>, eof: bool, sig': bool, i': nat, over: bool)
      requires i <= |arrivals| && |got| < nr && r == Job(r.x, got, false, arrivals[i..], false)
      requires Shows(r.x) && r.x.signalled == sig
      modifies `s, `data, `stopped, `signals, readQ, readQ.buf, secondary, secondary.buf
      ensures i <= i' <= |arrivals| && |got| <= |got'| <= nr && (over || i' > i || |got'| > |got|)
      ensures var r' := Turn(t, hears, who, nr, r);
        r' == Job(r'.x, got', eof, arrivals[i'..], over) && Shows(r'.x) && r'.x.signalled == sig' && (!over ==> !eof)
    {
      got', eof, sig', i', over := got, false, sig, i, sig;
      if sig {
        return;
      }
      var wait := MustWait();
      if wait {
        sig', i', over := WaitOnce(who, nr, hears, r, arrivals, i);
      } else {
        got', eof, over := TakeOnce(who, nr, hears, r, got);
      }
    }

    method WaitOnce(who: nat, nr: nat, hears: bool, ghost r: Job, arrivals: seq<seq<Arrival>>, i: nat)
        returns (sig: bool, i': nat, over: bool)
      requires i <= |arrivals| && |r.got| < nr && r == Job(r.x, r.got, false, arrivals[i..], false)
      requires Shows(r.x) && !r.x.signalled && !Readable(t, s.e)
      modifies `s, `data, `stopped, `signals, readQ, readQ.buf, secondary, secondary.buf
      ensures i <= i' <= |arrivals| && (over || i' > i)
      ensures var r' := Turn(t, hears, who, nr, r);
        r' == Job(r'.x, r.got, false, arrivals[i'..], over) && Shows(r'.x) && r'.x.signalled == sig
    {
      sig, i', over := false, i, false;
      if i == |arrivals| {
        sig, over := true, true;
      } else {
        assert arrivals[i..][1..] == arrivals[i + 1..];
        sig := Arrivals(arrivals[i], hears, sig, r.x);
        i' := i + 1;
      }
    }

    method TakeOnce(who: nat, nr: nat, hears: bool, ghost r: Job, got: seq<Char>) returns (got': seq<Char>, eof: bool, over: bool)
      requires |got| < nr && r.got == got && !r.eof && !r.over
      requires Shows(r.x) && !r.x.signalled && Readable(t, s.e)
      modifies `s, `data, secondary
      ensures |got| <= |got'| <= nr && (over || |got'| > |got|)
      ensures Turn(t, hears, who, nr, r) == Job(ChunkTaken(t, who, nr - |got|, r.x), got', eof, r.left, over)
      ensures Shows(ChunkTaken(t, who, nr - |got|, r.x)) && (!over ==> !eof)
    {
      var chunk;
      ghost var text, k := Text(r.x.s.e), TakeSize(t, Text(r.x.s.e), nr - |got|);
      chunk, eof := ReadChunk(who, nr - |got|, r.x);
      got' := got + chunk;
      assert chunk == Chunk(t, text, k) && eof == EndsFile(t, text, k);
      over := eof || t.icanon || |got'| >= (if t.vmin > nr then nr else t.vmin);
      TurnTakes(t, hears, who, nr, r, got');
    }

    /** tty_read by process `who`, without a time limit: the result, and what becomes of the terminal, are those
        of the specified call. A call without a result because of a signal is `interrupted`. */
    method Read(who: nat, nr: nat, hears: bool, signalled: bool, arrivals: seq<seq<Arrival>>)
        returns (got: seq<Char>, eof: bool, interrupted: bool)
      requires Valid()
      modifies `s, `data, `stopped, `signals, readQ, readQ.buf, secondary, secondary.buf
      ensures var r := Reading(t, hears, who, nr, State(old(s), old(readQ.Contents()), signalled, [], []), arrivals);
        Shows(r.x) && got == r.got && eof == r.eof && interrupted == Interrupted(r)
    {
      ghost var x := State(s, readQ.Contents(), signalled, [], []);
      ghost var r0, n := Job(x, [], false, arrivals, false), 0;
      ghost var r := r0;
      var sig, i, over := signalled, 0, false;
      got, eof := [], false;
      while |got| < nr && !over
        invariant 0 <= i <= |arrivals| && |got| <= nr && (!over ==> !eof)
        invariant r == Turns(t, hears, who, nr, r0, n) && r == Job(r.x, got, eof, arrivals[i..], over)
        invariant Shows(r.x) && r.x.signalled == sig
        invariant n + (if over then 0 else |arrivals| - i + nr - |got| + 1) <= |arrivals| + nr + 1
        decreases !over, |arrivals| - i + nr - |got|
      {
        ghost var r1 := r;
        got, eof, sig, i, over := ReadOnce(who, nr, hears, r1, got, sig, arrivals, i);
        r, n := Turn(t, hears, who, nr, r1), n + 1;
      }
      LastTurn(t, hears, who, nr, x, arrivals, n);
      interrupted := sig && got == [] && !eof;
    }
  }
}
