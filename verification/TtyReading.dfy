/** What a call of tty_read (kernel/chr_drv/tty_io.c) does, as a function of the terminal and of all
    that happens while it waits. */
module TtyReading {
  import opened TtyQueue
  import opened LineEditor

  /** What may happen before the reader runs: characters come in, another process reads, or somebody sends
      the reader a signal. */
  datatype Arrival = Input(cs: seq<Char>) | Reader(who: nat, nr: nat) | Signal

  /** The session of the editor, the characters in the read queue, whether the reader has a signal, and,
      since the call began, the characters for which there was room and the events of the session. */
  datatype State = State(s: Session, input: seq<Char>, signalled: bool, came: seq<Char>, log: seq<Event>)

  function Min(a: nat, b: nat): nat {
    if a < b then a else b
  }

  /** The characters of cs that the interrupt can store in a queue that holds `input`. */
  function Room(input: seq<Char>, cs: seq<Char>): (r: seq<Char>)
    ensures |input| < TTY_BUF_SIZE ==> |input + r| < TTY_BUF_SIZE
  {
    if |input| >= TTY_BUF_SIZE then [] else cs[..Min(|cs|, TTY_BUF_SIZE - 1 - |input|)]
  }

  /** How many characters of the input copy_to_cooked takes: all, or until the second queue is full. */
  function CookSize(t: Termios, e: Editor, input: seq<Char>): (n: nat)
    ensures n <= |input|
    decreases |input|
  {
    if input == [] || |Text(e)| >= TTY_BUF_SIZE - 1 then 0
    else 1 + CookSize(t, Key(t, e, input[0]), input[1..])
  }

  /** tty_read does not wait: there is text, and in canonical mode a finished line, or a nearly full queue. */
  predicate Readable(t: Termios, e: Editor) {
    Text(e) != [] && !(t.icanon && e.done == [] && TTY_BUF_SIZE - 1 - |Text(e)| > 20)
  }

  function CookedAll(t: Termios, hears: bool, x: State): State {
    var n := CookSize(t, x.s.e, x.input);
    var s' := AfterKeys(t, x.s, x.input[..n]);
    State(s', x.input[n..], x.signalled || (hears && |s'.e.signals| > |x.s.e.signals|), x.came,
          x.log + TypedAll(x.input[..n]))
  }

  /** A reader takes a chunk of at most nr characters. */
  function ChunkTaken(t: Termios, who: nat, nr: nat, x: State): State {
    var k := TakeSize(t, Text(x.s.e), nr);
    x.(s := Give(x.s, k), log := x.log + [Taken(who, k)])
  }

  /** The reader hears the signals of the terminal if it is in the terminal's process group. */
  function Happened(t: Termios, hears: bool, x: State, a: Arrival): State {
    match a
    case Input(cs) =>
      CookedAll(t, hears, x.(input := x.input + Room(x.input, cs), came := x.came + Room(x.input, cs)))
    case Reader(who, nr) => if nr > 0 && Readable(t, x.s.e) then ChunkTaken(t, who, nr, x) else x
    case Signal => x.(signalled := true)
  }

  function HappenedAll(t: Termios, hears: bool, x: State, what: seq<Arrival>): State {
    if what == [] then x
    else Happened(t, hears, HappenedAll(t, hears, x, what[..|what| - 1]), what[|what| - 1])
  }

  /** A call in progress: what it has got so far, and whether an end-of-file character came; what is to
      happen at each wait to come; whether it is over. */
  datatype Job = Job(x: State, got: seq<Char>, eof: bool, left: seq<seq<Arrival>>, over: bool)

  /** What a chunk of k characters hands over: not the end-of-file character. */
  function Chunk(t: Termios, text: seq<Char>, k: nat): seq<Char>
    requires k <= |text|
  {
    if EndsFile(t, text, k) then text[..k - 1] else text[..k]
  }

  predicate EndsFile(t: Termios, text: seq<Char>, k: nat)
    requires k <= |text|
  {
    t.icanon && k > 0 && Is(text[k - 1], t.eof)
  }

  /** The number of characters that end a call when the terminal is not in canonical mode. */
  function Minimum(t: Termios, nr: nat): nat {
    Min(t.vmin, nr)
  }

  /** A turn of tty_read's loop. When it has to wait and nothing more is to happen, a signal ends it. */
  function Turn(t: Termios, hears: bool, who: nat, nr: nat, r: Job): Job {
    if r.over then r
    else if |r.got| >= nr || r.x.signalled then r.(over := true)
    else if !Readable(t, r.x.s.e) then
      if r.left == [] then r.(x := r.x.(signalled := true), over := true)
      else r.(x := HappenedAll(t, hears, r.x, r.left[0]), left := r.left[1..])
    else
      var text := Text(r.x.s.e);
      var k := TakeSize(t, text, nr - |r.got|);
      var got := r.got + Chunk(t, text, k);
      r.(x := ChunkTaken(t, who, nr - |r.got|, r.x), got := got, eof := EndsFile(t, text, k),
         over := EndsFile(t, text, k) || t.icanon || |got| >= Minimum(t, nr))
  }

  /** A turn that takes a chunk. */
  lemma TurnTakes(t: Termios, hears: bool, who: nat, nr: nat, r: Job, got: seq<Char>)
    requires !r.over && |r.got| < nr && !r.x.signalled && Readable(t, r.x.s.e)
    requires got == r.got + Chunk(t, Text(r.x.s.e), TakeSize(t, Text(r.x.s.e), nr - |r.got|))
    ensures var eof := EndsFile(t, Text(r.x.s.e), TakeSize(t, Text(r.x.s.e), nr - |r.got|));
      Turn(t, hears, who, nr, r) == Job(ChunkTaken(t, who, nr - |r.got|, r.x), got, eof, r.left,
                                        eof || t.icanon || |got| >= Minimum(t, nr))
  {
  }

  /** A turn that waits. */
  lemma TurnWaits(t: Termios, hears: bool, who: nat, nr: nat, r: Job)
    requires !r.over && |r.got| < nr && !r.x.signalled && !Readable(t, r.x.s.e) && r.left != []
    ensures Turn(t, hears, who, nr, r) == Job(HappenedAll(t, hears, r.x, r.left[0]), r.got, r.eof, r.left[1..], false)
  {
  }

  function Turns(t: Termios, hears: bool, who: nat, nr: nat, r: Job, n: nat): Job {
    if n == 0 then r else Turn(t, hears, who, nr, Turns(t, hears, who, nr, r, n - 1))
  }

  /** A whole call: it is over after one turn for each wait and each character, and a last one. */
  function Reading(t: Termios, hears: bool, who: nat, nr: nat, x: State, arrivals: seq<seq<Arrival>>): Job {
    Turns(t, hears, who, nr, Job(x, [], false, arrivals, false), |arrivals| + nr + 1)
  }

  /** The call was interrupted before it got anything. */
  predicate Interrupted(r: Job) {
    r.x.signalled && r.got == [] && !r.eof
  }

  lemma {:induction false} OverStays(t: Termios, hears: bool, who: nat, nr: nat, r: Job, m: nat, n: nat)
    requires m <= n && Turns(t, hears, who, nr, r, m).over
    ensures Turns(t, hears, who, nr, r, n) == Turns(t, hears, who, nr, r, m)
  {
    if m == n {
    } else {
      OverStays(t, hears, who, nr, r, m, n - 1);
    }
  }

  // ----- the events of a call -----

  predicate NotReader(who: nat, what: seq<Arrival>) {
    forall i | 0 <= i < |what| && what[i].Reader? :: what[i].who != who
  }

  predicate OthersOnly(who: nat, arrivals: seq<seq<Arrival>>) {
    forall i | 0 <= i < |arrivals| :: NotReader(who, arrivals[i])
  }

  /** The session is that of the events, and the characters that came in were typed into it in their
      order, but for those still in the queue. */
  ghost predicate Told(t: Termios, x0: State, x: State) {
    && x.s == AfterAll(t, x0.s, x.log)
    && x0.input + x.came == TypedIn(x.log) + x.input
  }

  /** What the reader was given is `got`, but for the end-of-file character. */
  ghost predicate Handed(t: Termios, given: seq<Char>, got: seq<Char>, eof: bool) {
    && (!eof ==> given == got)
    && (eof ==> t.icanon && t.eof < 128 && given == got + [t.eof as Char])
    && (t.icanon ==> forall c | c in got :: !Is(c, t.eof))
  }

  lemma {:induction false} TypedInAll(evs: seq<Event>, cs: seq<Char>)
    ensures TypedIn(evs + TypedAll(cs)) == TypedIn(evs) + cs
  {
    if cs == [] {
      assert evs + TypedAll(cs) == evs;
    } else {
      var n := |cs| - 1;
      TypedInAll(evs, cs[..n]);
      assert evs + TypedAll(cs) == evs + TypedAll(cs[..n]) + [Typed(cs[n])];
      TypedOne(evs + TypedAll(cs[..n]), Typed(cs[n]));
      assert cs == cs[..n] + [cs[n]];
    }
  }

  lemma {:induction false} GivenByTyping(t: Termios, s: Session, evs: seq<Event>, cs: seq<Char>, who: nat)
    ensures GivenTo(t, s, evs + TypedAll(cs), who) == GivenTo(t, s, evs, who)
  {
    if cs == [] {
      assert evs + TypedAll(cs) == evs;
    } else {
      var n := |cs| - 1;
      GivenByTyping(t, s, evs, cs[..n], who);
      var before := evs + TypedAll(cs[..n]);
      assert evs + TypedAll(cs) == before + [Typed(cs[n])];
      assert (before + [Typed(cs[n])])[..|before|] == before;
    }
  }

  lemma CookedTold(t: Termios, hears: bool, x0: State, x: State, who: nat)
    requires Told(t, x0, x)
    ensures var x' := CookedAll(t, hears, x);
      Told(t, x0, x') && GivenTo(t, x0.s, x'.log, who) == GivenTo(t, x0.s, x.log, who)
  {
    var n := CookSize(t, x.s.e, x.input);
    AfterTyped(t, x0.s, x.log, x.input[..n]);
    TypedInAll(x.log, x.input[..n]);
    GivenByTyping(t, x0.s, x.log, x.input[..n], who);
    assert x.input == x.input[..n] + x.input[n..];
  }

  lemma TakenTold(t: Termios, x0: State, x: State, w: nat, nr: nat, who: nat)
    requires Told(t, x0, x)
    ensures var x' := ChunkTaken(t, w, nr, x);
      && Told(t, x0, x')
      && GivenTo(t, x0.s, x'.log, who) ==
           GivenTo(t, x0.s, x.log, who) + if w == who then Text(x.s.e)[..TakeSize(t, Text(x.s.e), nr)] else []
  {
    var k := TakeSize(t, Text(x.s.e), nr);
    AfterOne(t, x0.s, x.log, Taken(w, k));
    TypedOne(x.log, Taken(w, k));
    GivenOne(t, x0.s, x.log, w, k, who);
  }

  lemma HappenedTold(t: Termios, hears: bool, x0: State, x: State, a: Arrival, who: nat)
    requires Told(t, x0, x) && (a.Reader? ==> a.who != who)
    ensures var x' := Happened(t, hears, x, a);
      Told(t, x0, x') && GivenTo(t, x0.s, x'.log, who) == GivenTo(t, x0.s, x.log, who)
  {
    match a
    case Input(cs) =>
      var more := Room(x.input, cs);
      var x1 := x.(input := x.input + more, came := x.came + more);
      assert x0.input + (x.came + more) == (x0.input + x.came) + more;
      assert TypedIn(x.log) + (x.input + more) == (TypedIn(x.log) + x.input) + more;
      CookedTold(t, hears, x0, x1, who);
    case Reader(w, nr) => TakenTold(t, x0, x, w, nr, who);
    case Signal =>
  }

  lemma {:induction false} HappenedAllTold(t: Termios, hears: bool, x0: State, x: State, what: seq<Arrival>, who: nat)
    requires Told(t, x0, x) && NotReader(who, what)
    ensures var x' := HappenedAll(t, hears, x, what);
      Told(t, x0, x') && GivenTo(t, x0.s, x'.log, who) == GivenTo(t, x0.s, x.log, who)
  {
    if what == [] {
    } else {
      var n := |what| - 1;
      HappenedAllTold(t, hears, x0, x, what[..n], who);
      HappenedTold(t, hears, x0, HappenedAll(t, hears, x, what[..n]), what[n], who);
    }
  }

  /** What holds after every turn. */
  ghost predicate Going(t: Termios, x0: State, who: nat, nr: nat, r: Job) {
    && Told(t, x0, r.x) && OthersOnly(who, r.left) && |r.got| <= nr
    && Handed(t, GivenTo(t, x0.s, r.x.log, who), r.got, r.eof)
    && (if r.over then Ended(t, nr, r) else !r.eof)
  }

  /** Why a call ends: it got all it asked for, or the end of the file, or a signal; in canonical mode any text
      is enough, otherwise the minimum. */
  predicate Ended(t: Termios, nr: nat, r: Job) {
    |r.got| == nr || r.eof || r.x.signalled || (if t.icanon then r.got != [] else |r.got| >= Minimum(t, nr))
  }

  /** A chunk ends where the end-of-file character is, and has no other. */
  lemma {:induction false} NoEofBefore(t: Termios, text: seq<Char>, nr: nat)
    ensures var k := TakeSize(t, text, nr);
      forall i | 0 <= i < k && t.icanon && Is(text[i], t.eof) :: i == k - 1
    ensures nr > 0 && text != [] ==> TakeSize(t, text, nr) > 0
  {
    if nr == 0 || text == [] || (t.icanon && Is(text[0], t.eof)) {
    } else {
      NoEofBefore(t, text[1..], nr - 1);
    }
  }

  lemma ChunkHanded(t: Termios, given: seq<Char>, got: seq<Char>, text: seq<Char>, nr: nat)
    requires Handed(t, given, got, false) && nr > 0 && text != []
    ensures var k := TakeSize(t, text, nr);
      && Handed(t, given + text[..k], got + Chunk(t, text, k), EndsFile(t, text, k))
      && k > 0 && (EndsFile(t, text, k) || |Chunk(t, text, k)| > 0)
  {
    NoEofBefore(t, text, nr);
    var k := TakeSize(t, text, nr);
    if EndsFile(t, text, k) {
      assert text[..k] == text[..k - 1] + [text[k - 1]];
    }
  }

  lemma ChunkGoing(t: Termios, hears: bool, x0: State, who: nat, nr: nat, r: Job)
    requires Going(t, x0, who, nr, r) && !r.over && |r.got| < nr && !r.x.signalled && Readable(t, r.x.s.e)
    ensures var r' := Turn(t, hears, who, nr, r);
      Going(t, x0, who, nr, r') && (r'.over || |r'.got| > |r.got|) && r'.left == r.left
  {
    var text, k := Text(r.x.s.e), TakeSize(t, Text(r.x.s.e), nr - |r.got|);
    TurnTakes(t, hears, who, nr, r, r.got + Chunk(t, text, k));
    TakenTold(t, x0, r.x, who, nr - |r.got|, who);
    ChunkHanded(t, GivenTo(t, x0.s, r.x.log, who), r.got, text, nr - |r.got|);
    var r' := Turn(t, hears, who, nr, r);
    assert r'.got == r.got + Chunk(t, text, k) && r'.eof == EndsFile(t, text, k);
    assert GivenTo(t, x0.s, r'.x.log, who) == GivenTo(t, x0.s, r.x.log, who) + text[..k];
  }

  lemma WaitGoing(t: Termios, hears: bool, x0: State, who: nat, nr: nat, r: Job)
    requires Going(t, x0, who, nr, r) && !r.over && |r.got| < nr && !r.x.signalled && !Readable(t, r.x.s.e)
    ensures var r' := Turn(t, hears, who, nr, r);
      Going(t, x0, who, nr, r') && (r'.over || |r'.left| < |r.left|) && r'.got == r.got
  {
    if r.left != [] {
      HappenedAllTold(t, hears, x0, r.x, r.left[0], who);
    }
  }

  lemma TurnGoing(t: Termios, hears: bool, x0: State, who: nat, nr: nat, r: Job)
    requires Going(t, x0, who, nr, r)
    ensures Going(t, x0, who, nr, Turn(t, hears, who, nr, r))
    ensures var r' := Turn(t, hears, who, nr, r);
      r.over || r'.over || |r'.left| + nr - |r'.got| < |r.left| + nr - |r.got|
  {
    if r.over || |r.got| >= nr || r.x.signalled {
    } else if !Readable(t, r.x.s.e) {
      WaitGoing(t, hears, x0, who, nr, r);
    } else {
      ChunkGoing(t, hears, x0, who, nr, r);
    }
  }

  lemma {:induction false} TurnsGoing(t: Termios, hears: bool, x0: State, who: nat, nr: nat, r: Job, n: nat)
    requires Going(t, x0, who, nr, r)
    ensures Going(t, x0, who, nr, Turns(t, hears, who, nr, r, n))
    ensures var r' := Turns(t, hears, who, nr, r, n);
      r'.over || n + |r'.left| + nr - |r'.got| <= |r.left| + nr - |r.got|
  {
    if n == 0 {
    } else {
      TurnsGoing(t, hears, x0, who, nr, r, n - 1);
      TurnGoing(t, hears, x0, who, nr, Turns(t, hears, who, nr, r, n - 1));
    }
  }

  /** Every call ends, for one of the reasons there are. Its result is what this reader was given in the
      events, but for the end-of-file character, however often others overtook it; and what was typed,
      before it and during it, went into the editor in its order. */
  lemma ReadingTold(t: Termios, hears: bool, who: nat, nr: nat, x: State, arrivals: seq<seq<Arrival>>)
    requires x.came == [] && x.log == [] && OthersOnly(who, arrivals)
    ensures var r := Reading(t, hears, who, nr, x, arrivals);
      && r.over && Ended(t, nr, r) && |r.got| <= nr && Told(t, x, r.x)
      && Handed(t, GivenTo(t, x.s, r.x.log, who), r.got, r.eof)
  {
    var r := Job(x, [], false, arrivals, false);
    assert x.input + [] == [] + x.input;
    TurnsGoing(t, hears, x, who, nr, r, |arrivals| + nr + 1);
  }

  /** The call is the turns up to the first after which it is over. */
  lemma ReadingIs(t: Termios, hears: bool, who: nat, nr: nat, x: State, arrivals: seq<seq<Arrival>>, n: nat)
    requires var r := Turns(t, hears, who, nr, Job(x, [], false, arrivals, false), n);
      r.over && n <= |arrivals| + nr + 1
    ensures Reading(t, hears, who, nr, x, arrivals) == Turns(t, hears, who, nr, Job(x, [], false, arrivals, false), n)
  {
    OverStays(t, hears, who, nr, Job(x, [], false, arrivals, false), n, |arrivals| + nr + 1);
  }

  /** Or up to the one after which nothing more is wanted. */
  lemma LastTurn(t: Termios, hears: bool, who: nat, nr: nat, x: State, arrivals: seq<seq<Arrival>>, n: nat)
    requires var r := Turns(t, hears, who, nr, Job(x, [], false, arrivals, false), n);
      (r.over || |r.got| >= nr) && n + (if r.over then 0 else 1) <= |arrivals| + nr + 1
    ensures Reading(t, hears, who, nr, x, arrivals) ==
              Turns(t, hears, who, nr, Job(x, [], false, arrivals, false), n).(over := true)
  {
    var r := Turns(t, hears, who, nr, Job(x, [], false, arrivals, false), n);
    if r.over {
      ReadingIs(t, hears, who, nr, x, arrivals, n);
    } else {
      assert Turns(t, hears, who, nr, Job(x, [], false, arrivals, false), n + 1) == r.(over := true);
      ReadingIs(t, hears, who, nr, x, arrivals, n + 1);
    }
  }

  // ----- when a call waits -----

  /** The characters for which there is room are the first ones, and as many as fit. */
  lemma RoomIs(input: seq<Char>, cs: seq<Char>)
    requires |input| <= 1023
    ensures Room(input, cs) <= cs && |input| + |Room(input, cs)| <= 1023
    ensures Room(input, cs) != cs ==> |input| + |Room(input, cs)| == 1023
  {
  }

  /** There is something to read: text, and in canonical mode a finished line, or at most 20 places left. */
  predicate SomethingToRead(t: Termios, e: Editor) {
    Text(e) != [] && (!t.icanon || e.done != [] || |Text(e)| >= 1003)
  }

  lemma ReadableIs(t: Termios, e: Editor)
    ensures SomethingToRead(t, e) <==> Readable(t, e)
  {
  }

  lemma {:induction false} TurnsFrom(t: Termios, hears: bool, who: nat, nr: nat, r: Job, r1: Job, n: nat)
    requires r1 == Turn(t, hears, who, nr, r)
    ensures Turns(t, hears, who, nr, r, n + 1) == Turns(t, hears, who, nr, r1, n)
  {
    if n == 0 {
      assert Turns(t, hears, who, nr, r, 1) == Turn(t, hears, who, nr, Turns(t, hears, who, nr, r, 0));
    } else {
      TurnsFrom(t, hears, who, nr, r, r1, n - 1);
    }
  }

  /** Then the call takes a chunk before anything else can happen, and that is all, if it is enough. */
  lemma ReadsAtOnce(t: Termios, hears: bool, who: nat, nr: nat, x: State, arrivals: seq<seq<Arrival>>)
    requires nr > 0 && !x.signalled && SomethingToRead(t, x.s.e)
    requires t.icanon || TakeSize(t, Text(x.s.e), nr) >= t.vmin || TakeSize(t, Text(x.s.e), nr) == nr
    ensures var r, k := Reading(t, hears, who, nr, x, arrivals), TakeSize(t, Text(x.s.e), nr);
      r.left == arrivals && r.x == x.(s := Give(x.s, k), log := x.log + [Taken(who, k)]) && !Interrupted(r)
  {
    ReadableIs(t, x.s.e);
    var r, text := Job(x, [], false, arrivals, false), Text(x.s.e);
    ChunkHanded(t, [], [], text, nr);
    TurnTakes(t, hears, who, nr, r, [] + Chunk(t, text, TakeSize(t, text, nr)));
    FirstTurn(t, hears, who, nr, x, arrivals);
  }

  lemma FirstTurn(t: Termios, hears: bool, who: nat, nr: nat, x: State, arrivals: seq<seq<Arrival>>)
    requires Turn(t, hears, who, nr, Job(x, [], false, arrivals, false)).over
    ensures Reading(t, hears, who, nr, x, arrivals) == Turn(t, hears, who, nr, Job(x, [], false, arrivals, false))
  {
    var r := Job(x, [], false, arrivals, false);
    assert Turns(t, hears, who, nr, r, 1) == Turn(t, hears, who, nr, Turns(t, hears, who, nr, r, 0));
    ReadingIs(t, hears, who, nr, x, arrivals, 1);
  }

  /** Otherwise it first waits for what comes next: after that it goes on like a call that begins then. A
      whole call is |arrivals| + nr + 1 turns. */
  lemma WaitsFirst(t: Termios, hears: bool, who: nat, nr: nat, r: Job, r1: Job, n: nat)
    requires r == Job(r.x, [], false, r.left, false) && nr > 0 && !r.x.signalled && !SomethingToRead(t, r.x.s.e) && r.left != []
    requires r1 == Job(HappenedAll(t, hears, r.x, r.left[0]), [], false, r.left[1..], false)
    ensures Turns(t, hears, who, nr, r, n + 1) == Turns(t, hears, who, nr, r1, n)
  {
    ReadableIs(t, r.x.s.e);
    TurnWaits(t, hears, who, nr, r);
    TurnsFrom(t, hears, who, nr, r, r1, n);
  }

  /** A signal ends it before it takes anything. */
  lemma SignalFirst(t: Termios, hears: bool, who: nat, nr: nat, x: State, arrivals: seq<seq<Arrival>>)
    requires x.signalled
    ensures var r := Reading(t, hears, who, nr, x, arrivals); r.x == x && Interrupted(r)
  {
    FirstTurn(t, hears, who, nr, x, arrivals);
  }

  // ----- a reader that is overtaken -----

  /** It happens: reader 1 waits, and is woken by "a" and a line end; reader 2 runs first and takes one
      character. The line is split between them. */
  lemma OvertakenExample()
    ensures var x := State(Session([], Start), [], false, [], []);
      var r := Reading(Console, true, 1, 5, x, [[Input([97, 10]), Reader(2, 1)]]);
      && r.got == [10] && !Interrupted(r)
      && r.x.log == [Typed(97), Typed(10), Taken(2, 1), Taken(1, 1)]
  {
    var x := State(Session([], Start), [], false, [], []);
    var what := [Input([97, 10]), Reader(2, 1)];
    var r := Job(x, [], false, [what], false);
    LineCooked(x);
    assert what[..1] == [what[0]] && [what[0]][..0] == [];
    var x1 := Happened(Console, true, x, what[0]);
    var x2 := Happened(Console, true, x1, what[1]);
    assert HappenedAll(Console, true, x, what) == x2;
    SplitLine(x1);
    assert Turns(Console, true, 1, 5, r, 1) == Turn(Console, true, 1, 5, Turns(Console, true, 1, 5, r, 0));
    assert Turns(Console, true, 1, 5, r, 2) == Turn(Console, true, 1, 5, Turns(Console, true, 1, 5, r, 1));
    ReadingIs(Console, true, 1, 5, x, [what], 2);
  }

  lemma LineCooked(x: State)
    requires x == State(Session([], Start), [], false, [], [])
    ensures Happened(Console, true, x, Input([97, 10])) ==
              State(Session([], Editor([97, 10], [], false, [])), [], false, [97, 10], [Typed(97), Typed(10)])
  {
    var cs: seq<Char> := [97, 10];
    PressA();
    PressEnter();
    KeysOne(Console, Start, [97], 10);
    LineSize();
    assert cs == [97] + [10] && cs[..2] == cs && [] + cs == cs && cs[2..] == [];
    assert TypedAll(cs) == [Typed(97), Typed(10)];
  }

  lemma LineSize()
    ensures CookSize(Console, Start, [97, 10]) == 2
  {
    PressEnter();
    var cs: seq<Char> := [97, 10];
    assert cs[1..] == [10] && cs[1..][1..] == [];
    assert Key(Console, Start, 97) == Editor([], [97], false, []);
    assert CookSize(Console, Editor([97, 10], [], false, []), []) == 0;
    assert CookSize(Console, Editor([], [97], false, []), [10]) == 1;
  }

  lemma SplitLine(x: State)
    requires x == State(Session([], Editor([97, 10], [], false, [])), [], false, [97, 10], [Typed(97), Typed(10)])
    ensures var x2 := Happened(Console, true, x, Reader(2, 1));
      && x2.s == Session([97], Editor([10], [], false, [])) && !x2.signalled
      && x2.log == [Typed(97), Typed(10), Taken(2, 1)]
      && ChunkTaken(Console, 1, 5, x2).log == [Typed(97), Typed(10), Taken(2, 1), Taken(1, 1)]
      && TakeSize(Console, [10], 5) == 1
  {
    var e := x.s.e;
    assert Text(e) == [97, 10] && Text(e)[..1] == [97] && e.done[1..] == [10];
    assert TakeSize(Console, [97, 10], 1) == 1 + TakeSize(Console, [97, 10][1..], 0);
    var ten: seq<Char> := [10];
    assert ten[1..] == [] && TakeSize(Console, ten, 5) == 1 + TakeSize(Console, ten[1..], 4);
    assert Text(Editor([10], [], false, [])) == ten;
  }
}
