/** Canonical input as a pure line editor: finished lines, and the line being typed. */
module LineEditor {
  import opened TtyQueue

  const NL := 10
  const CR := 13
  const INTMASK := 2    // 1 << (SIGINT - 1)
  const QUITMASK := 4   // 1 << (SIGQUIT - 1)

  /** The control characters are unsigned, those that are typed signed. */
  datatype Termios = Termios(icrnl: bool, igncr: bool, inlcr: bool, iuclc: bool, icanon: bool, isig: bool,
                             intr: nat, quit: nat, erase: nat, kill: nat, eof: nat, start: nat, stop: nat, vmin: nat)

  datatype Editor = Editor(done: seq<Char>, cur: seq<Char>, stopped: bool, signals: seq<int>)

  const Start := Editor([], [], false, [])

  datatype Mapped = Ignored | As(c: Char)

  predicate Is(c: Char, control: nat) {
    c as int == control
  }

  function Lower(c: Char): Char {
    if 65 <= c <= 90 then c + 32 else c
  }

  /** The input flags: CR and NL are changed into each other or dropped, and upper case to lower. */
  function Map(t: Termios, c: Char): Mapped {
    if Is(c, CR) && !t.icrnl && t.igncr then Ignored
    else
      var d := if Is(c, CR) then if t.icrnl then 10 else c else if Is(c, NL) && t.inlcr then 13 else c;
      As(if t.iuclc then Lower(d) else d)
  }

  /** The characters that end a line. */
  predicate Break(t: Termios, c: Char) {
    Is(c, NL) || Is(c, t.eof)
  }

  /** One more character of input, after the input flags. */
  function Press(t: Termios, e: Editor, c: Char): Editor {
    if t.icanon && Is(c, t.kill) then e.(cur := [])
    else if t.icanon && Is(c, t.erase) then e.(cur := if e.cur == [] then [] else e.cur[..|e.cur| - 1])
    else if t.icanon && Is(c, t.stop) then e.(stopped := true)
    else if t.icanon && Is(c, t.start) then e.(stopped := false)
    else if t.isig && Is(c, t.intr) then e.(signals := e.signals + [INTMASK])
    else if t.isig && Is(c, t.quit) then e.(signals := e.signals + [QUITMASK])
    else if Break(t, c) then e.(done := e.done + e.cur + [c], cur := [])
    else e.(cur := e.cur + [c])
  }

  function Key(t: Termios, e: Editor, c: Char): Editor {
    match Map(t, c)
    case Ignored => e
    case As(d) => Press(t, e, d)
  }

  function Keys(t: Termios, e: Editor, cs: seq<Char>): Editor {
    if cs == [] then e else Key(t, Keys(t, e, cs[..|cs| - 1]), cs[|cs| - 1])
  }

  /** A reader has taken the first k characters. */
  function Took(e: Editor, k: nat): Editor
    requires k <= |e.done| + |e.cur|
  {
    if k <= |e.done| then e.(done := e.done[k..]) else e.(done := [], cur := e.cur[k - |e.done|..])
  }

  function Text(e: Editor): seq<Char> {
    e.done + e.cur
  }

  /** Finished text ends with a line end, and the line being typed has none in it. */
  ghost predicate WellFormed(t: Termios, e: Editor) {
    && (e.done != [] ==> Break(t, e.done[|e.done| - 1]))
    && (forall i | 0 <= i < |e.cur| :: !Break(t, e.cur[i]))
  }

  /** Every key keeps that. */
  lemma KeyWellFormed(t: Termios, e: Editor, c: Char)
    requires WellFormed(t, e)
    ensures WellFormed(t, Key(t, e, c))
  {
  }

  lemma TookWellFormed(t: Termios, e: Editor, k: nat)
    requires WellFormed(t, e) && k <= |Text(e)|
    ensures WellFormed(t, Took(e, k)) && Text(Took(e, k)) == Text(e)[k..]
  {
  }

  // ----- what the keys do -----

  /** The input flags leave the character as it is. */
  predicate Untouched(t: Termios, c: Char) {
    && !(c == 13 && (t.icrnl || t.igncr)) && !(c == 10 && t.inlcr) && !(65 <= c <= 90 && t.iuclc)
  }

  /** In canonical mode some characters edit the line or stop the output, and some send signals. */
  predicate Edits(t: Termios, c: Char) {
    t.icanon && (Is(c, t.kill) || Is(c, t.erase))
  }

  predicate Controls(t: Termios, c: Char) {
    (t.icanon && (Is(c, t.stop) || Is(c, t.start))) || (t.isig && (Is(c, t.intr) || Is(c, t.quit)))
  }

  /** A character that is just text. */
  predicate Ordinary(t: Termios, c: Char) {
    Untouched(t, c) && !Edits(t, c) && !Controls(t, c) && c != 10 && !Is(c, t.eof)
  }

  /** An ordinary character comes to the end of the line that is being typed. */
  lemma OrdinaryTyped(t: Termios, e: Editor, c: Char)
    requires Ordinary(t, c)
    ensures Key(t, e, c) == e.(cur := e.cur + [c]) && Text(Key(t, e, c)) == Text(e) + [c]
  {
    assert e.done + (e.cur + [c]) == e.done + e.cur + [c];
  }

  /** Erasing takes back the ordinary character before it. */
  lemma EraseUndoes(t: Termios, e: Editor, c: Char, erase: Char)
    requires t.icanon && Is(erase, t.erase) && !Is(erase, t.kill) && Untouched(t, erase) && Ordinary(t, c)
    ensures Keys(t, e, [c, erase]) == e
  {
    var e1 := e.(cur := e.cur + [c]);
    KeysTwo(t, e, c, erase);
    OrdinaryTyped(t, e, c);
    assert e1.cur[..|e.cur|] == e.cur;
    assert Key(t, e1, erase) == e1.(cur := e1.cur[..|e.cur|]);
  }

  lemma KeysTwo(t: Termios, e: Editor, c: Char, d: Char)
    ensures Keys(t, e, [c, d]) == Key(t, Key(t, e, c), d)
  {
    KeysOne(t, e, [], c);
    KeysOne(t, e, [c], d);
    assert [] + [c] == [c] && [c] + [d] == [c, d];
  }

  /** It never reaches a finished line. */
  lemma EraseStops(t: Termios, e: Editor, erase: Char)
    requires t.icanon && Is(erase, t.erase) && !Is(erase, t.kill) && Untouched(t, erase)
    ensures Key(t, e, erase).done == e.done && (e.cur == [] ==> Key(t, e, erase) == e)
  {
  }

  /** The kill character undoes the whole line that is being typed. */
  lemma {:induction false} KillUndoes(t: Termios, e: Editor, cs: seq<Char>, kill: Char)
    requires t.icanon && Is(kill, t.kill) && Untouched(t, kill) && e.cur == [] && forall i | 0 <= i < |cs| :: Ordinary(t, cs[i])
    ensures Keys(t, e, cs).done == e.done && Keys(t, e, cs).cur == cs && Keys(t, e, cs + [kill]) == e
  {
    if cs == [] {
      assert cs + [kill] == [] + [kill];
      KeysOne(t, e, [], kill);
    } else {
      var n := |cs| - 1;
      KillUndoes(t, e, cs[..n], kill);
      OrdinaryTyped(t, Keys(t, e, cs[..n]), cs[n]);
      KeysOne(t, e, cs, kill);
      KeysOne(t, e, cs[..n], kill);
      assert cs[..n] + [cs[n]] == cs;
    }
  }

  /** A line end, or the end-of-file character, finishes the line. */
  lemma LineEnds(t: Termios, e: Editor, c: Char)
    requires (c == 10 || Is(c, t.eof)) && Untouched(t, c) && !Edits(t, c) && !Controls(t, c)
    ensures var e' := Key(t, e, c);
      e'.done == Text(e) + [c] && e'.cur == [] && e'.stopped == e.stopped && e'.signals == e.signals
  {
  }

  /** The output stops between the stop and the start character. */
  lemma StopsBetween(t: Termios, e: Editor, stop: Char, start: Char)
    requires t.icanon && Is(stop, t.stop) && Is(start, t.start) && stop != start
    requires Untouched(t, stop) && Untouched(t, start) && !Edits(t, stop) && !Edits(t, start)
    ensures Key(t, e, stop) == e.(stopped := true) && Keys(t, e, [stop, start]) == e.(stopped := false)
  {
    KeysTwo(t, e, stop, start);
  }

  /** The interrupt character sends SIGINT, the quit character SIGQUIT, as masks; neither leaves any text. */
  lemma SignalsSent(t: Termios, e: Editor, c: Char)
    requires t.isig && (Is(c, t.intr) || Is(c, t.quit)) && Untouched(t, c)
    requires !Edits(t, c) && !(t.icanon && (Is(c, t.stop) || Is(c, t.start)))
    ensures Key(t, e, c) == e.(signals := e.signals + [if Is(c, t.intr) then 2 else 4])
  {
  }

  /** ICRNL, IGNCR, INLCR and IUCLC. */
  lemma InputFlags(t: Termios, e: Editor, c: Char)
    ensures t.icrnl && !t.inlcr ==> Key(t, e, 13) == Key(t, e, 10)
    ensures !t.icrnl && t.igncr ==> Key(t, e, 13) == e
    ensures t.inlcr && !t.icrnl && !t.igncr ==> Key(t, e, 10) == Key(t, e, 13)
    ensures t.inlcr && t.icrnl ==>
      Key(t, e, 10) == Key(t.(icrnl := false, igncr := false), e, 13) && Key(t, e, 13) == Key(t.(inlcr := false), e, 10)
    ensures t.iuclc && 65 <= c <= 90 ==> Key(t, e, c) == Key(t, e, c + 32)
  {
    var plain := t.(icrnl := false, igncr := false);
    assert forall x: Char :: Press(plain, e, x) == Press(t, e, x);
    var plain' := t.(inlcr := false);
    assert forall x: Char :: Press(plain', e, x) == Press(t, e, x);
  }

  // ----- the same, told by the text alone -----

  /** The text without the line that is being typed. */
  predicate KilledTo(t: Termios, q: seq<Char>, q': seq<Char>) {
    && q' <= q && (q' != [] ==> Break(t, q'[|q'| - 1])) && forall i | |q'| <= i < |q| :: !Break(t, q[i])
  }

  /** The text without its last character, unless that ends a line. */
  predicate ErasedTo(t: Termios, q: seq<Char>, q': seq<Char>) {
    q' == if q == [] || Break(t, q[|q| - 1]) then q else q[..|q| - 1]
  }

  /** The text after one more character. */
  predicate TextTyped(t: Termios, q: seq<Char>, q': seq<Char>, c: Char) {
    if t.icanon && Is(c, t.kill) then KilledTo(t, q, q')
    else if t.icanon && Is(c, t.erase) then ErasedTo(t, q, q')
    else q' == if Controls(t, c) then q else q + [c]
  }

  lemma KeyText(t: Termios, e: Editor, c: Char)
    requires WellFormed(t, e) && Untouched(t, c)
    ensures TextTyped(t, Text(e), Text(Key(t, e, c)), c)
  {
    var q, q' := Text(e), Text(Key(t, e, c));
    if t.icanon && Is(c, t.kill) {
      assert q' == e.done && q[..|e.done|] == e.done;
    } else if t.icanon && Is(c, t.erase) {
      if e.cur != [] {
        assert q[|q| - 1] == e.cur[|e.cur| - 1] && q[..|q| - 1] == e.done + e.cur[..|e.cur| - 1];
      } else {
        assert q == e.done;
      }
    } else if !Controls(t, c) {
      assert q + [c] == e.done + (e.cur + [c]) && e.done + e.cur + [c] + [] == q + [c];
    }
  }

  // ----- counting line ends -----

  function Breaks(t: Termios, s: seq<Char>): nat {
    if s == [] then 0 else Breaks(t, s[..|s| - 1]) + if Break(t, s[|s| - 1]) then 1 else 0
  }

  lemma {:induction false} BreaksAppend(t: Termios, a: seq<Char>, b: seq<Char>)
    ensures Breaks(t, a + b) == Breaks(t, a) + Breaks(t, b)
  {
    if b == [] {
      assert a + b == a;
    } else {
      assert (a + b)[..|a + b| - 1] == a + b[..|b| - 1];
      BreaksAppend(t, a, b[..|b| - 1]);
    }
  }

  lemma BreaksOne(t: Termios, c: Char)
    ensures Breaks(t, [c]) == if Break(t, c) then 1 else 0
  {
    assert [c][..0] == [];
  }

  lemma {:induction false} NoBreaks(t: Termios, s: seq<Char>)
    ensures Breaks(t, s) == 0 <==> forall i | 0 <= i < |s| :: !Break(t, s[i])
  {
    if s == [] {
    } else {
      var r := s[..|s| - 1];
      NoBreaks(t, r);
      assert forall i | 0 <= i < |r| :: s[i] == r[i];
    }
  }

  /** All line ends are in the finished text. */
  lemma CountDone(t: Termios, e: Editor)
    requires WellFormed(t, e)
    ensures Breaks(t, Text(e)) == Breaks(t, e.done)
  {
    BreaksAppend(t, e.done, e.cur);
    NoBreaks(t, e.cur);
  }

  // ----- reading while somebody types -----

  /** A key, or the characters that reader `who` takes. */
  datatype Event = Typed(c: Char) | Taken(who: nat, k: nat)

  /** The text that was read so far, and the editor. */
  datatype Session = Session(given: seq<Char>, e: Editor)

  /** The first k characters are given to somebody. */
  function Give(s: Session, k: nat): Session {
    if k > |Text(s.e)| then s else Session(s.given + Text(s.e)[..k], Took(s.e, k))
  }

  function After(t: Termios, s: Session, ev: Event): Session {
    match ev
    case Typed(c) => s.(e := Key(t, s.e, c))
    case Taken(_, k) => Give(s, k)
  }

  function AfterAll(t: Termios, s: Session, evs: seq<Event>): Session {
    if evs == [] then s else After(t, AfterAll(t, s, evs[..|evs| - 1]), evs[|evs| - 1])
  }

  function TypedIn(evs: seq<Event>): seq<Char> {
    if evs == [] then []
    else TypedIn(evs[..|evs| - 1]) + if evs[|evs| - 1].Typed? then [evs[|evs| - 1].c] else []
  }

  /** No read takes more than the finished lines. */
  predicate WholeLines(t: Termios, s: Session, evs: seq<Event>) {
    evs == [] ||
    (&& WholeLines(t, s, evs[..|evs| - 1])
     && (evs[|evs| - 1].Taken? ==> evs[|evs| - 1].k <= |AfterAll(t, s, evs[..|evs| - 1]).e.done|))
  }

  /** s and the editor p, which nobody reads, have the same text. */
  ghost predicate Agree(s: Session, p: Editor) {
    s.given + s.e.done == p.done && s.e.cur == p.cur && s.e.stopped == p.stopped && s.e.signals == p.signals
  }

  /** As long as reads take finished lines only, reading and typing do not interfere: what was read,
      followed by what is left, is what the editor makes of all that was typed. */
  lemma {:induction false} ReadsCommute(t: Termios, evs: seq<Event>)
    requires WholeLines(t, Session([], Start), evs)
    ensures Agree(AfterAll(t, Session([], Start), evs), Keys(t, Start, TypedIn(evs)))
  {
    if evs == [] {
    } else {
      var n := |evs| - 1;
      ReadsCommute(t, evs[..n]);
      var s, p := AfterAll(t, Session([], Start), evs[..n]), Keys(t, Start, TypedIn(evs[..n]));
      match evs[n]
      case Typed(c) =>
        assert TypedIn(evs)[..|TypedIn(evs)| - 1] == TypedIn(evs[..n]);
        KeyAgrees(t, s, p, c);
      case Taken(_, k) =>
        assert TypedIn(evs) == TypedIn(evs[..n]);
        GiveAgrees(s, p, k);
    }
  }

  lemma GiveAgrees(s: Session, p: Editor, k: nat)
    requires Agree(s, p) && k <= |s.e.done|
    ensures Agree(Give(s, k), p)
  {
    assert s.e.done == s.e.done[..k] + s.e.done[k..];
    assert Text(s.e)[..k] == s.e.done[..k];
  }

  lemma KeyAgrees(t: Termios, s: Session, p: Editor, c: Char)
    requires Agree(s, p)
    ensures Agree(s.(e := Key(t, s.e, c)), Key(t, p, c))
  {
    match Map(t, c)
    case Ignored =>
    case As(d) => assert s.given + (s.e.done + s.e.cur + [d]) == s.given + s.e.done + s.e.cur + [d];
  }

  /** The kill character reaches the editor as itself, and does nothing else. */
  predicate KillWorks(t: Termios) {
    t.icanon && t.kill < 128 && Map(t, t.kill as Char) == As(t.kill as Char)
  }

  /** Text that was taken stays in agreement with the editor, whatever is typed next, if and only if it
      was taken from finished lines: a line that is being typed can be killed under the reader. */
  lemma TornText(t: Termios, s: Session, p: Editor, k: nat)
    requires Agree(s, p) && k <= |Text(s.e)| && KillWorks(t)
    ensures k <= |s.e.done| <==> forall cs: seq<Char> :: SameText(AfterKeys(t, Give(s, k), cs), Keys(t, p, cs))
  {
    var s' := Give(s, k);
    if k <= |s.e.done| {
      GiveAgrees(s, p, k);
      forall cs: seq<Char>
        ensures SameText(AfterKeys(t, s', cs), Keys(t, p, cs))
      {
        AgreeKeys(t, s', p, cs);
      }
    } else {
      var cs := [t.kill as Char];
      assert cs[..0] == [];
      assert Keys(t, p, cs).cur == [] && Keys(t, p, cs).done == p.done;
      assert |AfterKeys(t, s', cs).given| == |s.given| + k > |p.done|;
      assert !SameText(AfterKeys(t, s', cs), Keys(t, p, cs));
    }
  }

  /** How many characters a read of at most nr takes: it does not stop at a line end, only at an
      end-of-file character, which it takes too. */
  function TakeSize(t: Termios, text: seq<Char>, nr: nat): (k: nat)
    ensures k <= nr && k <= |text|
  {
    if nr == 0 || text == [] then 0
    else if t.icanon && Is(text[0], t.eof) then 1
    else 1 + TakeSize(t, text[1..], nr - 1)
  }

  /** The size of a read that took k characters, the last of them an end-of-file character or not. */
  lemma {:induction false} TakeSizeEnds(t: Termios, text: seq<Char>, nr: nat, k: nat, eof: bool)
    requires k <= nr && k <= |text| && (eof ==> k > 0 && t.icanon && Is(text[k - 1], t.eof))
    requires t.icanon ==> forall i | 0 <= i < (if eof then k - 1 else k) :: !Is(text[i], t.eof)
    requires eof || k == nr || k == |text|
    ensures TakeSize(t, text, nr) == k
  {
    if k == 0 || (eof && k == 1) {
    } else {
      TakeSizeEnds(t, text[1..], nr - 1, k - 1, eof);
    }
  }

  /** A chunk ends at the end-of-file character, which it takes too, when enough was read, or with the text. */
  lemma {:induction false} ChunkEnds(t: Termios, text: seq<Char>, nr: nat)
    ensures var k := TakeSize(t, text, nr);
      && (k == nr || k == |text| || (k > 0 && t.icanon && Is(text[k - 1], t.eof)))
      && forall i | 0 <= i < k - 1 :: !(t.icanon && Is(text[i], t.eof))
  {
    if nr == 0 || text == [] || (t.icanon && Is(text[0], t.eof)) {
    } else {
      ChunkEnds(t, text[1..], nr - 1);
    }
  }

  /** The end-of-file character is in s. */
  predicate HasEof(t: Termios, s: seq<Char>) {
    exists i :: 0 <= i < |s| && Is(s[i], t.eof)
  }

  lemma {:induction false} TakeSizeIs(t: Termios, text: seq<Char>, nr: nat, n: nat)
    requires t.icanon && n <= |text| && forall i | n <= i < |text| :: !Is(text[i], t.eof)
    ensures TakeSize(t, text, nr) > n <==> nr > n && |text| > n && !HasEof(t, text[..n])
  {
    if nr > 0 && text != [] && n > 0 {
      assert text[..n][0] == text[0];
      if !Is(text[0], t.eof) {
        TakeSizeIs(t, text[1..], nr - 1, n - 1);
        assert text[..n] == [text[0]] + text[1..][..n - 1];
      }
    } else if nr > 0 && text != [] {
      assert !Is(text[0], t.eof);
    }
  }

  /** When a read of at most nr characters, in canonical mode, tears the line that is being typed: if and
      only if nr reaches beyond the finished lines, something is typed, and no end-of-file character
      stands before it. Otherwise, and only then, no key can undo what the reader got. */
  lemma TornLine(t: Termios, s: Session, p: Editor, nr: nat)
    requires Agree(s, p) && WellFormed(t, s.e) && KillWorks(t)
    ensures (nr > |s.e.done| && s.e.cur != [] && !HasEof(t, s.e.done)) <==>
      !(forall cs: seq<Char> :: SameText(AfterKeys(t, Give(s, TakeSize(t, Text(s.e), nr)), cs), Keys(t, p, cs)))
  {
    var n, text := |s.e.done|, Text(s.e);
    forall i | n <= i < |text|
      ensures !Is(text[i], t.eof)
    {
      assert text[i] == s.e.cur[i - n];
    }
    assert text[..n] == s.e.done;
    TakeSizeIs(t, text, nr, n);
    TornText(t, s, p, TakeSize(t, text, nr));
  }

  /** The control characters as they are set at boot, with ICRNL, ICANON and ISIG. */
  const Console := Termios(true, false, false, false, true, true, 3, 28, 127, 21, 4, 17, 19, 1)

  /** It happens: "a", a line end and "b" are typed, three characters are read, and the line is killed.
      The reader has the "b" of a line that no longer exists. */
  lemma TornExample()
    ensures var evs := [Typed(97), Typed(10), Typed(98), Taken(0, 3), Typed(21)];
      && TakeSize(Console, [97, 10, 98], 3) == 3
      && AfterAll(Console, Session([], Start), evs) == Session([97, 10, 98], Start)
      && Text(Keys(Console, Start, TypedIn(evs))) == [97, 10]
  {
    var evs := [Typed(97), Typed(10), Typed(98)];
    ExampleTyped(evs);
    ExampleGiven(evs);
    TypedOne(evs, Taken(0, 3));
    TypedOne(evs + [Taken(0, 3)], Typed(21));
    KeysOne(Console, Start, [97, 10, 98], 21);
    assert TypedIn(evs + [Taken(0, 3)]) == [97, 10, 98];
    assert Keys(Console, Start, [97, 10, 98] + [21]) == Editor([97, 10], [], false, []);
    assert evs + [Taken(0, 3)] + [Typed(21)] == [Typed(97), Typed(10), Typed(98), Taken(0, 3), Typed(21)];
  }

  lemma ExampleGiven(evs: seq<Event>)
    requires AfterAll(Console, Session([], Start), evs) == Session([], Editor([97, 10], [98], false, []))
    ensures TakeSize(Console, [97, 10, 98], 3) == 3
    ensures AfterAll(Console, Session([], Start), evs + [Taken(0, 3)] + [Typed(21)]) == Session([97, 10, 98], Start)
  {
    var s0, e3 := Session([], Start), Editor([97, 10], [98], false, []);
    AfterOne(Console, s0, evs, Taken(0, 3));
    AfterOne(Console, s0, evs + [Taken(0, 3)], Typed(21));
    assert e3.cur[1..] == [] && Text(e3)[..3] == [97, 10, 98];
    assert Give(Session([], e3), 3) == Session([97, 10, 98], Start);
  }

  lemma ExampleTyped(evs: seq<Event>)
    requires evs == [Typed(97), Typed(10), Typed(98)]
    ensures AfterAll(Console, Session([], Start), evs) == Session([], Editor([97, 10], [98], false, []))
    ensures TypedIn(evs) == [97, 10, 98] && Keys(Console, Start, [97, 10, 98]) == Editor([97, 10], [98], false, [])
  {
    assert evs == [] + [Typed(97)] + [Typed(10)] + [Typed(98)];
    ExampleEvents();
    ExampleCharacters();
    ExampleKeys();
  }

  lemma ExampleEvents()
    ensures var evs := [] + [Typed(97)] + [Typed(10)] + [Typed(98)];
      AfterAll(Console, Session([], Start), evs) == Session([], Editor([97, 10], [98], false, []))
  {
    var s0, evs := Session([], Start), [] + [Typed(97)];
    AfterOne(Console, s0, [], Typed(97));
    AfterOne(Console, s0, evs, Typed(10));
    AfterOne(Console, s0, evs + [Typed(10)], Typed(98));
  }

  lemma ExampleKeys()
    ensures Keys(Console, Start, [97, 10, 98]) == Editor([97, 10], [98], false, [])
  {
    PressA();
    PressEnter();
    PressB();
    assert [97] + [10] == [97, 10] && [97, 10] + [98] == [97, 10, 98];
    KeysOne(Console, Start, [97], 10);
    KeysOne(Console, Start, [97, 10], 98);
  }

  lemma PressA()
    ensures Keys(Console, Start, [97]) == Editor([], [97], false, [])
  {
    assert [97][..0] == [];
    assert Key(Console, Start, 97) == Editor([], [97], false, []);
  }

  lemma PressEnter()
    ensures Key(Console, Editor([], [97], false, []), 10) == Editor([97, 10], [], false, [])
  {
    assert [97] + [10] == [97, 10];
  }

  lemma PressB()
    ensures Key(Console, Editor([97, 10], [], false, []), 98) == Editor([97, 10], [98], false, [])
  {
  }

  lemma ExampleCharacters()
    ensures TypedIn([] + [Typed(97)] + [Typed(10)] + [Typed(98)]) == [97, 10, 98]
  {
    TypedOne([], Typed(97));
    TypedOne([] + [Typed(97)], Typed(10));
    TypedOne([] + [Typed(97)] + [Typed(10)], Typed(98));
  }

  lemma TypedOne(evs: seq<Event>, ev: Event)
    ensures TypedIn(evs + [ev]) == TypedIn(evs) + if ev.Typed? then [ev.c] else []
  {
    assert (evs + [ev])[..|evs|] == evs;
  }

  lemma KeysOne(t: Termios, e: Editor, cs: seq<Char>, c: Char)
    ensures Keys(t, e, cs + [c]) == Key(t, Keys(t, e, cs), c)
  {
    assert (cs + [c])[..|cs|] == cs;
  }

  function AfterKeys(t: Termios, s: Session, cs: seq<Char>): Session {
    s.(e := Keys(t, s.e, cs))
  }

  predicate SameText(s: Session, p: Editor) {
    s.given + Text(s.e) == Text(p)
  }

  lemma {:induction false} AgreeKeys(t: Termios, s: Session, p: Editor, cs: seq<Char>)
    requires Agree(s, p)
    ensures Agree(AfterKeys(t, s, cs), Keys(t, p, cs)) && SameText(AfterKeys(t, s, cs), Keys(t, p, cs))
  {
    if cs == [] {
    } else {
      AgreeKeys(t, s, p, cs[..|cs| - 1]);
      KeyAgrees(t, AfterKeys(t, s, cs[..|cs| - 1]), Keys(t, p, cs[..|cs| - 1]), cs[|cs| - 1]);
    }
    var r, q := AfterKeys(t, s, cs), Keys(t, p, cs);
    assert r.given + (r.e.done + r.e.cur) == (r.given + r.e.done) + r.e.cur;
  }

  // ----- sequences of events -----

  function TypedAll(cs: seq<Char>): seq<Event> {
    seq(|cs|, i requires 0 <= i < |cs| => Typed(cs[i]))
  }

  lemma {:induction false} AfterTyped(t: Termios, s: Session, evs: seq<Event>, cs: seq<Char>)
    ensures AfterAll(t, s, evs + TypedAll(cs)) == AfterKeys(t, AfterAll(t, s, evs), cs)
  {
    if cs == [] {
      assert evs + TypedAll(cs) == evs;
    } else {
      var n := |cs| - 1;
      AfterTyped(t, s, evs, cs[..n]);
      assert evs + TypedAll(cs) == evs + TypedAll(cs[..n]) + [Typed(cs[n])];
      AfterOne(t, s, evs + TypedAll(cs[..n]), Typed(cs[n]));
    }
  }

  lemma AfterOne(t: Termios, s: Session, evs: seq<Event>, ev: Event)
    ensures AfterAll(t, s, evs + [ev]) == After(t, AfterAll(t, s, evs), ev)
  {
    assert (evs + [ev])[..|evs|] == evs;
  }

  /** The text that reader `who` was given in the course of a run. */
  function GivenTo(t: Termios, s: Session, evs: seq<Event>, who: nat): seq<Char> {
    if evs == [] then []
    else
      var n := |evs| - 1;
      match evs[n]
      case Typed(_) => GivenTo(t, s, evs[..n], who)
      case Taken(w, k) =>
        GivenTo(t, s, evs[..n], who) + if w == who then First(AfterAll(t, s, evs[..n]), k) else []
  }

  /** What a reader gets who takes k characters. */
  function First(s: Session, k: nat): seq<Char> {
    if k > |Text(s.e)| then [] else Text(s.e)[..k]
  }

  lemma GivenOne(t: Termios, s: Session, evs: seq<Event>, w: nat, k: nat, who: nat)
    ensures GivenTo(t, s, evs + [Taken(w, k)], who) == GivenTo(t, s, evs, who) + if w == who then First(AfterAll(t, s, evs), k) else []
  {
    assert (evs + [Taken(w, k)])[..|evs|] == evs;
  }

}
