/** The kernel's timers (kernel/sched.c): an array of slots, linked in the order of their deadlines;
    each holds the ticks that it waits after the one before it. */
module TimerList {
  import opened Sequences

  const TIME_REQUESTS := 64
  const NIL := -1

  // ----- the list as a sequence -----

  /** `due` is for the specification: the tick before which the callback was asked not to come. */
  datatype Entry = Entry(fn: nat, delta: int, due: int)

  /** A callback and the tick at which it was called. */
  datatype Shot = Shot(fn: nat, due: int, at: int)

  /** What a callback may do: ask for another timer. */
  datatype Request = Request(jiffies: int, fn: nat)

  function Insert(es: seq<Entry>, e: Entry): seq<Entry> {
    if es == [] || es[0].delta >= e.delta then [e] + es
    else [es[0]] + Insert(es[1..], e.(delta := e.delta - es[0].delta))
  }

  /** Ticks until entry i is called, if nothing is inserted. */
  function Wait(es: seq<Entry>, i: nat): int
    requires i < |es|
  {
    if i == 0 then es[0].delta else es[0].delta + Wait(es[1..], i - 1)
  }

  ghost predicate Positive(es: seq<Entry>) {
    forall i | 0 <= i < |es| :: es[i].delta >= 1 && es[i].fn != 0
  }

  /** Nobody will be called too early. */
  ghost predicate NotEarly(es: seq<Entry>, now: int) {
    forall i: nat | i < |es| :: now + Wait(es, i) >= es[i].due
  }

  /** Where Insert puts the new entry. */
  function Where(es: seq<Entry>, delta: int): (k: nat)
    ensures k <= |es|
  {
    if es == [] || es[0].delta >= delta then 0 else 1 + Where(es[1..], delta - es[0].delta)
  }

  /** Entry i of r, which is es with e at place k: e's delta is for the wait that e asked for. */
  ghost predicate Placed(es: seq<Entry>, e: Entry, r: seq<Entry>, k: nat, i: nat) {
    && |r| == |es| + 1 && k <= |es| && i <= |es| && r[i].delta >= 1 && r[i].fn != 0
    && (i == k ==> r[i] == e.(delta := r[i].delta) && Wait(r, i) == e.delta)
    && (i < k ==> r[i] == es[i] && Wait(r, i) == Wait(es, i))
    && (i > k ==> r[i] == es[i - 1] && Wait(r, i) == Wait(es, i - 1) + r[k].delta)
  }

  lemma PlacedLater(es: seq<Entry>, e: Entry, r: seq<Entry>, k: nat, i: nat)
    requires es != [] && |r| == |es| + 1 && r[0] == es[0] && k > 0 && i > 0
    requires Placed(es[1..], e.(delta := e.delta - es[0].delta), r[1..], k - 1, i - 1)
    ensures Placed(es, e, r, k, i)
  {
    assert Wait(r, i) == es[0].delta + Wait(r[1..], i - 1) && r[1..][i - 1] == r[i] && r[1..][k - 1] == r[k];
    if i < k {
      assert Wait(es, i) == es[0].delta + Wait(es[1..], i - 1);
    } else if i > k {
      assert Wait(es, i - 1) == es[0].delta + Wait(es[1..], i - 2);
    }
  }

  /** The new timer waits exactly as long as it asked for; the entries before it are unchanged, those
      behind it keep their order and wait no less than before. */
  lemma {:induction false} InsertSpec(es: seq<Entry>, e: Entry, i: nat)
    requires Positive(es) && e.delta >= 1 && e.fn != 0 && i <= |es|
    ensures Placed(es, e, Insert(es, e), Where(es, e.delta), i)
  {
    var r := Insert(es, e);
    if Where(es, e.delta) == 0 {
      assert r[1..] == es;
    } else {
      var e1 := e.(delta := e.delta - es[0].delta);
      InsertSpec(es[1..], e1, if i > 0 then i - 1 else 0);
      assert r[1..] == Insert(es[1..], e1) && r[0] == es[0];
      if i > 0 {
        PlacedLater(es, e, r, Where(es, e.delta), i);
      }
    }
  }

  lemma InsertNotEarly(es: seq<Entry>, e: Entry, now: int)
    requires Positive(es) && NotEarly(es, now) && e.delta >= 1 && e.fn != 0 && e.due == now + e.delta
    ensures Positive(Insert(es, e)) && NotEarly(Insert(es, e), now)
  {
    InsertSpec(es, e, Where(es, e.delta));
    var r := Insert(es, e);
    forall i: nat | i < |r|
      ensures now + Wait(r, i) >= r[i].due && r[i].delta >= 1 && r[i].fn != 0
    {
      InsertSpec(es, e, i);
    }
  }

  /** One tick off the first entry. */
  function Less(es: seq<Entry>): seq<Entry> {
    if es == [] then [] else [es[0].(delta := es[0].delta - 1)] + es[1..]
  }

  /** The list after a tick: the first entry goes if its time has come, and no other can. */
  function AfterTick(es: seq<Entry>): seq<Entry> {
    if es != [] && es[0].delta <= 1 then es[1..] else Less(es)
  }

  lemma TickNotEarly(es: seq<Entry>, now: int)
    requires Positive(es) && NotEarly(es, now)
    ensures Positive(AfterTick(es)) && NotEarly(AfterTick(es), now + 1)
    ensures es != [] && es[0].delta <= 1 ==> es[0].due <= now + 1
  {
    var r := AfterTick(es);
    if es != [] {
      assert now + Wait(es, 0) >= es[0].due;
      assert Less(es)[1..] == es[1..];
      forall i: nat | i < |r|
        ensures now + 1 + Wait(r, i) >= r[i].due
      {
        if es[0].delta <= 1 {
          assert Wait(es, i + 1) == es[0].delta + Wait(es[1..], i);
        } else if i > 0 {
          assert Wait(es, i) == es[0].delta + Wait(es[1..], i - 1);
        }
      }
    }
  }

  predicate Expires(es: seq<Entry>) {
    es != [] && es[0].delta <= 1
  }

  /** The timers, the callbacks so far, the tick count, and whether add_timer has panicked. */
  datatype Clock = Clock(es: seq<Entry>, shots: seq<Shot>, now: int, panic: bool)

  const Start := Clock([], [], 0, false)

  /** add_timer: a request with no time to wait is carried out at once; the panic is for a 65th timer. */
  function Asked(c: Clock, q: Request): Clock {
    if c.panic || q.fn == 0 then c
    else if q.jiffies <= 0 then c.(shots := c.shots + [Shot(q.fn, c.now + q.jiffies, c.now)])
    else if |c.es| == TIME_REQUESTS then c.(panic := true)
    else c.(es := Insert(c.es, Entry(q.fn, q.jiffies, c.now + q.jiffies)))
  }

  /** What add_timer promises: nothing for no function; a call at once if there is no time to wait; the panic with
      all 64 slots taken; otherwise no call now, and one that waits just as long as asked, behind the same others. */
  lemma AskedIs(c: Clock, q: Request)
    requires Positive(c.es) && !c.panic
    ensures var c' := Asked(c, q);
      && c'.now == c.now
      && (q.fn == 0 ==> c' == c)
      && (q.fn != 0 && q.jiffies <= 0 ==> c' == c.(shots := c.shots + [Shot(q.fn, c.now + q.jiffies, c.now)]))
      && (c'.panic <==> q.fn != 0 && q.jiffies > 0 && |c.es| == 64)
    ensures var c' := Asked(c, q);
      q.fn != 0 && q.jiffies > 0 && !c'.panic ==>
        && c'.shots == c.shots && |c'.es| == |c.es| + 1
        && exists i: nat :: i < |c'.es| && c'.es[i].fn == q.fn && c'.es[i].due == c.now + q.jiffies && Wait(c'.es, i) == q.jiffies
  {
    if q.fn != 0 && q.jiffies > 0 && |c.es| != 64 {
      var e := Entry(q.fn, q.jiffies, c.now + q.jiffies);
      var i := Where(c.es, e.delta);
      InsertSpec(c.es, e, i);
      assert Wait(Insert(c.es, e), i) == q.jiffies;
    }
  }

  function AskedAll(c: Clock, requests: seq<Request>): Clock {
    if requests == [] then c else Asked(AskedAll(c, requests[..|requests| - 1]), requests[|requests| - 1])
  }

  /** A tick, but for what the callback asks for. */
  function Ticked(c: Clock): Clock {
    Clock(AfterTick(c.es), if Expires(c.es) then c.shots + [Shot(c.es[0].fn, c.es[0].due, c.now + 1)] else c.shots, c.now + 1, c.panic)
  }

  /** add_timer by anybody, or a tick, in which the callback, if one comes, makes its requests. */
  datatype Event = Add(q: Request) | Tick(requests: seq<Request>)

  function After(c: Clock, ev: Event): Clock {
    if c.panic then c
    else
      match ev
      case Add(q) => Asked(c, q)
      case Tick(requests) => if Expires(c.es) then AskedAll(Ticked(c), requests) else Ticked(c)
  }

  function AfterAll(c: Clock, events: seq<Event>): Clock {
    if events == [] then c else After(AfterAll(c, events[..|events| - 1]), events[|events| - 1])
  }

  /** No callback came too early, and none will. */
  ghost predicate Punctual(c: Clock) {
    Positive(c.es) && NotEarly(c.es, c.now) && forall i | 0 <= i < |c.shots| :: c.shots[i].due <= c.shots[i].at <= c.now
  }

  lemma AskedPunctual(c: Clock, q: Request)
    requires Punctual(c)
    ensures Punctual(Asked(c, q))
  {
    if q.fn != 0 && q.jiffies > 0 {
      InsertNotEarly(c.es, Entry(q.fn, q.jiffies, c.now + q.jiffies), c.now);
    }
  }

  lemma {:induction false} AskedAllPunctual(c: Clock, requests: seq<Request>)
    requires Punctual(c)
    ensures Punctual(AskedAll(c, requests)) && AskedAll(c, requests).now == c.now
  {
    if requests == [] {
    } else {
      AskedAllPunctual(c, requests[..|requests| - 1]);
      AskedPunctual(AskedAll(c, requests[..|requests| - 1]), requests[|requests| - 1]);
    }
  }

  lemma TickedPunctual(c: Clock)
    requires Punctual(c)
    ensures Punctual(Ticked(c))
  {
    TickNotEarly(c.es, c.now);
  }

  lemma AfterPunctual(c: Clock, ev: Event)
    requires Punctual(c)
    ensures Punctual(After(c, ev))
  {
    match ev
    case Add(q) => AskedPunctual(c, q);
    case Tick(requests) =>
      TickedPunctual(c);
      AskedAllPunctual(Ticked(c), requests);
  }

  /** Over any run, with callbacks that ask for more timers, no callback comes before its time. */
  lemma {:induction false} RunPunctual(c: Clock, events: seq<Event>)
    requires Punctual(c)
    ensures Punctual(AfterAll(c, events))
  {
    if events == [] {
    } else {
      RunPunctual(c, events[..|events| - 1]);
      AfterPunctual(AfterAll(c, events[..|events| - 1]), events[|events| - 1]);
    }
  }

  // ----- when a timer is called -----

  /** One timer in the course of a run: pending at place i of the list, or called; `late` is what timers
      put in before it have added to its wait. */
  datatype Fate = Pending(i: nat, late: nat) | Called(at: int, late: nat)

  /** Is q put into the list, before entry i? */
  predicate Ahead(c: Clock, q: Request, i: nat) {
    !c.panic && q.fn != 0 && q.jiffies > 0 && |c.es| != TIME_REQUESTS && Where(c.es, q.jiffies) <= i
  }

  /** The delta with which the new timer of q stands in the list. */
  function NewDelta(c: Clock, q: Request): nat {
    var r, k := Insert(c.es, Entry(q.fn, q.jiffies, c.now + q.jiffies)), Where(c.es, q.jiffies);
    if k < |r| && r[k].delta > 0 then r[k].delta else 0
  }

  function FateAsked(c: Clock, q: Request, f: Fate): Fate {
    if f.Pending? && Ahead(c, q, f.i) then Pending(f.i + 1, f.late + NewDelta(c, q)) else f
  }

  function FateAskedAll(c: Clock, requests: seq<Request>, f: Fate): Fate {
    if requests == [] then f
    else
      var n := |requests| - 1;
      FateAsked(AskedAll(c, requests[..n]), requests[n], FateAskedAll(c, requests[..n], f))
  }

  function FateTicked(c: Clock, f: Fate): Fate {
    if f.Called? || !Expires(c.es) then f
    else if f.i == 0 then Called(c.now + 1, f.late)
    else Pending(f.i - 1, f.late)
  }

  function FateAfter(c: Clock, ev: Event, f: Fate): Fate {
    if c.panic then f
    else
      match ev
      case Add(q) => FateAsked(c, q, f)
      case Tick(requests) => if Expires(c.es) then FateAskedAll(Ticked(c), requests, FateTicked(c, f)) else FateTicked(c, f)
  }

  function FateAfterAll(c: Clock, events: seq<Event>, f: Fate): Fate {
    if events == [] then f
    else
      var n := |events| - 1;
      FateAfter(AfterAll(c, events[..n]), events[n], FateAfterAll(c, events[..n], f))
  }

  /** The timer (fn, due) is where f says; it was or will be called at `target`, plus what made it late. */
  ghost predicate FateOk(c: Clock, f: Fate, fn: nat, due: int, target: int) {
    match f
    case Pending(i, late) => i < |c.es| && c.es[i].fn == fn && c.es[i].due == due && c.now + Wait(c.es, i) == target + late
    case Called(at, late) => at == target + late && Shot(fn, due, at) in c.shots
  }

  /** Entry i after an insertion: where it stands, and how long it waits. */
  lemma InsertMoves(es: seq<Entry>, e: Entry, i: nat)
    requires Positive(es) && e.delta >= 1 && e.fn != 0 && i < |es|
    ensures var r, k := Insert(es, e), Where(es, e.delta);
      && k < |r| == |es| + 1 && r[k].delta >= 1
      && if k <= i then r[i + 1] == es[i] && Wait(r, i + 1) == Wait(es, i) + r[k].delta
         else r[i] == es[i] && Wait(r, i) == Wait(es, i)
  {
    InsertSpec(es, e, Where(es, e.delta));
    InsertSpec(es, e, i);
    InsertSpec(es, e, i + 1);
  }

  lemma FateAskedOk(c: Clock, q: Request, f: Fate, fn: nat, due: int, target: int)
    requires Punctual(c) && FateOk(c, f, fn, due, target)
    ensures FateOk(Asked(c, q), FateAsked(c, q, f), fn, due, target)
    ensures FateAsked(c, q, f).late >= f.late
    ensures FateAsked(c, q, f).late == f.late <==> f.Called? || !Ahead(c, q, f.i)
  {
    if !c.panic && q.fn != 0 && q.jiffies > 0 && |c.es| != TIME_REQUESTS && f.Pending? {
      assert c.now + Wait(c.es, f.i) == target + f.late;
      InsertMoves(c.es, Entry(q.fn, q.jiffies, c.now + q.jiffies), f.i);
    }
  }

  lemma {:induction false} FateAskedAllOk(c: Clock, requests: seq<Request>, f: Fate, fn: nat, due: int, target: int)
    requires Punctual(c) && FateOk(c, f, fn, due, target)
    ensures FateOk(AskedAll(c, requests), FateAskedAll(c, requests, f), fn, due, target)
  {
    if requests == [] {
    } else {
      var n := |requests| - 1;
      FateAskedAllOk(c, requests[..n], f, fn, due, target);
      AskedAllPunctual(c, requests[..n]);
      FateAskedOk(AskedAll(c, requests[..n]), requests[n], FateAskedAll(c, requests[..n], f), fn, due, target);
    }
  }

  lemma FateTickedOk(c: Clock, f: Fate, fn: nat, due: int, target: int)
    requires Punctual(c) && FateOk(c, f, fn, due, target)
    ensures FateOk(Ticked(c), FateTicked(c, f), fn, due, target)
  {
    if f.Pending? {
      assert c.es[0].delta >= 1;
      assert Less(c.es)[1..] == c.es[1..];
    }
  }

  lemma FateAfterOk(c: Clock, ev: Event, f: Fate, fn: nat, due: int, target: int)
    requires Punctual(c) && FateOk(c, f, fn, due, target)
    ensures FateOk(After(c, ev), FateAfter(c, ev, f), fn, due, target)
  {
    match ev
    case Add(q) => FateAskedOk(c, q, f, fn, due, target);
    case Tick(requests) =>
      FateTickedOk(c, f, fn, due, target);
      TickedPunctual(c);
      FateAskedAllOk(Ticked(c), requests, FateTicked(c, f), fn, due, target);
  }

  /** Over any run, each timer is called exactly at the tick that was its due when it was added, plus
      what the timers put in before it have added since. */
  lemma {:induction false} CalledWhen(c: Clock, events: seq<Event>, f: Fate, fn: nat, due: int, target: int)
    requires Punctual(c) && FateOk(c, f, fn, due, target)
    ensures FateOk(AfterAll(c, events), FateAfterAll(c, events, f), fn, due, target)
  {
    if events == [] {
    } else {
      var n := |events| - 1;
      CalledWhen(c, events[..n], f, fn, due, target);
      RunPunctual(c, events[..n]);
      FateAfterOk(AfterAll(c, events[..n]), events[n], FateAfterAll(c, events[..n], f), fn, due, target);
    }
  }

  /** None of the requests puts a timer before entry i. */
  predicate NoneAsked(c: Clock, requests: seq<Request>, i: nat) {
    forall n | 0 <= n < |requests| :: !Ahead(AskedAll(c, requests[..n]), requests[n], i)
  }

  /** Does ev put a timer before the one that is now entry i? */
  predicate AddsAhead(c: Clock, ev: Event, i: nat) {
    match ev
    case Add(q) => Ahead(c, q, i)
    case Tick(requests) => Expires(c.es) && i > 0 && !NoneAsked(Ticked(c), requests, i - 1)
  }

  /** Is entry i called in ev? */
  predicate CalledBy(c: Clock, ev: Event, i: nat) {
    ev.Tick? && Expires(c.es) && i == 0
  }

  /** The place of entry i after ev, if nothing was put in before it. */
  function PlaceAfter(c: Clock, ev: Event, i: nat): nat {
    if ev.Tick? && Expires(c.es) && i > 0 then i - 1 else i
  }

  /** None of the events puts a timer before the one that is now entry i, until that one is called. */
  predicate NoneAhead(c: Clock, events: seq<Event>, i: nat)
    decreases |events|
  {
    if events == [] || c.panic then true
    else !AddsAhead(c, events[0], i) && (CalledBy(c, events[0], i) || NoneAhead(After(c, events[0]), events[1..], PlaceAfter(c, events[0], i)))
  }

  lemma {:induction false} AfterFirst(c: Clock, events: seq<Event>, f: Fate)
    requires events != []
    ensures AfterAll(c, events) == AfterAll(After(c, events[0]), events[1..])
    ensures FateAfterAll(c, events, f) == FateAfterAll(After(c, events[0]), events[1..], FateAfter(c, events[0], f))
  {
    var n := |events| - 1;
    if n == 0 {
      assert AfterAll(c, events[..0]) == c && FateAfterAll(c, events[..0], f) == f;
    } else {
      AfterFirst(c, events[..n], f);
      assert events[..n][1..] == events[1..][..n - 1] && events[1..][n - 1] == events[n];
    }
  }

  lemma NoneAskedMore(c: Clock, requests: seq<Request>, i: nat)
    requires requests != []
    ensures var n := |requests| - 1;
      NoneAsked(c, requests, i) <==> NoneAsked(c, requests[..n], i) && !Ahead(AskedAll(c, requests[..n]), requests[n], i)
  {
    var n := |requests| - 1;
    assert forall m | 0 <= m < n :: requests[..n][..m] == requests[..m] && requests[..n][m] == requests[m];
  }

  lemma {:induction false} AskedLate(c: Clock, requests: seq<Request>, f: Fate, fn: nat, due: int, target: int)
    requires Punctual(c) && FateOk(c, f, fn, due, target)
    ensures var f' := FateAskedAll(c, requests, f);
      && f'.Called? == f.Called? && f'.late >= f.late
      && (f.Called? ==> f' == f)
      && (f.Pending? ==> (f'.late == f.late <==> NoneAsked(c, requests, f.i)) && (f'.late == f.late ==> f' == f))
  {
    if requests == [] {
    } else {
      var n := |requests| - 1;
      var r, f1 := requests[..n], FateAskedAll(c, requests[..n], f);
      AskedLate(c, r, f, fn, due, target);
      AskedAllPunctual(c, r);
      FateAskedAllOk(c, r, f, fn, due, target);
      FateAskedOk(AskedAll(c, r), requests[n], f1, fn, due, target);
      if f.Pending? {
        NoneAskedMore(c, requests, f.i);
      }
    }
  }

  lemma StepLate(c: Clock, ev: Event, f: Fate, fn: nat, due: int, target: int)
    requires Punctual(c) && FateOk(c, f, fn, due, target)
    ensures var f1 := FateAfter(c, ev, f);
      && f1.late >= f.late && (f.Called? || c.panic ==> f1 == f)
      && (f.Pending? && !c.panic ==>
            && (f1.late == f.late <==> !AddsAhead(c, ev, f.i))
            && (f1.late == f.late ==> f1 == if CalledBy(c, ev, f.i) then Called(c.now + 1, f.late) else Pending(PlaceAfter(c, ev, f.i), f.late)))
  {
    match ev
    case Add(q) => FateAskedOk(c, q, f, fn, due, target);
    case Tick(requests) =>
      TickedPunctual(c);
      FateTickedOk(c, f, fn, due, target);
      AskedLate(Ticked(c), requests, FateTicked(c, f), fn, due, target);
  }

  /** Nothing makes a timer late but what is put in before it. */
  lemma {:induction false} LateIfAhead(c: Clock, events: seq<Event>, f: Fate, fn: nat, due: int, target: int)
    requires Punctual(c) && FateOk(c, f, fn, due, target)
    ensures var f' := FateAfterAll(c, events, f);
      f'.late >= f.late && (f'.late == f.late <==> f.Called? || NoneAhead(c, events, f.i))
    decreases |events|
  {
    if events == [] {
    } else {
      var ev := events[0];
      var f1 := FateAfter(c, ev, f);
      AfterPunctual(c, ev);
      FateAfterOk(c, ev, f, fn, due, target);
      StepLate(c, ev, f, fn, due, target);
      LateIfAhead(After(c, ev), events[1..], f1, fn, due, target);
      AfterFirst(c, events, f);
      LateFirst(c, events, f, f1, FateAfterAll(c, events, f));
    }
  }

  lemma LateFirst(c: Clock, events: seq<Event>, f: Fate, f1: Fate, f': Fate)
    requires events != [] && f'.late >= f1.late >= f.late && (f.Called? || c.panic ==> f1 == f)
    requires f.Pending? && !c.panic ==>
      && (f1.late == f.late <==> !AddsAhead(c, events[0], f.i))
      && (f1.late == f.late ==> f1 == if CalledBy(c, events[0], f.i) then Called(c.now + 1, f.late) else Pending(PlaceAfter(c, events[0], f.i), f.late))
    requires f'.late == f1.late <==> f1.Called? || NoneAhead(After(c, events[0]), events[1..], f1.i)
    ensures f'.late == f.late <==> f.Called? || NoneAhead(c, events, f.i)
  {
  }

  lemma AskedPends(c: Clock, q: Request)
    requires Punctual(c) && !c.panic && q.fn != 0 && q.jiffies > 0 && |c.es| != TIME_REQUESTS
    ensures FateOk(Asked(c, q), Pending(Where(c.es, q.jiffies), 0), q.fn, c.now + q.jiffies, c.now + q.jiffies)
  {
    InsertSpec(c.es, Entry(q.fn, q.jiffies, c.now + q.jiffies), Where(c.es, q.jiffies));
  }

  lemma CalledLate(c: Clock, f: Fate, fn: nat, due: int)
    requires FateOk(c, f, fn, due, due)
    ensures f.Called? ==> Shot(fn, due, f.at) in c.shots && f.at >= due && (f.at == due <==> f.late == 0)
  {
  }

  lemma OnTimeFrom(c: Clock, events: seq<Event>, i: nat, fn: nat, due: int)
    requires Punctual(c) && FateOk(c, Pending(i, 0), fn, due, due)
    ensures var f := FateAfterAll(c, events, Pending(i, 0));
      f.Called? ==> Shot(fn, due, f.at) in AfterAll(c, events).shots && f.at >= due && (f.at == due <==> NoneAhead(c, events, i))
  {
    LateIfAhead(c, events, Pending(i, 0), fn, due, due);
    CalledWhen(c, events, Pending(i, 0), fn, due, due);
    CalledLate(AfterAll(c, events), FateAfterAll(c, events, Pending(i, 0)), fn, due);
  }

  lemma OnTimeAfter(c: Clock, q: Request, c1: Clock, events: seq<Event>, i: nat, due: int, f: Fate)
    requires Punctual(c) && !c.panic && q.fn != 0 && q.jiffies > 0 && |c.es| != TIME_REQUESTS
    requires c1 == Asked(c, q) && i == Where(c.es, q.jiffies) && due == c.now + q.jiffies && f == FateAfterAll(c1, events, Pending(i, 0))
    ensures f.Called? ==> Shot(q.fn, due, f.at) in AfterAll(c1, events).shots && f.at >= due && (f.at == due <==> NoneAhead(c1, events, i))
  {
    AskedPends(c, q);
    AskedPunctual(c, q);
    OnTimeFrom(c1, events, i, q.fn, due);
  }

  /** A timer that is added is never called before it is due, and it is called when it is due if and only
      if no timer was put in before it while it was pending. */
  lemma OnTime(c: Clock, q: Request, events: seq<Event>)
    requires Punctual(c) && !c.panic && q.fn != 0 && q.jiffies > 0 && |c.es| != TIME_REQUESTS
    ensures var i, due := Where(c.es, q.jiffies), c.now + q.jiffies; var f := FateAfterAll(Asked(c, q), events, Pending(i, 0));
      f.Called? ==>
        Shot(q.fn, due, f.at) in AfterAll(Asked(c, q), events).shots && f.at >= due && (f.at == due <==> NoneAhead(Asked(c, q), events, i))
  {
    var c1, i := Asked(c, q), Where(c.es, q.jiffies);
    OnTimeAfter(c, q, c1, events, i, c.now + q.jiffies, FateAfterAll(c1, events, Pending(i, 0)));
  }

  lemma {:induction false} AfterBoth(c: Clock, a: seq<Event>, b: seq<Event>)
    ensures AfterAll(c, a + b) == AfterAll(AfterAll(c, a), b)
  {
    if b == [] {
      assert a + b == a;
    } else {
      var n, s := |b| - 1, a + b;
      assert s[..|s| - 1] == a + b[..n] && s[|s| - 1] == b[n];
      AfterBoth(c, a, b[..n]);
    }
  }

  function Pause(n: nat): (events: seq<Event>)
    ensures |events| == n
  {
    seq(n, _ => Tick([]))
  }

  lemma {:induction false} PausePasses(c: Clock, n: nat)
    requires !c.panic && c.es != [] && n < c.es[0].delta
    ensures AfterAll(c, Pause(n)) == Clock([c.es[0].(delta := c.es[0].delta - n)] + c.es[1..], c.shots, c.now + n, false)
  {
    if n == 0 {
      assert [c.es[0]] + c.es[1..] == c.es;
    } else {
      assert Pause(n)[..n - 1] == Pause(n - 1);
      PausePasses(c, n - 1);
    }
  }

  /** The first timer is called when its ticks are over. */
  lemma PauseCalls(c: Clock)
    requires !c.panic && c.es != [] && c.es[0].delta >= 1
    ensures AfterAll(c, Pause(c.es[0].delta)) ==
      Clock(c.es[1..], c.shots + [Shot(c.es[0].fn, c.es[0].due, c.now + c.es[0].delta)], c.now + c.es[0].delta, false)
  {
    var n := c.es[0].delta - 1;
    PausePasses(c, n);
    var c1 := AfterAll(c, Pause(n));
    assert Pause(n + 1)[..n] == Pause(n) && c1.es[1..] == c.es[1..];
  }

  lemma TwoAsked()
    ensures AfterAll(Start, [Add(Request(10, 1)), Add(Request(5, 2))]) == Clock([Entry(2, 5, 5), Entry(1, 10, 10)], [], 0, false)
  {
    var a, b := Add(Request(10, 1)), Add(Request(5, 2));
    assert [a, b][..1] == [a] && [a][..0] == [];
    assert AfterAll(Start, [a]) == Clock([Entry(1, 10, 10)], [], 0, false);
  }

  /** It happens: a timer for 10 ticks is followed by one for 5, and comes after 15. */
  lemma LateExample()
    ensures var c := AfterAll(Start, [Add(Request(10, 1)), Add(Request(5, 2))] + Pause(15));
      c.es == [] && c.shots == [Shot(2, 5, 5), Shot(1, 10, 15)]
  {
    var a, b := Add(Request(10, 1)), Add(Request(5, 2));
    TwoAsked();
    var c := AfterAll(Start, [a, b]);
    PauseCalls(c);
    var c1 := AfterAll(c, Pause(5));
    PauseCalls(c1);
    assert Pause(15) == Pause(5) + Pause(10);
    AfterBoth(Start, [a, b], Pause(15));
    AfterBoth(c, Pause(5), Pause(10));
  }

  function Ticks(es: seq<Entry>, n: nat): seq<Entry>
    decreases n
  {
    if n == 0 then es else Ticks(AfterTick(es), n - 1)
  }

  /** If no timer is added, entry i is the first, with one tick to go, after Wait(es, i) - 1 ticks. */
  lemma {:induction false} CalledInTurn(es: seq<Entry>, i: nat)
    requires Positive(es) && i < |es|
    ensures Wait(es, i) >= 1
    ensures var r := Ticks(es, Wait(es, i) - 1); r != [] && r[0] == es[i].(delta := 1)
    decreases |es|, es[0].delta
  {
    WaitPositive(es, i);
    var r := AfterTick(es);
    if es[0].delta > 1 {
      assert r[1..] == es[1..];
      assert i > 0 ==> r[i] == es[i];
      CalledInTurn(r, i);
    } else if i > 0 {
      CalledInTurn(r, i - 1);
    }
  }

  lemma {:induction false} WaitPositive(es: seq<Entry>, i: nat)
    requires Positive(es) && i < |es|
    ensures Wait(es, i) >= 1
  {
    if i == 0 {
    } else {
      WaitPositive(es[1..], i - 1);
    }
  }

  // ----- the slots -----

  datatype Slot = Slot(jiffies: int, fn: nat, next: int)

  predicate SlotAt(slots: seq<Slot>, order: seq<nat>, es: seq<Entry>, i: nat)
    requires i < |order| == |es|
  {
    && order[i] < |slots|
    && slots[order[i]] == Slot(es[i].delta, es[i].fn, if i + 1 < |order| then order[i + 1] else NIL)
  }

  /** The slots in `order` are linked from `first` on and hold the entries; all others are free. */
  ghost predicate Linked(slots: seq<Slot>, first: int, order: seq<nat>, es: seq<Entry>) {
    && |order| == |es| && Distinct(order)
    && first == (if order == [] then NIL else order[0])
    && (forall i | 0 <= i < |order| :: SlotAt(slots, order, es, i))
    && (forall s: nat | s < |slots| && s !in order :: slots[s].fn == 0)
  }

  /** es with d put in at place k. */
  function With(es: seq<Entry>, k: nat, d: Entry): seq<Entry>
    requires k <= |es|
  {
    es[..k] + [d] + es[k..]
  }

  lemma WithAt(slots: seq<Slot>, first: int, order: seq<nat>, es: seq<Entry>, k: nat, d: Entry)
    requires k <= |es| && Linked(slots, first, order, With(es, k, d))
    ensures order[k] < |slots| && slots[order[k]].jiffies == d.delta
    ensures k == |es| ==> slots[order[k]].next == NIL
    ensures k < |es| ==> 0 <= slots[order[k]].next < |slots| && slots[slots[order[k]].next].jiffies == es[k].delta
    ensures k == |es| || es[k].delta >= d.delta ==> es[..k] + Insert(es[k..], d) == With(es, k, d)
  {
    assert SlotAt(slots, order, With(es, k, d), k);
    if k < |es| {
      assert SlotAt(slots, order, With(es, k, d), k + 1) && With(es, k, d)[k + 1] == es[k];
    }
  }

  /** Exchanging the new entry with the one behind it. */
  lemma WithStep(es: seq<Entry>, k: nat, d: Entry)
    requires k < |es| && es[k].delta < d.delta
    ensures var d' := d.(delta := d.delta - es[k].delta);
      && With(es, k, d)[k] == d && With(es, k, d)[k + 1] == es[k]
      && With(es, k, d)[k := es[k]][k + 1 := d'] == With(es, k + 1, d')
  {
    var d' := d.(delta := d.delta - es[k].delta);
    var a, b := With(es, k, d)[k := es[k]][k + 1 := d'], With(es, k + 1, d');
    forall i | 0 <= i < |a|
      ensures a[i] == b[i]
    {
    }
  }

  lemma Regroup(a: seq<Entry>, b: seq<Entry>, c: seq<Entry>)
    ensures a + (b + c) == a + b + c
  {
  }

  lemma InsertStep(es: seq<Entry>, k: nat, d: Entry)
    requires k < |es| && es[k].delta < d.delta
    ensures es[..k] + Insert(es[k..], d) == es[..k + 1] + Insert(es[k + 1..], d.(delta := d.delta - es[k].delta))
  {
    var rest := Insert(es[k + 1..], d.(delta := d.delta - es[k].delta));
    assert es[k..][1..] == es[k + 1..];
    assert Insert(es[k..], d) == [es[k]] + rest;
    Regroup(es[..k], [es[k]], rest);
    assert es[..k] + [es[k]] == es[..k + 1];
  }

  /** One exchange of neighbours: k's entry moves one place back, and waits that much less. */
  lemma SwapLinked(slots: seq<Slot>, slots': seq<Slot>, first: int, order: seq<nat>, es: seq<Entry>, k: nat)
    requires Linked(slots, first, order, es) && k + 1 < |es|
    requires order[k] < |slots| && order[k + 1] < |slots|
    requires var p, q := order[k], order[k + 1];
      slots' == slots[p := Slot(es[k + 1].delta, es[k + 1].fn, slots[p].next)][q := Slot(es[k].delta - es[k + 1].delta, es[k].fn, slots[q].next)]
    ensures Linked(slots', first, order, es[k := es[k + 1]][k + 1 := es[k].(delta := es[k].delta - es[k + 1].delta)])
  {
    var es' := es[k := es[k + 1]][k + 1 := es[k].(delta := es[k].delta - es[k + 1].delta)];
    assert order[k] in order && order[k + 1] in order;
    forall i | 0 <= i < |order|
      ensures SlotAt(slots', order, es', i)
    {
      assert SlotAt(slots, order, es, i);
    }
  }

  function UpTo(n: nat): (r: set<nat>)
    ensures |r| == n && forall a: nat :: a in r <==> a < n
  {
    if n == 0 then {} else UpTo(n - 1) + {n - 1}
  }

  /** The list has one entry for each slot exactly if no slot is free. */
  lemma AllUsed(slots: seq<Slot>, first: int, order: seq<nat>, es: seq<Entry>)
    requires Linked(slots, first, order, es) && Positive(es)
    ensures |es| == |slots| <==> forall s | 0 <= s < |slots| :: slots[s].fn != 0
  {
    forall i | 0 <= i < |order|
      ensures order[i] < |slots| && slots[order[i]].fn != 0
    {
      assert SlotAt(slots, order, es, i);
    }
    DistinctCount(order);
    assert Members(order) <= UpTo(|slots|);
    Whole(Members(order), UpTo(|slots|));
    if forall s | 0 <= s < |slots| :: slots[s].fn != 0 {
      assert Members(order) == UpTo(|slots|);
    } else {
      var s: nat :| s < |slots| && slots[s].fn == 0;
      assert s in UpTo(|slots|) && s !in Members(order);
    }
  }

  lemma Whole(s: set<nat>, t: set<nat>)
    requires s <= t
    ensures |s| == |t| <==> s == t
  {
    assert t == s + (t - s);
  }

  lemma {:induction false} PanicStays(c: Clock, requests: seq<Request>, i: nat)
    requires i <= |requests| && AskedAll(c, requests[..i]).panic
    ensures AskedAll(c, requests).panic
    decreases |requests| - i
  {
    assert requests[..|requests|] == requests;
    if i == |requests| {
    } else {
      assert requests[..i + 1][..i] == requests[..i];
      PanicStays(c, requests, i + 1);
    }
  }

  /** A free slot in front of the list. */
  lemma FirstLinked(slots: seq<Slot>, first: int, order: seq<nat>, es: seq<Entry>, p: nat, e: Entry)
    requires Linked(slots, first, order, es) && Positive(es) && p < |slots| && slots[p].fn == 0
    ensures Linked(slots[p := Slot(e.delta, e.fn, first)], p, [p] + order, [e] + es)
  {
    var slots', order', es' := slots[p := Slot(e.delta, e.fn, first)], [p] + order, [e] + es;
    forall i | 0 <= i < |order|
      ensures order[i] != p
    {
      assert SlotAt(slots, order, es, i);
    }
    forall i | 0 <= i < |order'|
      ensures SlotAt(slots', order', es', i)
    {
      if i > 0 {
        assert SlotAt(slots, order, es, i - 1);
      }
    }
    forall s: nat | s < |slots| && s !in order'
      ensures slots'[s].fn == 0
    {
      assert order'[0] == p;
      assert forall i | 0 <= i < |order| :: order'[i + 1] == order[i];
    }
  }

  lemma LessLinked(slots: seq<Slot>, first: nat, order: seq<nat>, es: seq<Entry>)
    requires Linked(slots, first, order, es) && first < |slots|
    ensures Linked(slots[first := slots[first].(jiffies := slots[first].jiffies - 1)], first, order, Less(es))
  {
    var slots' := slots[first := slots[first].(jiffies := slots[first].jiffies - 1)];
    assert order[0] == first && first in order;
    forall i | 0 <= i < |order|
      ensures SlotAt(slots', order, Less(es), i)
    {
      assert SlotAt(slots, order, es, i);
    }
  }

  lemma PopLinked(slots: seq<Slot>, first: nat, order: seq<nat>, es: seq<Entry>)
    requires Linked(slots, first, order, es) && first < |slots|
    ensures Linked(slots[first := slots[first].(fn := 0)], slots[first].next, order[1..], es[1..])
  {
    var slots' := slots[first := slots[first].(fn := 0)];
    assert SlotAt(slots, order, es, 0) && order == [first] + order[1..];
    forall i | 0 <= i < |order| - 1
      ensures SlotAt(slots', order[1..], es[1..], i)
    {
      assert SlotAt(slots, order, es, i + 1);
    }
  }

  // ----- runs -----

  lemma AfterMore(c: Clock, events: seq<Event>, i: nat)
    requires i < |events|
    ensures AfterAll(c, events[..i + 1]) == After(AfterAll(c, events[..i]), events[i])
  {
    assert events[..i + 1][..i] == events[..i];
  }

  lemma {:induction false} RunPanics(c: Clock, events: seq<Event>, i: nat)
    requires i <= |events| && AfterAll(c, events[..i]).panic
    ensures AfterAll(c, events).panic
    decreases |events| - i
  {
    assert events[..|events|] == events;
    if i == |events| {
    } else {
      AfterMore(c, events, i);
      RunPanics(c, events, i + 1);
    }
  }

  class Timers {
    const slot: array<Slot>
    var first: int
    var now: int
    ghost var order: seq<nat>
    ghost var entries: seq<Entry>
    ghost var shots: seq<Shot>

    ghost predicate Rep()
      reads this, slot
    {
      slot.Length == TIME_REQUESTS && Linked(slot[..], first, order, entries)
    }

    ghost function View(): Clock
      reads this
    {
      Clock(entries, shots, now, false)
    }

    /** Every callback so far came at its time or later, and so will the pending ones. */
    ghost predicate Valid()
      reads this, slot
    {
      Rep() && Punctual(View())
    }

    constructor ()
      ensures Valid() && View() == Start && fresh(slot)
    {
      slot := new Slot[TIME_REQUESTS](_ => Slot(0, 0, NIL));
      first, now := NIL, 0;
      order, entries, shots := [], [], [];
    }

    /** A free slot; TIME_REQUESTS if there is none. */
    method FreeSlot() returns (p: nat)
      requires slot.Length == TIME_REQUESTS
      ensures p <= TIME_REQUESTS && (p < TIME_REQUESTS ==> slot[p].fn == 0)
      ensures p == TIME_REQUESTS ==> forall s | 0 <= s < TIME_REQUESTS :: slot[s].fn != 0
    {
      p := 0;
      while p < TIME_REQUESTS && slot[p].fn != 0
        invariant p <= TIME_REQUESTS && forall s | 0 <= s < p :: slot[s].fn != 0
      {
        p := p + 1;
      }
    }

    /** add_timer; false is its panic, for no slot is free. */
    method AddTimer(q: Request) returns (ok: bool)
      requires Valid()
      modifies slot, `first, `order, `entries, `shots
      ensures ok <==> !Asked(old(View()), q).panic
      ensures ok ==> Valid() && View() == Asked(old(View()), q)
      ensures q.fn != 0 && q.jiffies <= 0 ==> ok && shots == old(shots) + [Shot(q.fn, now + q.jiffies, now)]
      ensures ok && (q.fn == 0 || q.jiffies > 0) ==> shots == old(shots)
    {
      AskedPunctual(View(), q);
      if q.fn == 0 {
        return true;
      }
      if q.jiffies <= 0 {
        shots := shots + [Shot(q.fn, now + q.jiffies, now)];
        return true;
      }
      AllUsed(slot[..], first, order, entries);
      var p := FreeSlot();
      if p >= TIME_REQUESTS {
        return false;
      }
      ghost var e := Entry(q.fn, q.jiffies, now + q.jiffies);
      slot[p] := Slot(q.jiffies, q.fn, first);
      FirstLinked(old(slot[..]), first, order, entries, p, e);
      first := p;
      order := [p] + order;
      MoveBack(p, e);
      ok := true;
    }

    /** The loop of add_timer: the new entry e, in front, changes places with earlier ones. */
    method MoveBack(start: nat, ghost e: Entry)
      requires slot.Length == TIME_REQUESTS && Linked(slot[..], first, order, [e] + entries) && start == first
      modifies slot, `entries
      ensures Linked(slot[..], first, order, entries) && entries == Insert(old(entries), e)
    {
      var p := start;
      ghost var es, k, d := entries, 0, e;
      assert With(es, 0, e) == [e] + es && es[0..] == es;
      while Earlier(p)
        invariant 0 <= k <= |es| && |order| == |es| + 1 && p == order[k]
        invariant Linked(slot[..], first, order, With(es, k, d))
        invariant Insert(es, e) == es[..k] + Insert(es[k..], d)
        decreases |es| - k
      {
        WithAt(slot[..], first, order, es, k, d);
        var q := Exchange(p, k, With(es, k, d));
        WithStep(es, k, d);
        InsertStep(es, k, d);
        p := q;
        d := d.(delta := d.delta - es[k].delta);
        k := k + 1;
      }
      WithAt(slot[..], first, order, es, k, d);
      entries := With(es, k, d);
    }

    /** The entries in slot p and in the slot behind it change places. */
    method Exchange(p: nat, ghost k: nat, ghost es: seq<Entry>) returns (q: nat)
      requires slot.Length == TIME_REQUESTS && Linked(slot[..], first, order, es) && k + 1 < |es| && p == order[k]
      modifies slot
      ensures q == order[k + 1]
      ensures Linked(slot[..], first, order, es[k := es[k + 1]][k + 1 := es[k].(delta := es[k].delta - es[k + 1].delta)])
    {
      assert SlotAt(slot[..], order, es, k) && SlotAt(slot[..], order, es, k + 1);
      q := slot[p].next;
      ghost var before := slot[..];
      slot[p] := slot[p].(jiffies := slot[p].jiffies - slot[q].jiffies);
      slot[p], slot[q] := slot[p].(fn := slot[q].fn), slot[q].(fn := slot[p].fn);
      slot[p], slot[q] := slot[p].(jiffies := slot[q].jiffies), slot[q].(jiffies := slot[p].jiffies);
      SwapLinked(before, slot[..], first, order, es, k);
    }

    /** What a callback asks for. */
    method Ask(requests: seq<Request>) returns (ok: bool)
      requires Valid()
      modifies slot, `first, `order, `entries, `shots
      ensures ok <==> !AskedAll(old(View()), requests).panic
      ensures ok ==> Valid() && View() == AskedAll(old(View()), requests)
    {
      ghost var c := View();
      ok := true;
      var i := 0;
      assert requests[..0] == [] && requests[..|requests|] == requests;
      while i < |requests| && ok
        invariant 0 <= i <= |requests| && (ok <==> !AskedAll(c, requests[..i]).panic)
        invariant ok ==> Valid() && View() == AskedAll(c, requests[..i])
        decreases |requests| - i
      {
        assert requests[..i + 1][..i] == requests[..i];
        ok := AddTimer(requests[i]);
        i := i + 1;
      }
      if !ok {
        PanicStays(c, requests, i);
      }
    }

    /** The timer part of do_timer. If the first timer's time has come, it is called and makes its
        requests; no second one can be called in the same tick. */
    method DoTimer(requests: seq<Request>) returns (ok: bool)
      requires Valid()
      modifies slot, `first, `now, `order, `entries, `shots
      ensures ok <==> !After(old(View()), Tick(requests)).panic
      ensures ok ==> Valid() && View() == After(old(View()), Tick(requests))
    {
      TickedPunctual(View());
      ghost var c := View();
      now := now + 1;
      if first == NIL {
        return true;
      }
      assert SlotAt(slot[..], order, entries, 0);
      slot[first] := slot[first].(jiffies := slot[first].jiffies - 1);
      LessLinked(old(slot[..]), first, order, entries);
      entries := Less(entries);
      ghost var called := false;
      ok := true;
      while ok && first != NIL && slot[first].jiffies <= 0
        invariant now == c.now + 1
        invariant !called ==> ok && Rep() && 0 <= first < slot.Length && slot[first].jiffies == c.es[0].delta - 1
        invariant !called ==> entries == Less(c.es) && shots == c.shots && Punctual(Ticked(c))
        invariant called ==> Expires(c.es) && (ok <==> !AskedAll(Ticked(c), requests).panic)
        invariant called && ok ==> Valid() && View() == AskedAll(Ticked(c), requests)
        invariant called && ok ==> first != NIL ==> 0 <= first < slot.Length && slot[first].jiffies > 0
        decreases !called
      {
        ok := CallFirst(c, requests);
        called := true;
      }
    }

    /** The first timer, whose time has come, is taken off the list and called. */
    method CallFirst(ghost c: Clock, requests: seq<Request>) returns (ok: bool)
      requires Rep() && Expires(c.es) && !c.panic && entries == Less(c.es) && shots == c.shots && now == c.now + 1 && first != NIL
      requires Punctual(Ticked(c))
      modifies slot, `first, `order, `entries, `shots
      ensures ok <==> !AskedAll(Ticked(c), requests).panic
      ensures ok ==> Valid() && View() == AskedAll(Ticked(c), requests)
      ensures ok && first != NIL ==> 0 <= first < slot.Length && slot[first].jiffies > 0
    {
      assert SlotAt(slot[..], order, entries, 0);
      PopLinked(slot[..], first, order, entries);
      ghost var after := slot[..][first := slot[first].(fn := 0)];
      var fn := slot[first].fn;
      slot[first] := slot[first].(fn := 0);
      assert slot[..] == after;
      first := slot[first].next;
      order, entries := order[1..], entries[1..];
      shots := shots + [Shot(fn, c.es[0].due, now)];
      assert View() == Ticked(c);
      ok := Ask(requests);
      if ok && first != NIL {
        assert SlotAt(slot[..], order, entries, 0);
      }
    }

    /** Is the entry behind slot p to come before it? */
    predicate Earlier(p: int)
      reads slot
    {
      && 0 <= p < slot.Length && 0 <= slot[p].next < slot.Length
      && slot[slot[p].next].jiffies < slot[p].jiffies
    }
  }

  /** The methods applied to a list of events, up to a panic, which comes exactly when a 65th timer is asked
      for. */
  method Execute(events: seq<Event>) returns (ok: bool, t: Timers)
    ensures ok <==> !AfterAll(Start, events).panic
    ensures ok ==> t.Valid() && t.View() == AfterAll(Start, events)
  {
    t := new Timers();
    ok := true;
    var i := 0;
    assert events[..0] == [] && events[..|events|] == events;
    while i < |events| && ok
      invariant 0 <= i <= |events| && fresh(t) && fresh(t.slot) && (ok <==> !AfterAll(Start, events[..i]).panic)
      invariant ok ==> t.Valid() && t.View() == AfterAll(Start, events[..i])
      decreases |events| - i
    {
      AfterMore(Start, events, i);
      match events[i] {
        case Add(q) => ok := t.AddTimer(q);
        case Tick(requests) => ok := t.DoTimer(requests);
      }
      i := i + 1;
    }
    if !ok {
      RunPanics(Start, events, i);
    }
  }
}
