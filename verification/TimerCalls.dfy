/**
 Which timers a pass calls and which stay: a timer is there after any number of passes
 if and only if its callback always wanted to be called again.
 */
module TimerCalls {
  import opened Common
  import opened TimerGrid

  // ---- which timers are called, and which stay ----

  /** A callback: the entry popped, the timer it comes from, and whether it wants to be called again. */
  datatype Call = Call(event: Event, origin: Origin, answer: bool)

  function Entries(calls: seq<Call>): (es: seq<Event>)
    ensures |es| == |calls| && forall k :: 0 <= k < |es| ==> es[k] == calls[k].event
  {
    seq(|calls|, k requires 0 <= k < |calls| => calls[k].event)
  }

  /** Timer `s` is still there. */
  ghost predicate Alive(es: seq<Event>, origins: map<nat, Origin>, s: Event) {
    exists e :: e in es && e.number in origins && origins[e.number].event == s
  }

  /** Whenever timer `s` was called it wanted to be called again. */
  ghost predicate AllYes(calls: seq<Call>, s: Event) {
    forall c :: c in calls && c.origin.event == s ==> c.answer
  }

  ghost predicate Called(calls: seq<Call>, s: Event) {
    exists c :: c in calls && c.origin.event == s
  }

  /** The timers that stay are exactly those no call of which was answered with no. */
  ghost predicate Kept(first: seq<Event>, es: seq<Event>, origins: map<nat, Origin>, calls: seq<Call>) {
    forall s :: s in first ==> (Alive(es, origins, s) <==> AllYes(calls, s))
  }

  /**
   A call is of a timer there was when the pass began, at its deadline, or a second
   time at a later point of its grid that is just the time of the pass; a timer that
   said no is not called any more.
   */
  ghost predicate Genuine(first: seq<Event>, before: seq<Call>, c: Call, now: real) {
    && c.origin.event in first && Descends(c.origin, c.event, now) && c.event.deadline <= now
    && AllYes(before, c.origin.event)
    && (c.origin.periods > 0 ==> c.event.deadline == now && Called(before, c.origin.event))
  }

  ghost predicate AllGenuine(first: seq<Event>, calls: seq<Call>, now: real) {
    forall k :: 0 <= k < |calls| ==> Genuine(first, calls[..k], calls[k], now)
  }

  /** A timer that has moved was called. */
  ghost predicate Credited(es: seq<Event>, origins: map<nat, Origin>, calls: seq<Call>) {
    forall e :: e in es ==>
      e.number in origins && (origins[e.number].periods > 0 ==> Called(calls, origins[e.number].event))
  }

  ghost predicate Tracked(first: seq<Event>, es: seq<Event>, origins: map<nat, Origin>, calls: seq<Call>, now: real) {
    Kept(first, es, origins, calls) && AllGenuine(first, calls, now) && Credited(es, origins, calls)
  }

  lemma TrackStart(first: seq<Event>, origins: map<nat, Origin>, now: real)
    requires forall e :: e in first ==> e.number in origins && origins[e.number] == Origin(e, 0)
    ensures Tracked(first, first, origins, [], now)
  {
  }

  /** Callback `k` of the pass answered `again(k)`. */
  ghost predicate Answers(calls: seq<Call>, again: nat -> bool) {
    forall k :: 0 <= k < |calls| ==> calls[k].answer == again(k)
  }

  lemma AnswersSnoc(calls: seq<Call>, c: Call, again: nat -> bool)
    requires Answers(calls, again) && c.answer == again(|calls|)
    ensures Answers(calls + [c], again)
  {
  }

  lemma EntriesSnoc(calls: seq<Call>, c: Call)
    ensures Entries(calls + [c]) == Entries(calls) + [c.event]
  {
  }

  lemma AllYesSnoc(calls: seq<Call>, c: Call, s: Event)
    ensures AllYes(calls + [c], s) <==> AllYes(calls, s) && (c.origin.event == s ==> c.answer)
    ensures Called(calls + [c], s) <==> Called(calls, s) || c.origin.event == s
  {
    assert c in calls + [c];
    forall x | x in calls ensures x in calls + [c] {
    }
  }

  lemma GenuineSnoc(first: seq<Event>, calls: seq<Call>, c: Call, now: real)
    requires AllGenuine(first, calls, now) && Genuine(first, calls, c, now)
    ensures AllGenuine(first, calls + [c], now)
  {
    hide Genuine;
    var more := calls + [c];
    forall k | 0 <= k < |more| ensures Genuine(first, more[..k], more[k], now) {
      assert more[..k] == if k < |calls| then calls[..k] else calls;
    }
  }

  /** The call of the entry at the top of the heap. */
  lemma TrackCall(first: seq<Event>, es: seq<Event>, origins: map<nat, Origin>, calls: seq<Call>, now: real,
      answer: bool)
    requires Tracked(first, es, origins, calls, now) && es != [] && es[0].deadline <= now
    requires es[0].number in origins && origins[es[0].number].event in first
    requires Descends(origins[es[0].number], es[0], now)
    ensures AllGenuine(first, calls + [Call(es[0], origins[es[0].number], answer)], now)
    ensures AllYes(calls, origins[es[0].number].event)
  {
    var e := es[0];
    var o := origins[e.number];
    assert e in es && Alive(es, origins, o.event);
    GenuineSnoc(first, calls, Call(e, o, answer), now);
  }

  /** A timer that says no is gone, the others are not concerned. */
  lemma TrackStop(first: seq<Event>, es: seq<Event>, origins: map<nat, Origin>, calls: seq<Call>, now: real)
    requires Tracked(first, es, origins, calls, now) && es != [] && es[0].deadline <= now
    requires es[0].number in origins && origins[es[0].number].event in first
    requires Descends(origins[es[0].number], es[0], now)
    requires forall e :: e in es[1..] ==> origins[e.number].event != origins[es[0].number].event
    ensures Tracked(first, es[1..], origins, calls + [Call(es[0], origins[es[0].number], false)], now)
  {
    hide Descends, AllYes, AllGenuine, Called;
    var c, rest := Call(es[0], origins[es[0].number], false), es[1..];
    TrackCall(first, es, origins, calls, now, false);
    assert forall x :: x in es <==> x == es[0] || x in rest;
    forall s | s in first ensures Alive(rest, origins, s) <==> AllYes(calls + [c], s) {
      AllYesSnoc(calls, c, s);
      assert s != c.origin.event ==> (Alive(rest, origins, s) <==> Alive(es, origins, s));
    }
    forall e | e in rest && origins[e.number].periods > 0 ensures Called(calls + [c], origins[e.number].event) {
      AllYesSnoc(calls, c, origins[e.number].event);
    }
  }

  /** A timer that says yes is there as the entry `next`. */
  lemma TrackAgain(first: seq<Event>, es: seq<Event>, origins: map<nat, Origin>, calls: seq<Call>, now: real,
                   next: Event, periods: nat)
    requires Tracked(first, es, origins, calls, now) && es != [] && es[0].deadline <= now
    requires es[0].number in origins && origins[es[0].number].event in first
    requires Descends(origins[es[0].number], es[0], now)
    requires forall e :: e in es ==> e.number != next.number
    ensures var o := origins[es[0].number];
            Tracked(first, Insert(es[1..], next), origins[next.number := Origin(o.event, periods)],
                    calls + [Call(es[0], o, true)], now)
  {
    hide Descends, AllYes, AllGenuine, Alive, Credited, Insert;
    var o := origins[es[0].number];
    var c, rest, after := Call(es[0], o, true), es[1..], origins[next.number := Origin(o.event, periods)];
    TrackCall(first, es, origins, calls, now, true);
    forall s | s in first ensures Alive(Insert(rest, next), after, s) <==> AllYes(calls + [c], s) {
      AllYesSnoc(calls, c, s);
      StillAlive(es, rest, origins, next, Origin(o.event, periods), s);
    }
    CreditedAgain(es, origins, calls, c, next, periods);
  }

  lemma CreditedAgain(es: seq<Event>, origins: map<nat, Origin>, calls: seq<Call>, c: Call, next: Event, periods: nat)
    requires Credited(es, origins, calls) && es != [] && forall e :: e in es ==> e.number != next.number
    ensures Credited(Insert(es[1..], next), origins[next.number := Origin(c.origin.event, periods)], calls + [c])
  {
    hide Called, Insert;
    var rest, after := es[1..], origins[next.number := Origin(c.origin.event, periods)];
    InsertContents(rest, next);
    forall e | e in Insert(rest, next)
      ensures e.number in after && (after[e.number].periods > 0 ==> Called(calls + [c], after[e.number].event))
    {
      assert e != next ==> e in es;
      AllYesSnoc(calls, c, after[e.number].event);
    }
  }

  lemma StillAlive(es: seq<Event>, rest: seq<Event>, origins: map<nat, Origin>, next: Event, o: Origin, s: Event)
    requires es != [] && rest == es[1..] && es[0].number in origins && o.event == origins[es[0].number].event
    requires forall e :: e in es ==> e.number != next.number
    ensures Alive(Insert(rest, next), origins[next.number := o], s) <==> Alive(es, origins, s)
  {
    hide Insert;
    InsertContents(rest, next);
    assert forall x :: x in es <==> x == es[0] || x in rest;
    var after := origins[next.number := o];
    if Alive(es, origins, s) {
      var e :| e in es && e.number in origins && origins[e.number].event == s;
      var e1 := if e == es[0] then next else e;
      assert e1 in Insert(rest, next) && e1.number in after && after[e1.number].event == s;
    }
    if Alive(Insert(rest, next), after, s) {
      var e :| e in Insert(rest, next) && e.number in after && after[e.number].event == s;
      var e1 := if e == next then es[0] else e;
      assert e1 in es && e1.number in origins && origins[e1.number].event == s;
    }
  }

  /** The calls answered with no. */
  ghost function Refusals(calls: seq<Call>): seq<Call> {
    if calls == [] then []
    else
      var last := |calls| - 1;
      Refusals(calls[..last]) + (if calls[last].answer then [] else [calls[last]])
  }

  lemma RefusalsSnoc(calls: seq<Call>, c: Call)
    ensures Refusals(calls + [c]) == Refusals(calls) + (if c.answer then [] else [c])
  {
    assert (calls + [c])[..|calls|] == calls;
  }

  /** Every timer that was due is called. */
  lemma DueIsCalled(first: seq<Event>, es: seq<Event>, origins: map<nat, Origin>, calls: seq<Call>, now: real, s: Event)
    requires Kept(first, es, origins, calls) && Credited(es, origins, calls) && Moved(first, es, origins, now)
    requires s in first && s.deadline <= now
    ensures Called(calls, s)
  {
    hide FirstAfter;
    if AllYes(calls, s) {
      assert Alive(es, origins, s);
      var e :| e in es && e.number in origins && origins[e.number].event == s;
      assert MovedTo(first, origins[e.number], e, now);
      PeriodsGone(s, e.delta, origins[e.number].periods, now);
    }
  }

  lemma PeriodsGone(s: Event, delta: real, periods: nat, now: real)
    requires FirstAfter(s.deadline, delta, periods, now) && s.deadline <= now
    ensures periods > 0
  {
  }

  // ---- a timer whose next point is just the time of the pass ----

  ghost predicate OnPoint(e: Event, now: real) {
    exists p: nat :: Grid(e.deadline, e.delta, p) == now
  }

  /** Timer `s` is due at `now` itself, or was called for that. */
  ghost predicate AtNow(es: seq<Event>, origins: map<nat, Origin>, calls: seq<Call>, s: Event, now: real) {
    || (exists e :: e in es && e.number in origins && origins[e.number].event == s && e.deadline == now)
    || CalledAt(calls, s, now)
  }

  ghost predicate CalledAt(calls: seq<Call>, s: Event, now: real) {
    exists c :: c in calls && c.origin.event == s && c.event.deadline == now
  }

  /** Whoever says yes with a point of its grid at `now` still to come gets its turn there. */
  ghost predicate Repeats(es: seq<Event>, origins: map<nat, Origin>, calls: seq<Call>, now: real) {
    forall c :: c in calls && c.answer && c.event.deadline < now && OnPoint(c.event, now) ==>
      AtNow(es, origins, calls, c.origin.event, now)
  }

  lemma AtNowStays(es: seq<Event>, after: seq<Event>, origins: map<nat, Origin>, origins1: map<nat, Origin>,
                   calls: seq<Call>, c: Call, s: Event, now: real)
    requires AtNow(es, origins, calls, s, now) && es != [] && es[0].number in origins
    requires c.event == es[0] && c.origin == origins[es[0].number]
    requires forall e :: e in es[1..] && e.number in origins ==>
               e in after && e.number in origins1 && origins1[e.number] == origins[e.number]
    ensures AtNow(after, origins1, calls + [c], s, now)
  {
    if CalledAt(calls, s, now) {
      var d :| d in calls && d.origin.event == s && d.event.deadline == now;
      assert d in calls + [c];
    } else {
      var e :| e in es && e.number in origins && origins[e.number].event == s && e.deadline == now;
      assert e == es[0] || e in es[1..];
      assert c in calls + [c];
    }
  }

  /** After a call, `after` being the entries left, with the caller back in its place if it said yes. */
  lemma RepeatsOn(es: seq<Event>, after: seq<Event>, origins: map<nat, Origin>, origins1: map<nat, Origin>,
                  calls: seq<Call>, c: Call, now: real)
    requires Repeats(es, origins, calls, now) && es != [] && es[0].number in origins
    requires c.event == es[0] && c.origin == origins[es[0].number]
    requires forall e :: e in es[1..] && e.number in origins ==>
               e in after && e.number in origins1 && origins1[e.number] == origins[e.number]
    requires c.answer && c.event.deadline < now && OnPoint(c.event, now) ==>
               exists e :: e in after && e.number in origins1 && origins1[e.number].event == c.origin.event
                           && e.deadline == now
    ensures Repeats(after, origins1, calls + [c], now)
  {
    hide AtNow, OnPoint;
    forall d | d in calls + [c] && d.answer && d.event.deadline < now && OnPoint(d.event, now)
      ensures AtNow(after, origins1, calls + [c], d.origin.event, now)
    {
      if d in calls {
        AtNowStays(es, after, origins, origins1, calls, c, d.origin.event, now);
      } else {
        InPlace(after, origins1, calls + [c], c.origin.event, now);
      }
    }
  }

  lemma InPlace(es: seq<Event>, origins: map<nat, Origin>, calls: seq<Call>, s: Event, now: real)
    requires exists e :: e in es && e.number in origins && origins[e.number].event == s && e.deadline == now
    ensures AtNow(es, origins, calls, s, now)
  {
  }

  /** The search for the next deadline stops at `now` if that is a point of the grid. */
  lemma StopsAt(e: Event, periods: nat, now: real)
    requires e.delta > 0.0 && e.deadline < now && OnPoint(e, now) && periods >= 1
    requires Grid(e.deadline, e.delta, periods) >= now
    requires periods > 1 ==> Grid(e.deadline, e.delta, periods - 1) < now
    ensures Grid(e.deadline, e.delta, periods) == now
  {
    var p: nat :| Grid(e.deadline, e.delta, p) == now;
    if p > periods { GridMonotone(e.deadline, e.delta, periods, p); }
    if p < periods && periods > 1 { GridMonotone(e.deadline, e.delta, p, periods - 1); }
  }

  /** Who said yes before `now`, with a point of its grid at `now`, was called there. */
  ghost predicate Repeated(calls: seq<Call>, now: real) {
    forall c :: c in calls && c.answer && c.event.deadline < now && OnPoint(c.event, now) ==>
      CalledAt(calls, c.origin.event, now)
  }

  lemma NoCalls(es: seq<Event>, origins: map<nat, Origin>, now: real)
    ensures Repeats(es, origins, [], now)
  {
  }

  /** At the end nothing is due at `now` any more. */
  lemma RepeatsDone(es: seq<Event>, origins: map<nat, Origin>, calls: seq<Call>, now: real)
    requires Repeats(es, origins, calls, now) && forall e :: e in es ==> e.deadline > now
    ensures Repeated(calls, now)
  {
    hide OnPoint, CalledAt;
  }

  // ---- one pass ----

  /** The state of a pass between two callbacks. */
  ghost predicate Midway(first: seq<Event>, start: History, es: seq<Event>, history: History,
                         origins: map<nat, Origin>, calls: seq<Call>, now: real)
  {
    && Passing(first, es, Entries(calls), origins, now) && Continues(start, history, es, origins)
    && Tracked(first, es, origins, calls, now) && Repeats(es, origins, calls, now)
    && |es| == |first| - |Refusals(calls)|
  }

  /** The entry of a timer behind `now`: the first point of its grid not before it. */
  ghost predicate NextEntry(e: Event, next: Event, periods: nat, now: real) {
    && periods >= 1 && next == e.(deadline := Grid(e.deadline, e.delta, periods), number := next.number)
    && next.deadline >= now && Grid(e.deadline, e.delta, periods - 1) <= now
    && (periods > 1 ==> Grid(e.deadline, e.delta, periods - 1) < now)
  }

  lemma MidwayStart(first: seq<Event>, history: History, origins: map<nat, Origin>, now: real, again: nat -> bool)
    requires forall d, e :: d in first && e in first && d.number == e.number ==> d == e
    requires forall e :: e in first ==> e.number in history && e.number in origins && origins[e.number] == Origin(e, 0)
    ensures Midway(first, history, first, history, origins, [], now) && Entries([]) == [] && Answers([], again)
  {
    PassStarts(first, origins, now);
    ContinuesStart(history, first, origins);
    TrackStart(first, origins, now);
    NoCalls(first, origins, now);
  }

  lemma KnownOrigin(first: seq<Event>, start: History, es: seq<Event>, history: History,
                    origins: map<nat, Origin>, calls: seq<Call>, now: real)
    requires Midway(first, start, es, history, origins, calls, now) && es != []
    ensures es[0].number in origins && origins[es[0].number].event in first
    ensures Descends(origins[es[0].number], es[0], now)
  {
    hide Continues, Tracked, Repeats, Descends;
    assert es[0] in es;
  }

  lemma MidwayStop(first: seq<Event>, start: History, es: seq<Event>, history: History,
                   origins: map<nat, Origin>, calls: seq<Call>, now: real)
    requires Midway(first, start, es, history, origins, calls, now)
    requires Sorted(es) && es != [] && es[0].deadline <= now
    requires es[0].number in origins
    ensures Midway(first, start, es[1..], history, origins, calls + [Call(es[0], origins[es[0].number], false)], now)
  {
    hide Passing, Continues, Tracked, Repeats, Descends, OnPoint, Sorted;
    var c := Call(es[0], origins[es[0].number], false);
    KnownOrigin(first, start, es, history, origins, calls, now);
    EntriesSnoc(calls, c);
    RefusalsSnoc(calls, c);
    PopPasses(first, es, Entries(calls), origins, now);
    ContinuesPop(start, history, es, origins);
    TrackStop(first, es, origins, calls, now);
    RepeatsOn(es, es[1..], origins, origins, calls, c, now);
  }

  lemma LaterPoint(e: Event, periods: nat)
    requires e.delta > 0.0 && periods >= 1
    ensures Grid(e.deadline, e.delta, periods) > e.deadline
  {
    GridMonotone(e.deadline, e.delta, 1, periods);
  }

  lemma AgainPasses(first: seq<Event>, es: seq<Event>, batch: seq<Event>, origins: map<nat, Origin>, now: real,
                    next: Event, periods: nat)
    requires Passing(first, es, batch, origins, now) && Sorted(es) && es != []
    requires es[0].deadline <= now && es[0].delta > 0.0 && es[0].number in origins
    requires origins[es[0].number].event in first && Descends(origins[es[0].number], es[0], now)
    requires (forall e :: e in es ==> e.number != next.number) && NextEntry(es[0], next, periods, now)
    ensures var o := origins[es[0].number];
            Passing(first, Insert(es[1..], next), batch + [es[0]],
                    origins[next.number := Origin(o.event, o.periods + periods)], now)
  {
    hide Passing, Descends, Sorted, Insert, Grid;
    var e, o := es[0], origins[es[0].number];
    PopPasses(first, es, batch, origins, now);
    DescendsOn(o, e, next, periods, now);
    LaterPoint(e, periods);
    PushPasses(first, es[1..], batch + [e], origins, now, next, Origin(o.event, o.periods + periods));
  }

  lemma AgainContinues(start: History, es: seq<Event>, h: (real, nat), history: History, origins: map<nat, Origin>,
                       next: Event, periods: nat)
    requires Continues(start, history, es, origins) && es != []
    requires es[0].number in origins && es[0].number in history && h == history[es[0].number]
    requires forall e :: e in es ==> e.number != next.number
    ensures var o := origins[es[0].number];
            Continues(start, history[next.number := (h.0, h.1 + periods)], Insert(es[1..], next),
                      origins[next.number := Origin(o.event, o.periods + periods)])
  {
    hide Continues;
    var o := origins[es[0].number];
    ContinuesPop(start, history, es, origins);
    ContinuesPush(start, history, es[1..], origins, next, Origin(o.event, o.periods + periods), (h.0, h.1 + periods));
  }

  lemma AgainRepeats(es: seq<Event>, origins: map<nat, Origin>, calls: seq<Call>, now: real, next: Event, periods: nat,
                     total: nat)
    requires Repeats(es, origins, calls, now) && es != [] && es[0].number in origins && es[0].delta > 0.0
    requires (forall e :: e in es ==> e.number != next.number) && NextEntry(es[0], next, periods, now)
    ensures var o := origins[es[0].number];
            Repeats(Insert(es[1..], next), origins[next.number := Origin(o.event, total)],
                    calls + [Call(es[0], o, true)], now)
  {
    hide Repeats, OnPoint, Insert, Grid;
    var e, o := es[0], origins[es[0].number];
    InsertContents(es[1..], next);
    if e.deadline < now && OnPoint(e, now) { StopsAt(e, periods, now); }
    RepeatsOn(es, Insert(es[1..], next), origins, origins[next.number := Origin(o.event, total)], calls,
              Call(e, o, true), now);
  }

  lemma MidwayAgain(first: seq<Event>, start: History, es: seq<Event>, h: (real, nat), history: History,
                    origins: map<nat, Origin>, calls: seq<Call>, now: real, next: Event, periods: nat)
    requires Midway(first, start, es, history, origins, calls, now)
    requires Sorted(es) && es != [] && es[0].deadline <= now && es[0].delta > 0.0
    requires es[0].number in origins && es[0].number in history && h == history[es[0].number]
    requires (forall e :: e in es ==> e.number != next.number) && NextEntry(es[0], next, periods, now)
    ensures var o := origins[es[0].number];
            Midway(first, start, Insert(es[1..], next), history[next.number := (h.0, h.1 + periods)],
                   origins[next.number := Origin(o.event, o.periods + periods)], calls + [Call(es[0], o, true)], now)
  {
    hide Passing, Continues, Tracked, Repeats, Descends, Sorted, Insert, NextEntry;
    var o := origins[es[0].number];
    var c := Call(es[0], o, true);
    KnownOrigin(first, start, es, history, origins, calls, now);
    EntriesSnoc(calls, c);
    RefusalsSnoc(calls, c);
    InsertLength(es[1..], next);
    AgainPasses(first, es, Entries(calls), origins, now, next, periods);
    AgainContinues(start, es, h, history, origins, next, periods);
    TrackAgain(first, es, origins, calls, now, next, o.periods + periods);
    AgainRepeats(es, origins, calls, now, next, periods, o.periods + periods);
  }

  lemma MidwayDone(first: seq<Event>, start: History, es: seq<Event>, history: History,
                   origins: map<nat, Origin>, calls: seq<Call>, now: real)
    requires Midway(first, start, es, history, origins, calls, now)
    requires Sorted(es) && (es != [] ==> es[0].deadline > now)
    ensures forall e :: e in es ==> e.deadline > now
    ensures Sorted(Entries(calls)) && AllGenuine(first, calls, now) && Repeated(calls, now)
    ensures forall e :: e in first ==> if e.deadline <= now then e in Entries(calls) else e in es
    ensures Kept(first, es, origins, calls) && Credited(es, origins, calls) && |es| == |first| - |Refusals(calls)|
    ensures Moved(first, es, origins, now) && Continues(start, history, es, origins)
  {
    hide Passing, Continues, Repeats, Moved, Sorted, Kept, AllGenuine, Credited;
    PassEnds(first, es, Entries(calls), origins, now);
    RepeatsDone(es, origins, calls, now);
  }

  // ---- any number of passes ----

  /** The calls of a pass, traced back to the timers there were before all passes. */
  ghost function Traced(calls: seq<Call>, soFar: map<nat, Origin>): (r: seq<Call>)
    ensures |r| == |calls| && Entries(r) == Entries(calls)
    ensures forall k :: 0 <= k < |r| ==> r[k] == TracedOne(calls[k], soFar)
  {
    seq(|calls|, k requires 0 <= k < |calls| => TracedOne(calls[k], soFar))
  }

  ghost function TracedOne(c: Call, soFar: map<nat, Origin>): Call {
    if c.origin.event.number in soFar then
      var o := soFar[c.origin.event.number];
      c.(origin := Origin(o.event, o.periods + c.origin.periods))
    else c
  }

  function Concat<T>(log: seq<seq<T>>): seq<T> {
    if log == [] then [] else Concat(log[..|log| - 1]) + log[|log| - 1]
  }

  lemma ConcatSnoc<T>(log: seq<seq<T>>, calls: seq<T>)
    ensures Concat(log + [calls]) == Concat(log) + calls
  {
    assert (log + [calls])[..|log|] == log;
  }

  /** The entry is its origin, so many periods later. */
  ghost predicate Follows(o: Origin, e: Event) {
    && e.callback == o.event.callback && e.cookie == o.event.cookie && e.delta == o.event.delta
    && e.deadline == Grid(o.event.deadline, o.event.delta, o.periods)
  }

  /** Where each timer comes from, no two from the same one. */
  ghost predicate Traceable(first: seq<Event>, es: seq<Event>, origins: map<nat, Origin>) {
    && (forall e :: e in es ==>
          e.number in origins && origins[e.number].event in first && Follows(origins[e.number], e))
    && Apart(es, origins)
  }

  lemma MovedTraceable(first: seq<Event>, es: seq<Event>, origins: map<nat, Origin>, now: real)
    requires Moved(first, es, origins, now)
    ensures Traceable(first, es, origins)
  {
    hide Grid, FirstAfter, Apart;
  }

  lemma IdentityTraceable(first: seq<Event>, origins: map<nat, Origin>)
    requires forall d, e :: d in first && e in first && d.number == e.number ==> d == e
    requires forall e :: e in first ==> e.number in origins && origins[e.number] == Origin(e, 0)
    ensures Traceable(first, first, origins)
  {
  }

  /** A call of a timer there was, at a point of its grid, before it ever said no. */
  ghost predicate OnItsGrid(first: seq<Event>, before: seq<Call>, c: Call) {
    c.origin.event in first && Follows(c.origin, c.event) && AllYes(before, c.origin.event)
  }

  ghost predicate AllOnGrid(first: seq<Event>, calls: seq<Call>) {
    forall k :: 0 <= k < |calls| ==> OnItsGrid(first, calls[..k], calls[k])
  }

  lemma AllYesConcat(a: seq<Call>, b: seq<Call>, s: Event)
    ensures AllYes(a + b, s) <==> AllYes(a, s) && AllYes(b, s)
  {
    forall c | c in a || c in b ensures c in a + b {
    }
  }

  /** What a later pass says of an entry it says of the timer behind it. */
  lemma TracedYes(first: seq<Event>, mid: seq<Event>, soFar: map<nat, Origin>, calls: seq<Call>, m: Event)
    requires Traceable(first, mid, soFar) && m in mid && forall c :: c in calls ==> c.origin.event in mid
    ensures AllYes(Traced(calls, soFar), soFar[m.number].event) <==> AllYes(calls, m)
    ensures Called(Traced(calls, soFar), soFar[m.number].event) <==> Called(calls, m)
  {
    hide Follows, Entries;
    var s, traced := soFar[m.number].event, Traced(calls, soFar);
    forall k | 0 <= k < |calls| ensures traced[k].origin.event == s <==> calls[k].origin.event == m {
      assert calls[k] in calls;
    }
    forall c | c in traced ensures exists k :: 0 <= k < |calls| && traced[k] == c {
    }
    forall c | c in calls ensures exists k :: 0 <= k < |calls| && calls[k] == c {
    }
    if AllYes(traced, s) {
      forall c | c in calls && c.origin.event == m ensures c.answer {
        var k :| 0 <= k < |calls| && calls[k] == c;
        assert traced[k] in traced;
      }
    }
    if Called(calls, m) {
      var c :| c in calls && c.origin.event == m;
      var k :| 0 <= k < |calls| && calls[k] == c;
      assert traced[k] in traced;
    }
  }

  /** A timer behind no entry cannot be found later. */
  lemma AliveComposed(first: seq<Event>, mid: seq<Event>, es: seq<Event>, soFar: map<nat, Origin>,
                      second: map<nat, Origin>, s: Event)
    requires Traceable(first, mid, soFar)
    requires forall e :: e in es ==> e.number in second && second[e.number].event in mid
    ensures Alive(es, Compose(soFar, second), s) ==> Alive(mid, soFar, s)
    ensures forall m :: m in mid && soFar[m.number].event == s ==>
              (Alive(es, Compose(soFar, second), s) <==> Alive(es, second, m))
  {
    hide Follows;
    var origins := Compose(soFar, second);
    if Alive(es, origins, s) {
      var e :| e in es && e.number in origins && origins[e.number].event == s;
      assert second[e.number].event in mid;
    }
    forall m | m in mid && soFar[m.number].event == s
      ensures Alive(es, origins, s) <==> Alive(es, second, m)
    {
      if Alive(es, origins, s) {
        var e :| e in es && e.number in origins && origins[e.number].event == s;
        assert second[e.number].event == m;
      }
      if Alive(es, second, m) {
        var e :| e in es && e.number in second && second[e.number].event == m;
        assert e.number in origins && origins[e.number].event == s;
      }
    }
  }

  /** The timers that stay over all passes are those that never said no in any of them. */
  lemma KeptOn(first: seq<Event>, mid: seq<Event>, es: seq<Event>, soFar: map<nat, Origin>, second: map<nat, Origin>,
               before: seq<Call>, calls: seq<Call>)
    requires Traceable(first, mid, soFar) && Kept(first, mid, soFar, before) && Kept(mid, es, second, calls)
    requires forall c :: c in calls ==> c.origin.event in mid
    requires forall e :: e in es ==> e.number in second && second[e.number].event in mid
    ensures Kept(first, es, Compose(soFar, second), before + Traced(calls, soFar))
  {
    hide Traceable, AllYes, Compose;
    forall s | s in first
      ensures Alive(es, Compose(soFar, second), s) <==> AllYes(before + Traced(calls, soFar), s)
    {
      AllYesConcat(before, Traced(calls, soFar), s);
      AliveComposed(first, mid, es, soFar, second, s);
      if Alive(mid, soFar, s) {
        var m :| m in mid && m.number in soFar && soFar[m.number].event == s;
        TracedYes(first, mid, soFar, calls, m);
      }
    }
  }

  lemma OnGridOn(first: seq<Event>, mid: seq<Event>, soFar: map<nat, Origin>, before: seq<Call>, calls: seq<Call>,
                 now: real)
    requires Traceable(first, mid, soFar) && Kept(first, mid, soFar, before)
    requires AllOnGrid(first, before) && AllGenuine(mid, calls, now)
    ensures AllOnGrid(first, before + Traced(calls, soFar))
  {
    hide OnItsGrid;
    var traced := Traced(calls, soFar);
    var all := before + traced;
    forall k | 0 <= k < |all| ensures OnItsGrid(first, all[..k], all[k]) {
      if k < |before| {
        assert all[..k] == before[..k];
      } else {
        var j := k - |before|;
        assert all[..k] == before + traced[..j] && traced[..j] == Traced(calls[..j], soFar);
        assert Genuine(mid, calls[..j], calls[j], now);
        GenuineOnGrid(first, mid, soFar, before, calls, j, now);
      }
    }
  }

  lemma CallsAreOf(first: seq<Event>, calls: seq<Call>, now: real)
    requires AllGenuine(first, calls, now)
    ensures forall c :: c in calls ==> c.origin.event in first
  {
    forall k | 0 <= k < |calls| ensures calls[k].origin.event in first {
      assert Genuine(first, calls[..k], calls[k], now);
    }
  }

  lemma FollowsOn(o: Origin, c: Call, now: real)
    requires Follows(o, c.origin.event) && Descends(c.origin, c.event, now)
    ensures Follows(Origin(o.event, o.periods + c.origin.periods), c.event)
  {
    hide Grid;
    GridSum(o.event.deadline, o.event.delta, o.periods, c.origin.periods);
  }

  lemma GenuineOnGrid(first: seq<Event>, mid: seq<Event>, soFar: map<nat, Origin>, before: seq<Call>,
                      calls: seq<Call>, j: nat, now: real)
    requires Traceable(first, mid, soFar) && Kept(first, mid, soFar, before) && AllGenuine(mid, calls, now)
    requires j < |calls|
    ensures OnItsGrid(first, before + Traced(calls[..j], soFar), TracedOne(calls[j], soFar))
  {
    hide AllYes, Follows, Descends, Entries, Apart, AllGenuine;
    var c := calls[j];
    CallsAreOf(mid, calls, now);
    assert Genuine(mid, calls[..j], c, now) by { GenuineAt(mid, calls, j, now); }
    var m := c.origin.event;
    var s := soFar[m.number].event;
    assert m in mid && Alive(mid, soFar, s);
    TracedYes(first, mid, soFar, calls[..j], m);
    AllYesConcat(before, Traced(calls[..j], soFar), s);
    FollowsOn(soFar[m.number], c, now);
  }

  lemma GenuineAt(first: seq<Event>, calls: seq<Call>, k: nat, now: real)
    requires AllGenuine(first, calls, now) && k < |calls|
    ensures Genuine(first, calls[..k], calls[k], now)
  {
  }

  /** A timer whose callback always says yes is there after every run. */
  lemma FaithfulStays(first: seq<Event>, es: seq<Event>, origins: map<nat, Origin>, calls: seq<Call>, s: Event)
    requires Kept(first, es, origins, calls) && AllOnGrid(first, calls) && s in first
    requires forall c :: c in calls && c.event.callback == s.callback ==> c.answer
    ensures Alive(es, origins, s)
  {
    hide Alive;
    forall c | c in calls && c.origin.event == s ensures c.answer {
      var k :| 0 <= k < |calls| && calls[k] == c;
      assert OnItsGrid(first, calls[..k], calls[k]);
    }
  }

  /** A point of the timer's grid has come up since the pass before. */
  ghost predicate Due(s: Event, nows: seq<real>, i: nat)
    requires i < |nows|
  {
    exists p: nat :: (i > 0 ==> Grid(s.deadline, s.delta, p) > nows[i - 1]) && Grid(s.deadline, s.delta, p) <= nows[i]
  }

  /** Pass `i` calls the timers due that have not said no, in order, and none before its time. */
  ghost predicate Punctual(first: seq<Event>, log: seq<seq<Call>>, nows: seq<real>, i: nat)
    requires i < |log| && i < |nows|
  {
    && (forall s :: s in first && AllYes(Concat(log[..i]), s) && Due(s, nows, i) ==> Called(log[i], s))
    && Sorted(Entries(log[i])) && forall c :: c in log[i] ==> c.event.deadline <= nows[i]
  }

  ghost predicate AllPunctual(first: seq<Event>, log: seq<seq<Call>>, nows: seq<real>, n: nat)
    requires n <= |log| && n <= |nows|
  {
    forall i :: 0 <= i < n ==> Punctual(first, log, nows, i)
  }

  /** The entry of a timer that is due is due. */
  lemma DueEntry(first: seq<Event>, mid: seq<Event>, soFar: map<nat, Origin>, nows: seq<real>, i: nat, m: Event)
    requires i < |nows| && m in mid && m.delta > 0.0
    requires if i > 0 then Moved(first, mid, soFar, nows[i - 1])
             else m.number in soFar && soFar[m.number] == Origin(m, 0)
    requires Due(soFar[m.number].event, nows, i)
    ensures m.deadline <= nows[i]
  {
    var o := soFar[m.number];
    var s := o.event;
    var p: nat :| (i > 0 ==> Grid(s.deadline, s.delta, p) > nows[i - 1]) && Grid(s.deadline, s.delta, p) <= nows[i];
    if i > 0 {
      assert MovedTo(first, o, m, nows[i - 1]);
      FirstAfterIsLeast(s.deadline, s.delta, o.periods, nows[i - 1], p);
      GridMonotone(s.deadline, s.delta, o.periods, p);
    } else {
      GridMonotone(s.deadline, s.delta, 0, p);
    }
  }

  lemma PunctualOn(first: seq<Event>, mid: seq<Event>, es: seq<Event>, soFar: map<nat, Origin>,
                   second: map<nat, Origin>, log: seq<seq<Call>>, calls: seq<Call>, nows: seq<real>)
    requires |log| < |nows| && Traceable(first, mid, soFar) && (forall m :: m in mid ==> m.delta > 0.0)
    requires if |log| > 0 then Moved(first, mid, soFar, nows[|log| - 1])
             else forall m :: m in mid ==> m.number in soFar && soFar[m.number] == Origin(m, 0)
    requires Kept(first, mid, soFar, Concat(log)) && Kept(mid, es, second, calls) && Credited(es, second, calls)
    requires Moved(mid, es, second, nows[|log|]) && AllGenuine(mid, calls, nows[|log|]) && Sorted(Entries(calls))
    requires AllPunctual(first, log, nows, |log|)
    ensures AllPunctual(first, log + [Traced(calls, soFar)], nows, |log| + 1)
  {
    hide AllYes, Called, Due, Moved, Traceable, Credited, Descends, Sorted;
    var n, more := |log|, log + [Traced(calls, soFar)];
    forall c | c in calls ensures c.origin.event in mid && c.event.deadline <= nows[n] {
      var k :| 0 <= k < |calls| && calls[k] == c;
      assert Genuine(mid, calls[..k], calls[k], nows[n]);
    }
    forall i | 0 <= i < n ensures Punctual(first, more, nows, i) {
      assert more[..i] == log[..i] && Punctual(first, log, nows, i);
    }
    assert more[..n] == log;
    forall s | s in first && AllYes(Concat(log), s) && Due(s, nows, n) ensures Called(Traced(calls, soFar), s) {
      assert Alive(mid, soFar, s);
      var m :| m in mid && m.number in soFar && soFar[m.number].event == s;
      DueEntry(first, mid, soFar, nows, n, m);
      DueIsCalled(mid, es, second, calls, nows[n], m);
      TracedYes(first, mid, soFar, calls, m);
    }
  }

  /** The callbacks answered what they do answer. */
  ghost predicate Answered(log: seq<seq<Call>>, again: (nat, nat) -> bool) {
    forall i, k :: 0 <= i < |log| && 0 <= k < |log[i]| ==> log[i][k].answer == again(i, k)
  }

  lemma AnsweredOn(log: seq<seq<Call>>, calls: seq<Call>, soFar: map<nat, Origin>, again: (nat, nat) -> bool)
    requires Answered(log, again) && Answers(calls, (k: nat) => again(|log|, k))
    ensures Answered(log + [Traced(calls, soFar)], again)
  {
  }

  /** Going on from the timers as they are is no move. */
  lemma MovedFromStart(first: seq<Event>, es: seq<Event>, start: map<nat, Origin>, second: map<nat, Origin>, now: real)
    requires Moved(first, es, second, now)
    requires forall e :: e in first ==> e.number in start && start[e.number] == Origin(e, 0)
    ensures Moved(first, es, Compose(start, second), now)
  {
    hide Grid, FirstAfter;
  }

  /** The state of the timer thread after the passes logged. */
  ghost predicate Ongoing(first: seq<Event>, start: History, es: seq<Event>, history: History,
                          origins: map<nat, Origin>, log: seq<seq<Call>>, nows: seq<real>, again: (nat, nat) -> bool)
  {
    && |log| <= |nows| && Traceable(first, es, origins) && Continues(start, history, es, origins)
    && (if |log| > 0 then Moved(first, es, origins, nows[|log| - 1]) else es == first && Untouched(es, origins))
    && Kept(first, es, origins, Concat(log)) && AllOnGrid(first, Concat(log))
    && AllPunctual(first, log, nows, |log|) && Answered(log, again)
  }

  ghost predicate Untouched(es: seq<Event>, origins: map<nat, Origin>) {
    forall e :: e in es ==> e.number in origins && origins[e.number] == Origin(e, 0)
  }

  lemma OngoingStart(first: seq<Event>, history: History, origins: map<nat, Origin>, nows: seq<real>,
                     again: (nat, nat) -> bool)
    requires forall d, e :: d in first && e in first && d.number == e.number ==> d == e
    requires (forall e :: e in first ==> e.number in history) && Untouched(first, origins)
    ensures Ongoing(first, history, first, history, origins, [], nows, again)
    ensures Entries(Concat([])) == []
  {
    hide Traceable, Continues;
    IdentityTraceable(first, origins);
    ContinuesStart(history, first, origins);
  }

  /** What a pass at `now` does to the timers `es`. */
  ghost predicate Passes(es: seq<Event>, history: History, es1: seq<Event>, history1: History,
                         second: map<nat, Origin>, calls: seq<Call>, now: real)
  {
    && Kept(es, es1, second, calls) && Credited(es1, second, calls) && AllGenuine(es, calls, now)
    && Sorted(Entries(calls)) && Moved(es, es1, second, now) && Continues(history, history1, es1, second)
  }

  lemma OngoingNext(first: seq<Event>, start: History, es: seq<Event>, history: History, origins: map<nat, Origin>,
                    log: seq<seq<Call>>, nows: seq<real>, again: (nat, nat) -> bool,
                    es1: seq<Event>, history1: History, second: map<nat, Origin>, calls: seq<Call>)
    requires Ongoing(first, start, es, history, origins, log, nows, again) && |log| < |nows|
    requires |log| > 0 ==> nows[|log| - 1] <= nows[|log|]
    requires forall d, e :: d in es && e in es && d.number == e.number ==> d == e
    requires forall e :: e in es ==> e.delta > 0.0
    requires Passes(es, history, es1, history1, second, calls, nows[|log|])
    requires Answers(calls, (k: nat) => again(|log|, k))
    ensures Ongoing(first, start, es1, history1, Compose(origins, second), log + [Traced(calls, origins)], nows, again)
    ensures Entries(Concat(log + [Traced(calls, origins)])) == Entries(Concat(log)) + Entries(calls)
  {
    hide Traceable, Continues, Moved, Kept, Credited, AllGenuine, AllOnGrid, AllPunctual, Answered, Answers, Sorted,
         Concat, Compose;
    var now := nows[|log|];
    MovedFrom(es, es1, second, now);
    CallsAreOf(es, calls, now);
    KeptOn(first, es, es1, origins, second, Concat(log), calls);
    OnGridOn(first, es, origins, Concat(log), calls, now);
    PunctualOn(first, es, es1, origins, second, log, calls, nows);
    AnsweredOn(log, calls, origins, again);
    ConcatSnoc(log, Traced(calls, origins));
    EntriesConcat(Concat(log), Traced(calls, origins));
    if |log| > 0 { ComposeMoved(first, es, es1, origins, second, nows[|log| - 1], now); }
    else { MovedFromStart(es, es1, origins, second, now); }
    ComposeContinues(start, history, history1, es, es1, origins, second, now);
    MovedTraceable(first, es1, Compose(origins, second), now);
    assert (log + [Traced(calls, origins)])[|log|] == Traced(calls, origins);
  }

  lemma PassIs(es: seq<Event>, history: History, es1: seq<Event>, history1: History,
               second: map<nat, Origin>, calls: seq<Call>, now: real)
    requires Kept(es, es1, second, calls) && Credited(es1, second, calls) && AllGenuine(es, calls, now)
    requires Sorted(Entries(calls)) && Moved(es, es1, second, now) && Continues(history, history1, es1, second)
    ensures Passes(es, history, es1, history1, second, calls, now)
  {
  }

  lemma OngoingDone(first: seq<Event>, start: History, es: seq<Event>, history: History, origins: map<nat, Origin>,
                    log: seq<seq<Call>>, nows: seq<real>, again: (nat, nat) -> bool)
    requires Ongoing(first, start, es, history, origins, log, nows, again) && |log| == |nows| > 0
    ensures AllPunctual(first, log, nows, |nows|) && Answered(log, again)
    ensures AllOnGrid(first, Concat(log)) && Kept(first, es, origins, Concat(log))
    ensures Moved(first, es, origins, nows[|nows| - 1]) && Continues(start, history, es, origins)
  {
    hide Moved, Continues, Kept, AllOnGrid, AllPunctual, Answered, Concat, Traceable;
  }

  lemma EntriesConcat(a: seq<Call>, b: seq<Call>)
    ensures Entries(a + b) == Entries(a) + Entries(b)
  {
  }

  lemma StillPositive(first: seq<Event>, es: seq<Event>, origins: map<nat, Origin>, now: real)
    requires Moved(first, es, origins, now) && forall e :: e in first ==> e.delta > 0.0
    ensures forall e :: e in es ==> e.delta > 0.0
  {
    hide FirstAfter, Grid;
  }
}
